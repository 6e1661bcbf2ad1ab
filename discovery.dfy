/**
  How BleRequestImpl classifies what service discovery reports: which
  services it looks into, which characteristic becomes the write and the read
  characteristic of the device, which ones are queued for notification, and
  the stack calls that arm one queued characteristic.
*/
module Discovery {
  import opened Wrappers
  import opened Gatt
  import opened Connection

  /** isContainUUID: one of the non-null extra service UUIDs equals `uuid`. */
  predicate IsExtraService(extras: seq<Option<Uuid>>, uuid: Uuid)
  {
    Some(uuid) in extras
  }

  /** A discovered service is examined when it is the primary service or one of the extras. */
  predicate Selected(options: Options, s: Service)
  {
    s.uuid == options.serviceUuid || IsExtraService(options.extraServiceUuids, s.uuid)
  }

  /** What one device's discovery has routed so far. */
  datatype Found = Found(write: Option<Characteristic>, read: Option<Characteristic>, queue: seq<Characteristic>)

  /**
    One characteristic of an examined service: the write UUID routes it to
    the write table, the read UUID to the read table (a later match replaces
    an earlier one), and it is queued once for NOTIFY and once more for
    INDICATE.
  */
  function Classify(options: Options, f: Found, c: Characteristic): Found
  {
    Found(if c.uuid == options.writeUuid then Some(c) else f.write,
          if c.uuid == options.readUuid then Some(c) else f.read,
          f.queue + (if c.CanNotify() then [c] else []) + (if c.CanIndicate() then [c] else []))
  }

  function ClassifyAll(options: Options, f: Found, cs: seq<Characteristic>): Found
  {
    if cs == [] then f else Classify(options, ClassifyAll(options, f, cs[..|cs| - 1]), cs[|cs| - 1])
  }

  function ScanService(options: Options, f: Found, s: Service): Found
  {
    if Selected(options, s) then ClassifyAll(options, f, s.characteristics) else f
  }

  /** The loop of displayGattServices over the discovered services. */
  function Scan(options: Options, f: Found, ss: seq<Service>): Found
  {
    if ss == [] then f else ScanService(options, Scan(options, f, ss[..|ss| - 1]), ss[|ss| - 1])
  }

  /** onReady fires once for every examined service, in order. */
  function Readies(options: Options, address: Address, ss: seq<Service>): seq<BleEvent>
  {
    if ss == [] then []
    else Readies(options, address, ss[..|ss| - 1]) + (if Selected(options, ss[|ss| - 1]) then [Ready(address)] else [])
  }

  /** `c` is a characteristic of an examined service among `ss`. */
  ghost predicate Offered(options: Options, ss: seq<Service>, c: Characteristic)
  {
    exists i :: 0 <= i < |ss| && Selected(options, ss[i]) && c in ss[i].characteristics
  }

  /** The write slot (`toWrite`) or the read slot of a routing state, and the UUID that fills it. */
  function Slot(f: Found, toWrite: bool): Option<Characteristic>
  {
    if toWrite then f.write else f.read
  }

  function SlotUuid(options: Options, toWrite: bool): Uuid
  {
    if toWrite then options.writeUuid else options.readUuid
  }

  lemma {:induction false} ClassifyAllRoute(options: Options, f: Found, cs: seq<Characteristic>, toWrite: bool)
    ensures var r := Slot(ClassifyAll(options, f, cs), toWrite);
            var u := SlotUuid(options, toWrite);
            && (r == Slot(f, toWrite) || (r.Some? && r.value.uuid == u && r.value in cs))
            && ((exists c :: c in cs && c.uuid == u) ==> r.Some? && r.value.uuid == u && r.value in cs)
  {
    if cs != [] {
      var init := cs[..|cs| - 1];
      var last := cs[|cs| - 1];
      var u := SlotUuid(options, toWrite);
      var g := ClassifyAll(options, f, init);
      ClassifyAllRoute(options, f, init, toWrite);
      assert cs == init + [last];
      assert Slot(ClassifyAll(options, f, cs), toWrite) == if last.uuid == u then Some(last) else Slot(g, toWrite);
      assert forall c :: c in cs <==> c in init || c == last;
    }
  }

  /**
    Routing is sound and complete: the write (read) slot either keeps its
    value or holds an offered characteristic with the write (read) UUID, and
    whenever such a characteristic is offered the slot holds one.
  */
  lemma {:induction false} ScanRoute(options: Options, f: Found, ss: seq<Service>, toWrite: bool)
    ensures var r := Slot(Scan(options, f, ss), toWrite);
            var u := SlotUuid(options, toWrite);
            && (r == Slot(f, toWrite) || (r.Some? && r.value.uuid == u && Offered(options, ss, r.value)))
            && ((exists c :: Offered(options, ss, c) && c.uuid == u) ==>
                  r.Some? && r.value.uuid == u && Offered(options, ss, r.value))
  {
    if ss != [] {
      var init := ss[..|ss| - 1];
      var last := ss[|ss| - 1];
      var u := SlotUuid(options, toWrite);
      ScanRoute(options, f, init, toWrite);
      var g := Scan(options, f, init);
      ClassifyAllRoute(options, g, last.characteristics, toWrite);
      var r := Slot(Scan(options, f, ss), toWrite);
      forall c | Offered(options, init, c)
        ensures Offered(options, ss, c)
      {
        var i :| 0 <= i < |init| && Selected(options, init[i]) && c in init[i].characteristics;
        assert ss[i] == init[i];
      }
      if Selected(options, last) && r != Slot(g, toWrite) {
        assert Offered(options, ss, r.value) by {
          assert ss[|ss| - 1] == last;
        }
      }
      if exists c :: Offered(options, ss, c) && c.uuid == u {
        var c :| Offered(options, ss, c) && c.uuid == u;
        var i :| 0 <= i < |ss| && Selected(options, ss[i]) && c in ss[i].characteristics;
        assert ss[|ss| - 1] == last;
        if i < |init| {
          assert init[i] == ss[i];
          assert Offered(options, init, c);
          // the earlier services already fill the slot with an offered characteristic
          if r != Slot(g, toWrite) {
            assert Selected(options, last) && r.value in last.characteristics;
          }
        } else {
          assert Selected(options, last) && c in last.characteristics;
          assert r.value in last.characteristics;
        }
      }
    }
  }

  /**
    A characteristic is queued exactly when it was queued before or is an
    offered characteristic with NOTIFY or INDICATE; the earlier queue is kept
    as a prefix.
  */
  lemma {:induction false} ScanQueue(options: Options, f: Found, ss: seq<Service>)
    ensures var q := Scan(options, f, ss).queue;
            && f.queue <= q
            && forall c :: c in q <==> c in f.queue || (Offered(options, ss, c) && (c.CanNotify() || c.CanIndicate()))
  {
    if ss != [] {
      var init := ss[..|ss| - 1];
      var last := ss[|ss| - 1];
      ScanQueue(options, f, init);
      var g := Scan(options, f, init);
      ClassifyAllQueue(options, g, last.characteristics);
      forall c
        ensures Offered(options, ss, c) <==> Offered(options, init, c) || (Selected(options, last) && c in last.characteristics)
      {
        if Offered(options, ss, c) {
          var i :| 0 <= i < |ss| && Selected(options, ss[i]) && c in ss[i].characteristics;
          if i < |init| {
            assert init[i] == ss[i];
          }
        }
        if Offered(options, init, c) {
          var i :| 0 <= i < |init| && Selected(options, init[i]) && c in init[i].characteristics;
          assert ss[i] == init[i];
        }
      }
    }
  }

  lemma {:induction false} ClassifyAllQueue(options: Options, f: Found, cs: seq<Characteristic>)
    ensures var q := ClassifyAll(options, f, cs).queue;
            && f.queue <= q
            && forall c :: c in q <==> c in f.queue || (c in cs && (c.CanNotify() || c.CanIndicate()))
  {
    if cs != [] {
      var init := cs[..|cs| - 1];
      ClassifyAllQueue(options, f, init);
      assert cs == init + [cs[|cs| - 1]];
    }
  }

  /** Selected services, by position. */
  function SelectedIndices(options: Options, ss: seq<Service>): set<nat>
  {
    set i: nat | i < |ss| && Selected(options, ss[i])
  }

  lemma SelectedIndicesSnoc(options: Options, ss: seq<Service>)
    requires ss != []
    ensures var n := |ss| - 1;
            && n !in SelectedIndices(options, ss[..n])
            && SelectedIndices(options, ss)
               == SelectedIndices(options, ss[..n]) + (if Selected(options, ss[n]) then {n} else {})
  {
    var n := |ss| - 1;
    forall i: nat | i < n
      ensures ss[i] == ss[..n][i]
    {
    }
  }

  /** onReady fires once per examined service and carries the device's address. */
  lemma {:induction false} ReadiesCount(options: Options, address: Address, ss: seq<Service>)
    ensures var r := Readies(options, address, ss);
            && |r| == |SelectedIndices(options, ss)|
            && forall e :: e in r ==> e == Ready(address)
  {
    if ss != [] {
      ReadiesCount(options, address, ss[..|ss| - 1]);
      SelectedIndicesSnoc(options, ss);
    }
  }

  /**
    The value setCharacteristicNotificationInternal writes to each descriptor:
    the notification or indication enable value, or the disable value, by
    the characteristic's properties (NOTIFY first). A characteristic with
    neither keeps whatever value its descriptors held (None).
  */
  function DescriptorValue(c: Characteristic, enabled: bool): (v: Option<seq<byte>>)
    ensures v.Some? <==> c.CanNotify() || c.CanIndicate()
    ensures v.Some? ==> (v.value == DISABLE_NOTIFICATION_VALUE <==> !enabled)
    ensures v.Some? && enabled ==> (v.value == ENABLE_INDICATION_VALUE <==> !c.CanNotify())
  {
    if c.CanNotify() then Some(if enabled then ENABLE_NOTIFICATION_VALUE else DISABLE_NOTIFICATION_VALUE)
    else if c.CanIndicate() then Some(if enabled then ENABLE_INDICATION_VALUE else DISABLE_NOTIFICATION_VALUE)
    else None
  }

  /** The descriptor writes for `ds`, in order. */
  function DescriptorWrites(address: Address, c: Characteristic, enabled: bool, ds: seq<Descriptor>): seq<GattCall>
  {
    if ds == [] then []
    else DescriptorWrites(address, c, enabled, ds[..|ds| - 1])
         + [WriteDescriptor(address, c.uuid, ds[|ds| - 1].uuid, DescriptorValue(c, enabled))]
  }

  /** Arming one characteristic: enable it at the stack, then write each of its descriptors. */
  function ArmCalls(address: Address, c: Characteristic, enabled: bool): seq<GattCall>
  {
    [SetNotification(address, c.uuid, enabled)] + DescriptorWrites(address, c, enabled, c.descriptors)
  }

  /** Arming writes every descriptor of the characteristic exactly once, in order, with one value. */
  lemma {:induction false} DescriptorWritesShape(address: Address, c: Characteristic, enabled: bool, ds: seq<Descriptor>)
    ensures var w := DescriptorWrites(address, c, enabled, ds);
            && |w| == |ds|
            && forall i :: 0 <= i < |ds| ==> w[i] == WriteDescriptor(address, c.uuid, ds[i].uuid, DescriptorValue(c, enabled))
  {
    if ds != [] {
      DescriptorWritesShape(address, c, enabled, ds[..|ds| - 1]);
    }
  }
}
