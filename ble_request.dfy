/**
  BleRequestImpl: connection bookkeeping per device address, routing of the
  discovered write/read characteristics, and the notification sequencer that
  arms the queued characteristics one descriptor-write round trip at a time.

  The Android stack is an oracle: the adapter, the address check, what
  getRemoteDevice and connectGatt return, whether a write/read/MTU request
  is issued, and the services discovery reports are inputs; the calls the
  library makes are recorded in `gattCalls` and the callbacks it fires in
  `events`.
*/
module BleRequest {
  import opened Wrappers
  import opened Gatt
  import opened Connection
  import opened Discovery

  /** The routing state discovery starts from for `a`: its current table entries and the queue. */
  function FoundOf(t: Tables, a: Address): Found
  {
    Found(Lookup(t.writeChars, a), Lookup(t.readChars, a), t.queue)
  }

  /** Writes a routing state back: the entries for `a` and the queue. */
  function WithFound(t: Tables, a: Address, f: Found): Tables
  {
    t.(writeChars := Put(t.writeChars, a, f.write), readChars := Put(t.readChars, a, f.read), queue := f.queue)
  }

  lemma FoundOfWithFound(t: Tables, a: Address, f: Found)
    ensures FoundOf(WithFound(t, a, f), a) == f
    ensures WithFound(WithFound(t, a, f), a, FoundOf(WithFound(t, a, f), a)) == WithFound(t, a, f)
  {
  }

  lemma WithFoundTwice(t: Tables, a: Address, f: Found, g: Found)
    ensures WithFound(WithFound(t, a, f), a, g) == WithFound(t, a, g)
  {
    PutPut(t.writeChars, a, f.write, g.write);
    PutPut(t.readChars, a, f.read, g.read);
  }

  lemma WithFoundOfSelf(t: Tables, a: Address)
    ensures WithFound(t, a, FoundOf(t, a)) == t
  {
    PutLookup(t.writeChars, a);
    PutLookup(t.readChars, a);
  }

  /** displayGattServices over a non-empty service list. */
  function Displayed(options: Options, callback: bool, t: Tables, a: Address, ss: seq<Service>): Tables
  {
    WithFound(t, a, Scan(options, FoundOf(t, a), ss))
      .(events := t.events + (if callback then Readies(options, a, ss) else []))
  }

  /** One more service of displayGattServices, as the updates the loop body makes. */
  lemma DisplayedStep(options: Options, callback: bool, t: Tables, a: Address, ss: seq<Service>, i: nat)
    requires i < |ss|
    ensures var d := Displayed(options, callback, t, a, ss[..i]);
            Displayed(options, callback, t, a, ss[..i + 1])
            == if Selected(options, ss[i]) then
                 WithFound(d, a, ClassifyAll(options, FoundOf(d, a), ss[i].characteristics))
                   .(events := d.events + (if callback then [Ready(a)] else []))
               else d
  {
    assert ss[..i + 1][..i] == ss[..i];
    var f := Scan(options, FoundOf(t, a), ss[..i]);
    FoundOfWithFound(t, a, f);
    WithFoundTwice(t, a, f, ClassifyAll(options, f, ss[i].characteristics));
    if !Selected(options, ss[i]) {
      WithFoundOfSelf(WithFound(t, a, f), a);
    }
  }

  /** setCharacteristicNotification once the address is verified: arm the entry under the cursor, if any. */
  function Armed(t: Tables, a: Address, enabled: bool): Tables
  {
    if t.cursor < |t.queue| then
      t.(cursor := t.cursor + 1, calls := t.calls + ArmCalls(a, t.queue[t.cursor], enabled))
    else t
  }

  /** The completion report of the sequencer, by the value the last descriptor holds. */
  function NotifyReport(a: Address, value: Option<seq<byte>>): (r: seq<BleEvent>)
    ensures |r| <= 1
    ensures r == [NotifySuccess(a)] <==>
              value == Some(ENABLE_NOTIFICATION_VALUE) || value == Some(ENABLE_INDICATION_VALUE)
    ensures r == [NotifyCanceled(a)] <==> value == Some(DISABLE_NOTIFICATION_VALUE)
  {
    if value == Some(ENABLE_NOTIFICATION_VALUE) || value == Some(ENABLE_INDICATION_VALUE) then [NotifySuccess(a)]
    else if value == Some(DISABLE_NOTIFICATION_VALUE) then [NotifyCanceled(a)]
    else []
  }

  /** The calls that arm the entries `q`, in order, each enabled. */
  function ArmAllCalls(a: Address, q: seq<Characteristic>): seq<GattCall>
  {
    if q == [] then [] else ArmAllCalls(a, q[..|q| - 1]) + ArmCalls(a, q[|q| - 1], true)
  }

  lemma ArmAllCallsSnoc(a: Address, q: seq<Characteristic>, i: nat, j: nat)
    requires i < j <= |q|
    ensures ArmAllCalls(a, q[i..j]) == ArmAllCalls(a, q[i..j - 1]) + ArmCalls(a, q[j - 1], true)
  {
    var s := q[i..j];
    assert s[..|s| - 1] == q[i..j - 1];
  }

  /** `k` successful descriptor-write round trips: the sequencer armed `k` more times. */
  function ArmRepeated(t: Tables, a: Address, k: nat): Tables
  {
    if k == 0 then t else Armed(ArmRepeated(t, a, k - 1), a, true)
  }

  /**
    The sequencer walks the queue from the cursor: after `k` round trips the
    next `k` entries (as many as remain) are armed in queue order, each
    once, the cursor never passes the end of the queue, and nothing else
    changes.
  */
  lemma ArmedStep(t: Tables, a: Address)
    requires t.cursor <= |t.queue|
    ensures var r := Armed(t, a, true);
            && r.cursor == (if t.cursor < |t.queue| then t.cursor + 1 else t.cursor)
            && r.calls == t.calls + (if t.cursor < |t.queue| then ArmCalls(a, t.queue[t.cursor], true) else [])
            && r.queue == t.queue
  {
  }

  lemma ArmedFrame(t: Tables, a: Address)
    ensures Armed(t, a, true).(cursor := t.cursor, calls := t.calls) == t
  {
  }

  /** The cursor advances by one per round trip up to the end of the queue; only the calls change besides. */
  lemma {:induction false} ArmRepeatedCursor(t: Tables, a: Address, k: nat)
    requires t.cursor <= |t.queue|
    ensures var r := ArmRepeated(t, a, k);
            && r.cursor == (if t.cursor + k <= |t.queue| then t.cursor + k else |t.queue|)
            && r.(cursor := t.cursor, calls := t.calls) == t
  {
    if k > 0 {
      ArmRepeatedCursor(t, a, k - 1);
      ArmedStep(ArmRepeated(t, a, k - 1), a);
      ArmedFrame(ArmRepeated(t, a, k - 1), a);
    }
  }

  /**
    The sequencer walks the queue from the cursor: after `k` round trips the
    next `k` entries (as many as remain) are armed in queue order, each
    once.
  */
  lemma {:induction false} ArmRepeatedCalls(t: Tables, a: Address, k: nat)
    requires t.cursor <= |t.queue|
    ensures var r := ArmRepeated(t, a, k);
            && r.queue == t.queue && t.cursor <= r.cursor <= |t.queue|
            && r.calls == t.calls + ArmAllCalls(a, t.queue[t.cursor..r.cursor])
  {
    if k == 0 {
      assert t.queue[t.cursor..t.cursor] == [];
      assert t.calls + ArmAllCalls(a, []) == t.calls;
    } else {
      ArmRepeatedCalls(t, a, k - 1);
      ArmedExtends(t, ArmRepeated(t, a, k - 1), a);
    }
  }

  /** One more round trip extends the armed prefix of the queue by the entry under the cursor. */
  lemma ArmedExtends(t: Tables, p: Tables, a: Address)
    requires p.queue == t.queue && t.cursor <= p.cursor <= |t.queue|
    requires p.calls == t.calls + ArmAllCalls(a, t.queue[t.cursor..p.cursor])
    ensures var r := Armed(p, a, true);
            && r.queue == t.queue && t.cursor <= r.cursor <= |t.queue|
            && r.calls == t.calls + ArmAllCalls(a, t.queue[t.cursor..r.cursor])
  {
    ArmedStep(p, a);
    if p.cursor < |p.queue| {
      ArmPrefixSnoc(a, t.queue, t.cursor, p.cursor, t.calls);
    }
  }

  lemma ArmPrefixSnoc(a: Address, q: seq<Characteristic>, c0: nat, c: nat, calls: seq<GattCall>)
    requires c0 <= c < |q|
    ensures (calls + ArmAllCalls(a, q[c0..c])) + ArmCalls(a, q[c], true) == calls + ArmAllCalls(a, q[c0..c + 1])
  {
    ArmAllCallsSnoc(a, q, c0, c + 1);
  }

  /** Routing one characteristic, as the updates of the tables it makes. */
  lemma WithFoundClassify(options: Options, t: Tables, a: Address, f: Found, c: Characteristic)
    ensures var w := WithFound(t, a, f);
            WithFound(t, a, Classify(options, f, c))
            == w.(writeChars := if c.uuid == options.writeUuid then w.writeChars[a := c] else w.writeChars,
                  readChars := if c.uuid == options.readUuid then w.readChars[a := c] else w.readChars,
                  queue := w.queue + (if c.CanNotify() then [c] else []) + (if c.CanIndicate() then [c] else []))
  {
  }

  class BleRequestImpl {
    const options: Options
    /** bluetoothAdapter != null */
    const adapterPresent: bool
    /** BluetoothAdapter.checkBluetoothAddress */
    const validAddress: Address -> bool
    /** connectWrapperCallback != null */
    const hasConnectCallback: bool
    /** notifyWrapperCallback != null */
    const hasNotifyCallback: bool
    /** Build.VERSION.SDK_INT >= LOLLIPOP */
    const atLeastLollipop: bool

    var gattHashMap: map<Address, LinkId>
    var connectedAddressList: seq<Address>
    var writeCharacteristicMap: map<Address, Characteristic>
    var readCharacteristicMap: map<Address, Characteristic>
    /** Connect timeouts posted to the Handler, by token. */
    var pendingTimeouts: multiset<Address>
    var notifyCharacteristics: seq<Characteristic>
    var notifyIndex: nat
    var events: seq<BleEvent>
    var gattCalls: seq<GattCall>

    ghost function Snapshot(): Tables
      reads this
    {
      Tables(gattHashMap, connectedAddressList, writeCharacteristicMap, readCharacteristicMap,
             pendingTimeouts, notifyCharacteristics, notifyIndex, events, gattCalls)
    }

    /**
      The cursor never passes the end of the notify queue, and the write and
      read tables only hold characteristics with the configured UUIDs.
    */
    ghost predicate Valid()
      reads this
    {
      && notifyIndex <= |notifyCharacteristics|
      && (forall a :: a in writeCharacteristicMap ==> writeCharacteristicMap[a].uuid == options.writeUuid)
      && (forall a :: a in readCharacteristicMap ==> readCharacteristicMap[a].uuid == options.readUuid)
    }

    constructor (options: Options, adapterPresent: bool, validAddress: Address -> bool,
                 hasConnectCallback: bool, hasNotifyCallback: bool, atLeastLollipop: bool)
      ensures this.options == options && this.adapterPresent == adapterPresent
      ensures this.validAddress == validAddress && this.atLeastLollipop == atLeastLollipop
      ensures this.hasConnectCallback == hasConnectCallback && this.hasNotifyCallback == hasNotifyCallback
      ensures Snapshot() == Tables(map[], [], map[], map[], multiset{}, [], 0, [], [])
      ensures Valid()
    {
      this.options := options;
      this.adapterPresent := adapterPresent;
      this.validAddress := validAddress;
      this.hasConnectCallback := hasConnectCallback;
      this.hasNotifyCallback := hasNotifyCallback;
      this.atLeastLollipop := atLeastLollipop;
      gattHashMap, connectedAddressList := map[], [];
      writeCharacteristicMap, readCharacteristicMap := map[], map[];
      pendingTimeouts := multiset{};
      notifyCharacteristics, notifyIndex := [], 0;
      events, gattCalls := [], [];
    }

    /** verifyParams: true (refuse) when there is no adapter or no link for the address. */
    predicate VerifyParams(address: Address)
      reads this
    {
      !adapterPresent || address !in gattHashMap
    }

    /** handler.removeCallbacksAndMessages(address): drops every timeout tagged with the address. */
    method CancelTimeout(address: Address)
      modifies this
      ensures Snapshot() == old(Snapshot()).(timeouts := old(pendingTimeouts)[address := 0])
    {
      pendingTimeouts := pendingTimeouts[address := 0];
    }

    /**
      connect(address): an already listed address succeeds at once; no
      adapter, an invalid address or a missing device fail at once. Otherwise
      a timeout tagged with the address is posted, CONNECTING is reported,
      connectGatt is called, and the link is stored only when one is
      returned (the timeout stays posted either way).
    */
    method Connect(address: Address, deviceFound: bool, link: Option<LinkId>) returns (r: bool)
      requires Valid()
      modifies this
      ensures Valid()
      ensures address in old(connectedAddressList) ==> r && Snapshot() == old(Snapshot())
      ensures address !in old(connectedAddressList) && !(adapterPresent && validAddress(address) && deviceFound) ==>
                !r && Snapshot() == old(Snapshot())
      ensures address !in old(connectedAddressList) && adapterPresent && validAddress(address) && deviceFound ==>
                && r == link.Some?
                && Snapshot() == old(Snapshot()).(
                     timeouts := old(pendingTimeouts) + multiset{address},
                     events := old(events) + (if hasConnectCallback then [ConnectionChanged(address, Connecting)] else []),
                     calls := old(gattCalls) + [ConnectGatt(address, options.autoConnect)],
                     links := if link.Some? then old(gattHashMap)[address := link.value] else old(gattHashMap))
    {
      if address in connectedAddressList {
        return true;
      }
      if !adapterPresent {
        return false;
      }
      if !validAddress(address) {
        return false;
      }
      if !deviceFound {
        return false;
      }
      pendingTimeouts := pendingTimeouts + multiset{address};
      if hasConnectCallback {
        events := events + [ConnectionChanged(address, Connecting)];
      }
      gattCalls := gattCalls + [ConnectGatt(address, options.autoConnect)];
      if link.Some? {
        gattHashMap := gattHashMap[address := link.value];
        return true;
      }
      return false;
    }

    /**
      The posted timeout runs: it reports the timeout and closes the address.
      Without a connect callback the runnable dereferences null and stops
      before closing anything.
    */
    method OnConnectTimeout(address: Address)
      requires Valid() && address in pendingTimeouts
      modifies this
      ensures Valid()
      ensures var t := old(Snapshot()).(timeouts := old(pendingTimeouts) - multiset{address});
              Snapshot() == if hasConnectCallback then Closed(t.(events := t.events + [ConnectTimeOut(address)]), address)
                            else t
    {
      pendingTimeouts := pendingTimeouts - multiset{address};
      if hasConnectCallback {
        events := events + [ConnectTimeOut(address)];
        Close(address);
      }
    }

    /**
      disconnect(address): refused by verifyParams or an invalid address;
      otherwise the link is disconnected, the notify queue emptied and the
      address's write and read entries forgotten.
    */
    method Disconnect(address: Address)
      requires Valid()
      modifies this
      ensures Valid()
      ensures Snapshot() == if old(VerifyParams(address)) || !validAddress(address) then old(Snapshot())
                            else Disconnected(old(Snapshot()), address)
    {
      if VerifyParams(address) {
        return;
      }
      if !validAddress(address) {
        return;
      }
      gattCalls := gattCalls + [GattDisconnect(address)];
      notifyIndex := 0;
      notifyCharacteristics := [];
      writeCharacteristicMap := writeCharacteristicMap - {address};
      readCharacteristicMap := readCharacteristicMap - {address};
    }

    /** close(address) */
    method Close(address: Address)
      modifies this
      ensures Snapshot() == Closed(old(Snapshot()), address)
    {
      connectedAddressList := RemoveFirst(connectedAddressList, address);
      if address in gattHashMap {
        gattCalls := gattCalls + [GattClose(address)];
        gattHashMap := gattHashMap - {address};
      }
    }

    /** close(): closes the link of every listed address, then empties both collections. */
    method CloseAll()
      modifies this
      ensures Snapshot() == ClosedAll(old(Snapshot()))
    {
      ghost var t0 := Snapshot();
      for i := 0 to |connectedAddressList|
        modifies this`gattCalls
        invariant gattCalls == t0.calls + CloseCalls(t0.connected[..i], t0.links)
      {
        CloseCallsSnoc(t0.connected, t0.links, i);
        var address := connectedAddressList[i];
        if address in gattHashMap {
          gattCalls := gattCalls + [GattClose(address)];
        }
      }
      assert t0.connected[..|t0.connected|] == t0.connected;
      gattHashMap := map[];
      connectedAddressList := [];
    }

    /** setMtu: forwarded only for a verified address, on Lollipop or later, above 20. */
    method SetMtu(address: Address, mtu: int, issued: bool) returns (r: bool)
      modifies this
      ensures var sent := !old(VerifyParams(address)) && atLeastLollipop && mtu > MTU_FLOOR;
              && r == (sent && issued)
              && Snapshot() == old(Snapshot()).(calls := old(gattCalls) + (if sent then [RequestMtu(address, mtu)] else []))
    {
      if VerifyParams(address) {
        return false;
      }
      if atLeastLollipop {
        if mtu > MTU_FLOOR {
          if address in gattHashMap {
            gattCalls := gattCalls + [RequestMtu(address, mtu)];
            return issued;
          }
        }
      }
      return false;
    }

    /**
      wirteCharacteristic: sends `value` through the address's write entry
      when the address is verified and the entry carries the write UUID.
    */
    method WirteCharacteristic(address: Address, value: seq<byte>, issued: bool) returns (r: bool)
      modifies this
      ensures var sent := !old(VerifyParams(address)) && address in writeCharacteristicMap
                          && writeCharacteristicMap[address].uuid == options.writeUuid;
              && r == (sent && issued)
              && Snapshot() == old(Snapshot()).(calls := old(gattCalls) +
                   (if sent then [WriteCharacteristic(address, options.writeUuid, value)] else []))
      ensures old(Valid()) ==> (r <==> !old(VerifyParams(address)) && address in writeCharacteristicMap && issued)
    {
      if VerifyParams(address) {
        return false;
      }
      if address in writeCharacteristicMap {
        var gattCharacteristic := writeCharacteristicMap[address];
        if options.writeUuid == gattCharacteristic.uuid {
          gattCalls := gattCalls + [WriteCharacteristic(address, gattCharacteristic.uuid, value)];
          return issued;
        }
      }
      return false;
    }

    /** readCharacteristic: reads the address's read entry when it carries the read UUID. */
    method ReadCharacteristic(address: Address, issued: bool) returns (r: bool)
      modifies this
      ensures var sent := !old(VerifyParams(address)) && address in readCharacteristicMap
                          && readCharacteristicMap[address].uuid == options.readUuid;
              && r == (sent && issued)
              && Snapshot() == old(Snapshot()).(calls := old(gattCalls) +
                   (if sent then [GattCall.ReadCharacteristic(address, options.readUuid)] else []))
      ensures old(Valid()) ==> (r <==> !old(VerifyParams(address)) && address in readCharacteristicMap && issued)
    {
      if VerifyParams(address) {
        return false;
      }
      if address in readCharacteristicMap {
        var gattCharacteristic := readCharacteristicMap[address];
        if options.readUuid == gattCharacteristic.uuid {
          gattCalls := gattCalls + [GattCall.ReadCharacteristic(address, gattCharacteristic.uuid)];
          return issued;
        }
      }
      return false;
    }

    /** readRssi: needs a verified address and a read entry, whatever its UUID. */
    method ReadRssi(address: Address, issued: bool) returns (r: bool)
      modifies this
      ensures var sent := !old(VerifyParams(address)) && address in readCharacteristicMap;
              && r == (sent && issued)
              && Snapshot() == old(Snapshot()).(calls := old(gattCalls) + (if sent then [ReadRemoteRssi(address)] else []))
    {
      if VerifyParams(address) {
        return false;
      }
      if address in readCharacteristicMap {
        gattCalls := gattCalls + [ReadRemoteRssi(address)];
        return issued;
      }
      return false;
    }

    /** setCharacteristicNotification: arms the entry under the cursor and advances it. */
    method SetCharacteristicNotification(address: Address, enabled: bool)
      requires Valid()
      modifies this
      ensures Valid()
      ensures Snapshot() == if old(VerifyParams(address)) then old(Snapshot()) else Armed(old(Snapshot()), address, enabled)
    {
      if VerifyParams(address) {
        return;
      }
      if |notifyCharacteristics| > 0 && notifyIndex < |notifyCharacteristics| {
        var characteristic := notifyCharacteristics[notifyIndex];
        notifyIndex := notifyIndex + 1;
        SetCharacteristicNotificationInternal(address, characteristic, enabled);
      }
    }

    /** Enables the characteristic at the stack, then writes each of its descriptors. */
    method SetCharacteristicNotificationInternal(address: Address, characteristic: Characteristic, enabled: bool)
      modifies this`gattCalls
      ensures gattCalls == old(gattCalls) + ArmCalls(address, characteristic, enabled)
    {
      gattCalls := gattCalls + [SetNotification(address, characteristic.uuid, enabled)];
      ghost var calls0 := gattCalls;
      var descriptors := characteristic.descriptors;
      if |descriptors| > 0 {
        for i := 0 to |descriptors|
          invariant gattCalls == calls0 + DescriptorWrites(address, characteristic, enabled, descriptors[..i])
        {
          assert descriptors[..i + 1][..i] == descriptors[..i];
          gattCalls := gattCalls + [WriteDescriptor(address, characteristic.uuid, descriptors[i].uuid,
                                                    DescriptorValue(characteristic, enabled))];
        }
        assert descriptors[..|descriptors|] == descriptors;
      }
    }

    /** isContainUUID: searches the extra service UUIDs, skipping null entries. */
    method IsContainUuid(uuid: Uuid) returns (r: bool)
      ensures r == IsExtraService(options.extraServiceUuids, uuid)
    {
      var extras := options.extraServiceUuids;
      for i := 0 to |extras|
        invariant Some(uuid) !in extras[..i]
      {
        if extras[i].Some? && extras[i].value == uuid {
          return true;
        }
      }
      assert extras[..|extras|] == extras;
      return false;
    }

    /** One pass of the inner loop of displayGattServices: route and queue a characteristic. */
    method RouteCharacteristic(address: Address, c: Characteristic)
      requires Valid()
      modifies this`writeCharacteristicMap, this`readCharacteristicMap, this`notifyCharacteristics
      ensures Valid()
      ensures writeCharacteristicMap
              == if c.uuid == options.writeUuid then old(writeCharacteristicMap)[address := c] else old(writeCharacteristicMap)
      ensures readCharacteristicMap
              == if c.uuid == options.readUuid then old(readCharacteristicMap)[address := c] else old(readCharacteristicMap)
      ensures notifyCharacteristics
              == old(notifyCharacteristics) + (if c.CanNotify() then [c] else []) + (if c.CanIndicate() then [c] else [])
    {
      if c.uuid == options.writeUuid {
        writeCharacteristicMap := writeCharacteristicMap[address := c];
      }
      if c.uuid == options.readUuid {
        readCharacteristicMap := readCharacteristicMap[address := c];
      }
      if c.CanNotify() {
        notifyCharacteristics := notifyCharacteristics + [c];
      }
      if c.CanIndicate() {
        notifyCharacteristics := notifyCharacteristics + [c];
      }
    }

    /** The inner loop of displayGattServices over one examined service's characteristics. */
    method RouteCharacteristics(address: Address, cs: seq<Characteristic>)
      requires Valid()
      modifies this
      ensures Valid()
      ensures Snapshot() == WithFound(old(Snapshot()), address, ClassifyAll(options, FoundOf(old(Snapshot()), address), cs))
    {
      ghost var t0 := Snapshot();
      ghost var f0 := FoundOf(t0, address);
      WithFoundOfSelf(t0, address);
      for j := 0 to |cs|
        invariant Valid()
        invariant Snapshot() == WithFound(t0, address, ClassifyAll(options, f0, cs[..j]))
      {
        assert cs[..j + 1][..j] == cs[..j];
        ghost var f := ClassifyAll(options, f0, cs[..j]);
        WithFoundClassify(options, t0, address, f, cs[j]);
        assert ClassifyAll(options, f0, cs[..j + 1]) == Classify(options, f, cs[j]);
        RouteCharacteristic(address, cs[j]);
      }
      assert cs[..|cs|] == cs;
    }

    /**
      displayGattServices: an empty service list disconnects; otherwise every
      examined service routes its characteristics and fires onReady.
    */
    method DisplayGattServices(address: Address, services: seq<Service>)
      requires Valid()
      modifies this
      ensures Valid()
      ensures |services| == 0 ==>
                Snapshot() == if old(VerifyParams(address)) || !validAddress(address) then old(Snapshot())
                              else Disconnected(old(Snapshot()), address)
      ensures |services| > 0 ==> Snapshot() == Displayed(options, hasConnectCallback, old(Snapshot()), address, services)
    {
      if |services| == 0 {
        Disconnect(address);
        return;
      }
      ghost var t0 := Snapshot();
      WithFoundOfSelf(t0, address);
      assert Snapshot() == Displayed(options, hasConnectCallback, t0, address, services[..0]);
      for i := 0 to |services|
        invariant Valid()
        invariant Snapshot() == Displayed(options, hasConnectCallback, t0, address, services[..i])
      {
        DisplayedStep(options, hasConnectCallback, t0, address, services, i);
        var gattService := services[i];
        var selected := gattService.uuid == options.serviceUuid;
        if !selected {
          selected := IsContainUuid(gattService.uuid);
        }
        if selected {
          RouteCharacteristics(address, gattService.characteristics);
          if hasConnectCallback {
            events := events + [Ready(address)];
          }
        }
      }
      assert services[..|services|] == services;
    }

    /**
      onConnectionStateChange: the address's timeouts are cancelled first. A
      successful CONNECTED appends the address and starts discovery when a
      link is recorded; a successful DISCONNECTED reports and closes; a
      failure status closes and reports the exception.
    */
    method OnConnectionStateChange(address: Address, status: int, newState: int)
      requires Valid()
      modifies this
      ensures Valid()
      ensures var t := old(Snapshot()).(timeouts := old(pendingTimeouts)[address := 0]);
              var cb := hasConnectCallback;
              && (status == GATT_SUCCESS && newState == STATE_CONNECTED ==>
                    Snapshot() == t.(connected := t.connected + [address],
                                     events := t.events + (if cb then [ConnectionChanged(address, Connected)] else []),
                                     calls := t.calls + (if address in t.links then [DiscoverServices(address)] else [])))
              && (status == GATT_SUCCESS && newState == STATE_DISCONNECTED ==>
                    Snapshot() == Closed(t.(events := t.events + (if cb then [ConnectionChanged(address, BleStatus.Disconnect)] else [])),
                                         address))
              && (status == GATT_SUCCESS && newState != STATE_CONNECTED && newState != STATE_DISCONNECTED ==>
                    Snapshot() == t)
              && (status != GATT_SUCCESS ==>
                    Snapshot() == Closed(t, address).(events := t.events +
                      (if cb then [ConnectException(address), ConnectionChanged(address, BleStatus.Disconnect)] else [])))
    {
      CancelTimeout(address);
      if status == GATT_SUCCESS {
        if newState == STATE_CONNECTED {
          connectedAddressList := connectedAddressList + [address];
          if hasConnectCallback {
            events := events + [ConnectionChanged(address, Connected)];
          }
          if address in gattHashMap {
            gattCalls := gattCalls + [DiscoverServices(address)];
          }
        } else if newState == STATE_DISCONNECTED {
          if hasConnectCallback {
            events := events + [ConnectionChanged(address, BleStatus.Disconnect)];
          }
          Close(address);
        }
      } else {
        Close(address);
        if hasConnectCallback {
          events := events + [ConnectException(address), ConnectionChanged(address, BleStatus.Disconnect)];
        }
      }
    }

    /**
      onServicesDiscovered: on success reports discovery, empties the notify
      queue and resets its cursor, then examines the services the link
      reports (nothing when no link is recorded).
    */
    method OnServicesDiscovered(address: Address, status: int, services: seq<Service>)
      requires Valid()
      modifies this
      ensures Valid()
      ensures status != GATT_SUCCESS ==> Snapshot() == old(Snapshot())
      ensures status == GATT_SUCCESS ==>
                var t := old(Snapshot()).(
                  events := old(events) + (if hasConnectCallback then [ServicesDiscovered(address)] else []),
                  queue := [], cursor := 0);
                && (address !in t.links ==> Snapshot() == t)
                && (address in t.links && |services| == 0 ==>
                      Snapshot() == if !adapterPresent || !validAddress(address) then t else Disconnected(t, address))
                && (address in t.links && |services| > 0 ==>
                      Snapshot() == Displayed(options, hasConnectCallback, t, address, services))
    {
      if status == GATT_SUCCESS {
        if hasConnectCallback {
          events := events + [ServicesDiscovered(address)];
        }
        notifyCharacteristics := [];
        notifyIndex := 0;
        if address in gattHashMap {
          DisplayGattServices(address, services);
        }
      }
    }

    /**
      onDescriptorWrite: on success the sequencer arms the next queued entry
      while one remains; otherwise it reports completion by the value the
      descriptor holds. A failure status does nothing.
    */
    method OnDescriptorWrite(address: Address, status: int, value: Option<seq<byte>>)
      requires Valid()
      modifies this
      ensures Valid()
      ensures status != GATT_SUCCESS ==> Snapshot() == old(Snapshot())
      ensures status == GATT_SUCCESS && old(notifyIndex < |notifyCharacteristics|) ==>
                Snapshot() == if old(VerifyParams(address)) then old(Snapshot()) else Armed(old(Snapshot()), address, true)
      ensures status == GATT_SUCCESS && old(notifyIndex >= |notifyCharacteristics|) ==>
                Snapshot() == old(Snapshot()).(events := old(events) +
                  (if hasNotifyCallback then NotifyReport(address, value) else []))
    {
      if status == GATT_SUCCESS {
        if |notifyCharacteristics| > 0 && notifyIndex < |notifyCharacteristics| {
          SetCharacteristicNotification(address, true);
        } else if hasNotifyCallback {
          if value == Some(ENABLE_NOTIFICATION_VALUE) || value == Some(ENABLE_INDICATION_VALUE) {
            events := events + [NotifySuccess(address)];
          } else if value == Some(DISABLE_NOTIFICATION_VALUE) {
            events := events + [NotifyCanceled(address)];
          }
        }
      }
    }
  }
}
