/**
  LeDeviceListAdapter: the ordered list of scanned devices behind the demo's
  list view. addDevice de-duplicates by address; addDevices de-duplicates by
  object identity (ArrayList.contains with BleDevice's inherited equals).
*/
module DeviceList {
  import opened Wrappers

  /** A scanned device; only its address matters to the list. */
  class BleDevice {
    const address: string

    constructor (address: string)
      ensures this.address == address
    {
      this.address := address;
    }
  }

  /** Some listed device has the address. */
  predicate HasAddress(s: seq<BleDevice>, address: string)
  {
    exists i :: 0 <= i < |s| && s[i].address == address
  }

  /** No two listed devices share an address. */
  predicate DistinctAddresses(s: seq<BleDevice>)
  {
    forall i, j :: 0 <= i < j < |s| ==> s[i].address != s[j].address
  }

  /** No device object is listed twice. */
  predicate DistinctObjects(s: seq<BleDevice>)
  {
    forall i, j :: 0 <= i < j < |s| ==> s[i] != s[j]
  }

  /** addDevice: append unless a device with the same address is listed. */
  function AddedByAddress(s: seq<BleDevice>, d: BleDevice): seq<BleDevice>
  {
    if HasAddress(s, d.address) then s else s + [d]
  }

  /** addDevices: append each device not already listed (as an object), in order. */
  function AppendNew(s: seq<BleDevice>, ds: seq<BleDevice>): seq<BleDevice>
  {
    if ds == [] then s
    else
      var r := AppendNew(s, ds[..|ds| - 1]);
      var d := ds[|ds| - 1];
      if d in r then r else r + [d]
  }

  /**
    addDevice keeps the list as a prefix, adds at most the one device, makes
    the address listed, and keeps addresses distinct.
  */
  lemma AddedByAddressEffect(s: seq<BleDevice>, d: BleDevice)
    ensures var r := AddedByAddress(s, d);
            && s <= r && |r| <= |s| + 1
            && HasAddress(r, d.address)
            && (forall a :: HasAddress(r, a) <==> HasAddress(s, a) || a == d.address)
            && (DistinctAddresses(s) ==> DistinctAddresses(r))
  {
    var r := AddedByAddress(s, d);
    if !HasAddress(s, d.address) {
      assert r[|s|] == d;
      forall a | HasAddress(r, a)
        ensures HasAddress(s, a) || a == d.address
      {
        var i :| 0 <= i < |r| && r[i].address == a;
        if i < |s| {
          assert s[i] == r[i];
        }
      }
      forall a | HasAddress(s, a)
        ensures HasAddress(r, a)
      {
        var i :| 0 <= i < |s| && s[i].address == a;
        assert r[i] == s[i];
      }
    }
  }

  /**
    addDevices keeps the list as a prefix, lists every given device, adds
    nothing else, and never lists one object twice.
  */
  lemma {:induction false} AppendNewEffect(s: seq<BleDevice>, ds: seq<BleDevice>)
    ensures var r := AppendNew(s, ds);
            && s <= r
            && (forall d :: d in r <==> d in s || d in ds)
            && (DistinctObjects(s) ==> DistinctObjects(r))
  {
    if ds != [] {
      var init := ds[..|ds| - 1];
      var d := ds[|ds| - 1];
      AppendNewEffect(s, init);
      assert ds == init + [d];
      var p := AppendNew(s, init);
      if d !in p {
        assert forall x :: x in p + [d] <==> x in p || x == d;
      }
    }
  }

  /**
    Unlike addDevice, addDevices compares objects: a second object with a
    listed address is still appended.
  */
  lemma AppendNewKeepsSameAddress(d1: BleDevice, d2: BleDevice)
    requires d1 != d2 && d1.address == d2.address
    ensures AppendNew([d1], [d2]) == [d1, d2]
    ensures !DistinctAddresses(AppendNew([d1], [d2]))
  {
    assert [d2][..0] == [];
    assert AppendNew([d1], []) == [d1];
    assert d2 !in [d1];
    var r := AppendNew([d1], [d2]);
    assert r == [d1, d2];
    assert r[0].address == r[1].address;
  }

  class LeDeviceListAdapter {
    var mLeDevices: seq<BleDevice>

    constructor ()
      ensures mLeDevices == []
    {
      mLeDevices := [];
    }

    /** addDevice: scans for the address, appends when none matches. */
    method AddDevice(device: BleDevice)
      modifies this
      ensures mLeDevices == AddedByAddress(old(mLeDevices), device)
    {
      for i := 0 to |mLeDevices|
        invariant forall j :: 0 <= j < i ==> mLeDevices[j].address != device.address
      {
        if mLeDevices[i].address == device.address {
          return;
        }
      }
      mLeDevices := mLeDevices + [device];
    }

    /** getDevices: the list itself. */
    method GetDevices() returns (r: seq<BleDevice>)
      ensures r == mLeDevices
    {
      r := mLeDevices;
    }

    /** addDevices: appends each device the list does not contain. */
    method AddDevices(devices: seq<BleDevice>)
      modifies this
      ensures mLeDevices == AppendNew(old(mLeDevices), devices)
    {
      ghost var s0 := mLeDevices;
      for i := 0 to |devices|
        invariant mLeDevices == AppendNew(s0, devices[..i])
      {
        assert devices[..i + 1][..i] == devices[..i];
        var device := devices[i];
        if device !in mLeDevices {
          mLeDevices := mLeDevices + [device];
        }
      }
      assert devices[..|devices|] == devices;
    }

    /** getDevice(position): the device at the position; None stands for the IndexOutOfBoundsException. */
    method GetDevice(position: int) returns (d: Option<BleDevice>)
      ensures d.Some? <==> 0 <= position < |mLeDevices|
      ensures d.Some? ==> d.value == mLeDevices[position]
    {
      if 0 <= position < |mLeDevices| {
        return Some(mLeDevices[position]);
      }
      return None;
    }

    method Clear()
      modifies this
      ensures mLeDevices == []
    {
      mLeDevices := [];
    }

    method GetCount() returns (n: int)
      ensures n == |mLeDevices|
    {
      n := |mLeDevices|;
    }

    /** getItem(i): the same lookup as getDevice. */
    method GetItem(i: int) returns (d: Option<BleDevice>)
      ensures d.Some? <==> 0 <= i < |mLeDevices|
      ensures d.Some? ==> d.value == mLeDevices[i]
    {
      d := GetDevice(i);
    }

    /** getItemId(i): the position itself. */
    method GetItemId(i: int) returns (id: int)
      ensures id == i
    {
      id := i;
    }
  }
}
