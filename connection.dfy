/**
  The per-address tables BleRequestImpl keeps, the callbacks it reports, and
  the pure transitions that close links: close(address), which forgets one
  address, and close(), which forgets them all.
*/
module Connection {
  import opened Wrappers
  import opened Gatt

  /** BleStates.BleStatus values passed to onConnectionChanged. */
  datatype BleStatus = Connecting | Connected | Disconnect

  /** Callbacks of the connect and notify wrappers, tagged with the device address. */
  datatype BleEvent =
    | ConnectionChanged(address: Address, status: BleStatus)
    | ConnectException(address: Address)
    | ConnectTimeOut(address: Address)
    | ServicesDiscovered(address: Address)
    | Ready(address: Address)
    | NotifySuccess(address: Address)
    | NotifyCanceled(address: Address)

  /**
    Everything BleRequestImpl changes: the link table, the connected list,
    the write and read characteristic tables, the pending connect timeouts
    (a Handler may hold several for one address), the notify queue and its
    cursor, the callbacks fired and the calls issued to the stack.
  */
  datatype Tables = Tables(
    links: map<Address, LinkId>,
    connected: seq<Address>,
    writeChars: map<Address, Characteristic>,
    readChars: map<Address, Characteristic>,
    timeouts: multiset<Address>,
    queue: seq<Characteristic>,
    cursor: nat,
    events: seq<BleEvent>,
    calls: seq<GattCall>)

  function Lookup<K, V>(m: map<K, V>, k: K): (r: Option<V>)
    ensures r.Some? <==> k in m
    ensures r.Some? ==> r.value == m[k]
  {
    if k in m then Some(m[k]) else None
  }

  /** Stores `o` under `k`, or removes `k` when `o` is None. */
  function Put<K(!new), V>(m: map<K, V>, k: K, o: Option<V>): (r: map<K, V>)
    ensures Lookup(r, k) == o
    ensures forall j :: j != k ==> Lookup(r, j) == Lookup(m, j)
  {
    match o
    case None => m - {k}
    case Some(v) => m[k := v]
  }

  lemma PutLookup<K(!new), V>(m: map<K, V>, k: K)
    ensures Put(m, k, Lookup(m, k)) == m
  {
  }

  lemma PutPut<K(!new), V>(m: map<K, V>, k: K, o: Option<V>, o': Option<V>)
    ensures Put(Put(m, k, o), k, o') == Put(m, k, o')
  {
  }

  /** ArrayList.remove(Object): drops the first occurrence of `x`, if any. */
  function RemoveFirst<T(==)>(s: seq<T>, x: T): (r: seq<T>)
    ensures x !in s ==> r == s
    ensures x in s ==> |r| == |s| - 1
  {
    if s == [] then []
    else if s[0] == x then s[1..]
    else [s[0]] + RemoveFirst(s[1..], x)
  }

  /** Removing the first occurrence removes exactly one copy of `x` and nothing else. */
  lemma {:induction false} RemoveFirstMultiset<T>(s: seq<T>, x: T)
    ensures multiset(RemoveFirst(s, x)) == multiset(s) - multiset{x}
  {
    if s != [] {
      assert s == [s[0]] + s[1..];
      if s[0] != x {
        RemoveFirstMultiset(s[1..], x);
      }
    }
  }

  /** Position of the first occurrence of `x`. */
  function FirstIndex<T(==)>(s: seq<T>, x: T): (i: nat)
    requires x in s
    ensures i < |s| && s[i] == x && x !in s[..i]
  {
    if s[0] == x then 0
    else
      var j := FirstIndex(s[1..], x);
      assert s[..j + 1] == [s[0]] + s[1..][..j];
      j + 1
  }

  /** The first occurrence is the one removed; the other elements keep their relative order. */
  lemma {:induction false} RemoveFirstOrder<T>(s: seq<T>, x: T)
    requires x in s
    ensures var i := FirstIndex(s, x); RemoveFirst(s, x) == s[..i] + s[i + 1..]
  {
    if s[0] != x {
      var t := s[1..];
      RemoveFirstOrder(t, x);
      var j := FirstIndex(t, x);
      ConsSplit(s, j);
    }
  }

  lemma ConsSplit<T>(s: seq<T>, j: nat)
    requires j + 1 < |s|
    ensures [s[0]] + (s[1..][..j] + s[1..][j + 1..]) == s[..j + 1] + s[j + 2..]
  {
    assert s[..j + 1] == [s[0]] + s[1..][..j];
    assert s[j + 2..] == s[1..][j + 1..];
  }

  /**
    An address the connected list holds twice is still listed after one
    close: close removes a single entry.
  */
  lemma DuplicateSurvivesClose<T>(s: seq<T>, x: T)
    requires multiset(s)[x] >= 2
    ensures x in RemoveFirst(s, x)
  {
    RemoveFirstMultiset(s, x);
    assert multiset(RemoveFirst(s, x))[x] == multiset(s)[x] - 1;
  }

  /** close(address): drop the address from the connected list and close and forget its link. */
  function Closed(t: Tables, a: Address): Tables
  {
    t.(connected := RemoveFirst(t.connected, a),
       links := t.links - {a},
       calls := t.calls + (if a in t.links then [GattClose(a)] else []))
  }

  /**
    close(address) leaves every other address's link and connected entries
    as they were, forgets this address's link (closing it if one was
    recorded), and touches nothing else.
  */
  lemma ClosedIsolation(t: Tables, a: Address)
    ensures var r := Closed(t, a);
            && a !in r.links
            && (forall b :: b != a ==> Lookup(r.links, b) == Lookup(t.links, b))
            && multiset(r.connected) == multiset(t.connected) - multiset{a}
            && (forall b :: b != a ==> multiset(r.connected)[b] == multiset(t.connected)[b])
            && r.calls == t.calls + (if a in t.links then [GattClose(a)] else [])
            && r.(links := t.links, connected := t.connected, calls := t.calls) == t
  {
    RemoveFirstMultiset(t.connected, a);
  }

  /** The link closes close() issues, walking the connected list in order. */
  function CloseCalls(addrs: seq<Address>, links: map<Address, LinkId>): seq<GattCall>
  {
    if addrs == [] then []
    else
      var a := addrs[|addrs| - 1];
      CloseCalls(addrs[..|addrs| - 1], links) + (if a in links then [GattClose(a)] else [])
  }

  lemma CloseCallsSnoc(addrs: seq<Address>, links: map<Address, LinkId>, i: nat)
    requires i < |addrs|
    ensures CloseCalls(addrs[..i + 1], links)
            == CloseCalls(addrs[..i], links) + (if addrs[i] in links then [GattClose(addrs[i])] else [])
  {
    assert addrs[..i + 1][..i] == addrs[..i];
  }

  /** close() closes exactly the listed addresses that have a link, and only those. */
  lemma {:induction false} CloseCallsExact(addrs: seq<Address>, links: map<Address, LinkId>)
    ensures forall c :: c in CloseCalls(addrs, links) <==> c.GattClose? && c.address in addrs && c.address in links
  {
    if addrs != [] {
      var init := addrs[..|addrs| - 1];
      CloseCallsExact(init, links);
      assert addrs == init + [addrs[|addrs| - 1]];
    }
  }

  /** close(): close every listed link, then empty the link table and the connected list. */
  function ClosedAll(t: Tables): Tables
  {
    t.(links := map[], connected := [], calls := t.calls + CloseCalls(t.connected, t.links))
  }

  /**
    disconnect(address) once the address is verified: disconnect the link,
    empty the notify queue, and forget the address's write and read
    characteristics.
  */
  function Disconnected(t: Tables, a: Address): Tables
  {
    t.(calls := t.calls + [GattDisconnect(a)],
       cursor := 0,
       queue := [],
       writeChars := t.writeChars - {a},
       readChars := t.readChars - {a})
  }
}
