/**
  Rproxy: the registry that maps a request category (a class) to the handler
  instance named by its @Implement annotation. Reflection is modelled by
  data: a class carries its declared annotations, and whether
  `newInstance()` succeeds for an implementation class is an oracle.
*/
module RequestProxy {
  import opened Wrappers

  /** A class, by name. */
  type ClassKey = string

  datatype Annotation = Implement(value: ClassKey) | OtherAnnotation(name: string)

  /** A class handed to init, with its declared annotations. */
  datatype RequestClass = RequestClass(key: ClassKey, annotations: seq<Annotation>)

  /**
    A handler instance: its class, and the position among init's arguments
    of the class whose annotation created it (two instances of one class are
    told apart by it).
  */
  datatype Handler = Handler(implementation: ClassKey, origin: nat)

  /** cls.isAnnotationPresent(Implement.class) */
  predicate HasImplement(c: RequestClass)
  {
    exists j :: 0 <= j < |c.annotations| && c.annotations[j].Implement?
  }

  /** Some @Implement annotation of `c` names a class that can be instantiated. */
  predicate Registers(c: RequestClass, instantiable: ClassKey -> bool)
  {
    exists ann :: ann in c.annotations && ann.Implement? && instantiable(ann.value)
  }

  /** The inner loop over one class's annotations: each instantiable @Implement puts under the class. */
  function PutAnnotations(m: map<ClassKey, Handler>, key: ClassKey, origin: nat, anns: seq<Annotation>,
                          instantiable: ClassKey -> bool): map<ClassKey, Handler>
  {
    if anns == [] then m
    else
      var m' := PutAnnotations(m, key, origin, anns[..|anns| - 1], instantiable);
      var ann := anns[|anns| - 1];
      if ann.Implement? && instantiable(ann.value) then m'[key := Handler(ann.value, origin)] else m'
  }

  /** The registry init builds from `clss`, starting from a fresh map. */
  function Registry(clss: seq<RequestClass>, instantiable: ClassKey -> bool): map<ClassKey, Handler>
  {
    if clss == [] then map[]
    else
      var n := |clss| - 1;
      var m := Registry(clss[..n], instantiable);
      if HasImplement(clss[n]) then PutAnnotations(m, clss[n].key, n, clss[n].annotations, instantiable) else m
  }

  /**
    One class's annotations touch only its own key, and register it exactly
    when one of them succeeds, with an instance of the last annotation that
    succeeds.
  */
  lemma {:induction false} PutAnnotationsEffect(m: map<ClassKey, Handler>, key: ClassKey, origin: nat,
                                                anns: seq<Annotation>, instantiable: ClassKey -> bool)
    ensures var r := PutAnnotations(m, key, origin, anns, instantiable);
            && (forall k :: k != key ==> (k in r <==> k in m) && (k in m ==> r[k] == m[k]))
            && ((exists ann :: ann in anns && ann.Implement? && instantiable(ann.value)) ==>
                  key in r && r[key].origin == origin
                  && Implement(r[key].implementation) in anns && instantiable(r[key].implementation))
            && (!(exists ann :: ann in anns && ann.Implement? && instantiable(ann.value)) ==>
                  (key in r <==> key in m) && (key in m ==> r[key] == m[key]))
  {
    if anns != [] {
      var init := anns[..|anns| - 1];
      var last := anns[|anns| - 1];
      PutAnnotationsEffect(m, key, origin, init, instantiable);
      assert anns == init + [last];
      assert forall ann :: ann in anns <==> ann in init || ann == last;
    }
  }

  /**
    Only annotated classes whose instantiation succeeds are registered, each
    under its own key; a class whose instantiations all fail is skipped
    without stopping the others.
  */
  lemma {:induction false} RegistryMembership(clss: seq<RequestClass>, instantiable: ClassKey -> bool, key: ClassKey)
    ensures key in Registry(clss, instantiable)
            <==> exists i :: 0 <= i < |clss| && clss[i].key == key && Registers(clss[i], instantiable)
  {
    if clss != [] {
      var n := |clss| - 1;
      var c := clss[n];
      RegistryMembership(clss[..n], instantiable, key);
      PutAnnotationsEffect(Registry(clss[..n], instantiable), c.key, n, c.annotations, instantiable);
      if Registers(c, instantiable) {
        var ann :| ann in c.annotations && ann.Implement? && instantiable(ann.value);
        assert HasImplement(c) by {
          var j :| 0 <= j < |c.annotations| && c.annotations[j] == ann;
        }
      }
      if exists i :: 0 <= i < n && clss[..n][i].key == key && Registers(clss[..n][i], instantiable) {
        var i :| 0 <= i < n && clss[..n][i].key == key && Registers(clss[..n][i], instantiable);
        assert clss[i] == clss[..n][i];
      }
      if exists i :: 0 <= i < |clss| && clss[i].key == key && Registers(clss[i], instantiable) {
        var i :| 0 <= i < |clss| && clss[i].key == key && Registers(clss[i], instantiable);
        if i < n {
          assert clss[..n][i] == clss[i];
        }
      }
    }
  }

  /**
    A registered key holds an instance created for the last class with that
    key whose instantiation succeeded: `put` overwrites earlier entries, and
    a later failure does not.
  */
  lemma {:induction false} RegistryLatestWins(clss: seq<RequestClass>, instantiable: ClassKey -> bool, key: ClassKey)
    requires key in Registry(clss, instantiable)
    ensures var h := Registry(clss, instantiable)[key];
            && h.origin < |clss| && clss[h.origin].key == key
            && Implement(h.implementation) in clss[h.origin].annotations && instantiable(h.implementation)
            && forall j :: h.origin < j < |clss| && clss[j].key == key ==> !Registers(clss[j], instantiable)
  {
    var n := |clss| - 1;
    var c := clss[n];
    var m := Registry(clss[..n], instantiable);
    PutAnnotationsEffect(m, c.key, n, c.annotations, instantiable);
    var r := Registry(clss, instantiable);
    if c.key == key && Registers(c, instantiable) {
      assert HasImplement(c) by {
        var ann :| ann in c.annotations && ann.Implement? && instantiable(ann.value);
        var j :| 0 <= j < |c.annotations| && c.annotations[j] == ann;
      }
      assert r[key].origin == n;
    } else {
      assert key in m && r[key] == m[key];
      RegistryLatestWins(clss[..n], instantiable, key);
      var h := m[key];
      assert clss[h.origin] == clss[..n][h.origin];
      forall j | h.origin < j < |clss| && clss[j].key == key
        ensures !Registers(clss[j], instantiable)
      {
        if j < n {
          assert clss[j] == clss[..n][j];
        }
      }
    }
  }

  /** The handler registry; the static fields of the source are the fields of one instance. */
  class Rproxy {
    var requestObjs: map<ClassKey, Handler>

    constructor ()
      ensures requestObjs == map[]
    {
      requestObjs := map[];
    }

    /** init(clss...): a fresh map, then one put per instantiable @Implement annotation, in order. */
    method Init(clss: seq<RequestClass>, instantiable: ClassKey -> bool)
      modifies this
      ensures requestObjs == Registry(clss, instantiable)
    {
      requestObjs := map[];
      for i := 0 to |clss|
        invariant requestObjs == Registry(clss[..i], instantiable)
      {
        assert clss[..i + 1][..i] == clss[..i];
        var cls := clss[i];
        if HasImplement(cls) {
          ghost var m0 := requestObjs;
          var anns := cls.annotations;
          for j := 0 to |anns|
            invariant requestObjs == PutAnnotations(m0, cls.key, i, anns[..j], instantiable)
          {
            assert anns[..j + 1][..j] == anns[..j];
            var ann := anns[j];
            if ann.Implement? {
              if instantiable(ann.value) {
                requestObjs := requestObjs[cls.key := Handler(ann.value, i)];
              }
            }
          }
          assert anns[..|anns|] == anns;
        }
      }
      assert clss[..|clss|] == clss;
    }

    /** getRequest(cls): the registered handler, or nothing (null). */
    method GetRequest(key: ClassKey) returns (r: Option<Handler>)
      ensures r.Some? <==> key in requestObjs
      ensures r.Some? ==> r.value == requestObjs[key]
    {
      if key in requestObjs {
        return Some(requestObjs[key]);
      }
      return None;
    }

    /** release(): empties the registry. */
    method Release()
      modifies this
      ensures requestObjs == map[]
    {
      requestObjs := map[];
    }
  }
}
