/**
 * The C pickle cache (src/persistent/cPickleCache.c): one `data` dictionary
 * from oids to persistent objects and classes, the cache head whose ring
 * holds the non-ghost objects from least to most recently used, the class
 * count, and the garbage collector `scan_gc_items`, which walks the ring
 * with a marker node and a per-step placeholder.
 *
 * The objects are the `CPersistent` objects of cpersistence.dfy, with
 * their own `cache` fields; the cache's invariant `Valid` ties the two
 * together: every stored object points back to this cache's head and is in
 * the ring exactly when it is not a ghost, and every ring node is a stored
 * object.  Classes are values (`PickleCache.PClass`).
 */
module CPickleCache {
  import opened Common
  import LinkedRing
  import opened CPersistence
  import P = Persistence
  import PC = PickleCache

  /** What a caller hands the cache: a persistent instance, a persistent class, or anything else. */
  datatype Value = Inst(p: CPersistent) | Cls(c: PC.PClass) | NotPersistent

  /** An entry of `data`. */
  datatype Stored = StoredObj(p: CPersistent) | StoredClass(c: PC.PClass)

  function ValueObjects(v: Value): set<CPersistent>
  {
    if v.Inst? then {v.p} else {}
  }

  function StoredOf(v: Value): Stored
    requires !v.NotPersistent?
  {
    if v.Inst? then StoredObj(v.p) else StoredClass(v.c)
  }

  /** The keys of `data` that hold classes: what `klass_count` counts. */
  function ClassKeys(d: map<Oid, Stored>): set<Oid>
  {
    set k | k in d && d[k].StoredClass?
  }

  /**
   * The key of a class `_invalidate` cannot invalidate: one that is also
   * referenced outside the cache (so it is not simply dropped) and that
   * has no `_p_invalidate`.
   */
  predicate Refused(d: map<Oid, Stored>, key: Oid, referenced: set<Oid>)
  {
    key in d && d[key].StoredClass? && key in referenced && !d[key].c.hasInvalidate
  }

  /** The key of a class that only the cache references: `_invalidate` removes it. */
  predicate Drops(d: map<Oid, Stored>, key: Oid, referenced: set<Oid>)
  {
    key in d && d[key].StoredClass? && key !in referenced
  }

  /** The class keys among `keys` that `_invalidate` removes. */
  function DroppedOf(d: map<Oid, Stored>, keys: seq<Oid>, referenced: set<Oid>): set<Oid>
  {
    set k | k in keys && Drops(d, k, referenced)
  }

  /** The ring nodes of the objects stored under `keys`. */
  function NodesOf(d: map<Oid, Stored>, keys: seq<Oid>): set<CNode>
  {
    set k | k in keys && k in d && d[k].StoredObj? :: Of(d[k].p)
  }

  /** The position of the first refused key, or the length when there is none. */
  function FirstRefused(d: map<Oid, Stored>, keys: seq<Oid>, referenced: set<Oid>): (n: nat)
    ensures n <= |keys| && (n < |keys| ==> Refused(d, keys[n], referenced))
    ensures forall j | 0 <= j < n :: !Refused(d, keys[j], referenced)
  {
    if keys == [] then 0
    else if Refused(d, keys[0], referenced) then 0
    else 1 + FirstRefused(d, keys[1..], referenced)
  }

  /**
   * What `cc_invalidate` is given: a dict (its keys, in iteration order), a
   * bytes oid, a sequence of oids (`mutable` when it allows its slices to be
   * deleted, as a list does and a tuple does not), or an object without a
   * length.
   */
  datatype Invalidation = KeysOf(keys: seq<Oid>) | OneOid(oid: Oid) | OidSequence(oids: seq<Oid>, mutable: bool) | Unsized

  /** The oids `cc_invalidate` visits, in order: a sequence is walked from its last element to its first. */
  function VisitOrder(inv: Invalidation): (r: seq<Oid>)
    ensures inv.OidSequence? ==> |r| == |inv.oids| && forall x | 0 <= x < |r| :: r[x] == inv.oids[|r| - 1 - x]
  {
    match inv
    case KeysOf(keys) => keys
    case OneOid(oid) => [oid]
    case OidSequence(oids, _) => Backwards(oids)
    case Unsized => []
  }

  function Backwards<T>(s: seq<T>): (r: seq<T>)
    ensures |r| == |s| && forall x | 0 <= x < |r| :: r[x] == s[|s| - 1 - x]
  {
    if s == [] then [] else [s[|s| - 1]] + Backwards(s[..|s| - 1])
  }

  /**
   * The argument once `cc_invalidate` has invalidated every key: a dict is
   * cleared and a mutable sequence emptied; `PySequence_DelSlice` fails on
   * an immutable one, which is left as it was.
   */
  function Emptied(inv: Invalidation): Invalidation
  {
    match inv
    case KeysOf(_) => KeysOf([])
    case OidSequence(oids, mutable) => if mutable then OidSequence([], mutable) else inv
    case _ => inv
  }

  /**
   * `PySequence_DelSlice`'s failure on an immutable sequence is ignored, so
   * `cc_invalidate` returns None with an exception set, which the
   * interpreter turns into a SystemError.
   */
  predicate DelSliceFails(inv: Invalidation)
  {
    inv.OidSequence? && !inv.mutable
  }

  /** One key further: how `_invalidate` of `keys[i]` on `di` continues what the first `i` keys did to `d0`. */
  lemma VisitStep(d0: map<Oid, Stored>, di: map<Oid, Stored>, O0: seq<CNode>, keys: seq<Oid>, i: nat, referenced: set<Oid>)
    requires i < |keys| && di == d0 - DroppedOf(d0, keys[..i], referenced)
    ensures Refused(di, keys[i], referenced) == Refused(d0, keys[i], referenced)
    ensures NodesOf(di, [keys[i]]) == NodesOf(d0, [keys[i]])
    ensures (if Drops(di, keys[i], referenced) then di - {keys[i]} else di) == d0 - DroppedOf(d0, keys[..i + 1], referenced)
    ensures Filter(Filter(O0, NodesOf(d0, keys[..i])), NodesOf(di, [keys[i]])) == Filter(O0, NodesOf(d0, keys[..i + 1]))
    ensures keys[..i + 1] == keys[..i] + [keys[i]]
  {
    var key := keys[i];
    assert keys[..i + 1] == keys[..i] + [key];
    assert DroppedOf(d0, keys[..i + 1], referenced) == DroppedOf(d0, keys[..i], referenced) + (if Drops(d0, key, referenced) then {key} else {});
    assert NodesOf(d0, keys[..i + 1]) == NodesOf(d0, keys[..i]) + NodesOf(d0, [key]);
    var f := Filter(O0, NodesOf(d0, keys[..i]));
    if key in d0 && d0[key].StoredObj? {
      assert NodesOf(d0, [key]) == {Of(d0[key].p)};
      FilterMore(O0, NodesOf(d0, keys[..i]), Of(d0[key].p));
    } else {
      assert NodesOf(d0, [key]) == {};
      FilterUntouched(f, {});
      assert NodesOf(d0, keys[..i + 1]) == NodesOf(d0, keys[..i]);
    }
  }

  /** `unsigned int` conversion of `PyArg_ParseTuple`'s `I` format: no overflow check, the value is taken modulo 2^32. */
  function AsUnsigned(n: int): (r: nat)
    ensures r < 0x1_0000_0000 && (0 <= n < 0x1_0000_0000 ==> r == n)
  {
    n % 0x1_0000_0000
  }

  class CCache {
    /** `ring_home`, `non_ghost_count` and `total_estimated_size`. */
    const head: CacheHead
    const jar: Jar
    var klassCount: int
    var data: map<Oid, Stored>
    var cacheSize: int
    var cacheSizeBytes: int
    var ringLock: bool
    var drainResistance: int

    /** The stored objects. */
    ghost function Objects(): set<CPersistent>
      reads this`data
    {
      ObjectsIn(data)
    }

    /** The object stored under `key`, if any. */
    function EntryObjects(key: Oid): set<CPersistent>
      reads this`data
    {
      if key in data && data[key].StoredObj? then {data[key].p} else {}
    }

    /** What a stored object keeps of its entry, apart from ring membership: its oid, a jar, and this cache. */
    ghost predicate Attached(k: Oid, p: CPersistent)
      reads p
    {
      p.oid == Some(k) && p.jar.Some? && p.cache == Some(head)
    }

    /** An entry as the cache keeps it; a stored object is in the ring exactly when it is not a ghost. */
    ghost predicate EntryOK(k: Oid, s: Stored, order: seq<CNode>)
      reads if s.StoredObj? then {s.p} else {}
    {
      match s
      case StoredObj(p) => Attached(k, p) && (Of(p) in order <==> p.state != Ghost)
      case StoredClass(c) => c.oid == Some(k)
    }

    /** A ring node is an object of `d`, found under its own oid. */
    ghost predicate Listed(d: map<Oid, Stored>, n: CNode)
      reads if n.Of? then {n.obj} else {}
    {
      n.Of? && n.obj.oid.Some? && n.obj.oid.value in d && d[n.obj.oid.value] == StoredObj(n.obj)
    }

    /**
     * The cache invariant for the dictionary `d` and class count `kc`: the
     * head's ring is well formed, every entry is as the cache keeps it,
     * every ring node is an entry, the non-ghost count is the ring's length
     * and the class count the number of classes.
     */
    ghost predicate Sound(d: map<Oid, Stored>, kc: int)
      reads head, head.ring, ObjectsIn(d)
    {
      && head.Valid()
      && (forall k | k in d :: EntryOK(k, d[k], head.ring.Order()))
      && (forall n | n in head.ring.Order() :: n.Of? && n.obj in ObjectsIn(d) && Listed(d, n))
      && head.nonGhostCount == |head.ring.Order()|
      && kc == |ClassKeys(d)|
    }

    ghost predicate Valid()
      reads this`data, this`klassCount, head, head.ring, Objects()
    {
      Sound(data, klassCount)
    }

    /** A stored object is in `Objects()`, and a ring node's object is stored. */
    lemma ObjectOf(k: Oid)
      requires k in data && data[k].StoredObj?
      ensures data[k].p in Objects()
    {
    }

    /** An object that does not point at this cache is not stored and not in the ring. */
    lemma Unattached(p: CPersistent)
      requires Valid() && p.cache != Some(head)
      ensures p !in Objects() && Of(p) !in head.ring.Order()
    {
    }

    /** `cc_init`: an empty dictionary and ring, the given sizes, no drain resistance. */
    constructor (jar: Jar, cacheSize: int, cacheSizeBytes: int)
      ensures Valid() && this.jar == jar && data == map[] && klassCount == 0 && !ringLock
      ensures this.cacheSize == cacheSize && this.cacheSizeBytes == cacheSizeBytes && drainResistance == 0
      ensures head.View() == Head(0, 0, []) && fresh(head) && fresh(head.ring)
    {
      this.jar := jar;
      this.cacheSize := cacheSize;
      this.cacheSizeBytes := cacheSizeBytes;
      klassCount := 0;
      drainResistance := 0;
      ringLock := false;
      data := map[];
      head := new CacheHead();
    }

    // ------------------------------------------------------------ adding and removing entries

    /**
     * `cc_add_item`'s checks, in order: a persistent value, a bytes oid
     * (a missing `_p_oid` reads as None), the oid equal to the key, a jar;
     * an entry already under the key must be this very value (which is
     * then a no-op); and an object already in a cache is refused: a
     * ValueError for another cache, and for this one a failure the C code
     * returns without setting an exception, modelled as SystemError.
     */
    ghost function AddItemOutcome(key: Oid, v: Value): Outcome
      reads this`data, ValueObjects(v)
    {
      if v.NotPersistent? then Fail(TypeError)
      else
        var oid := if v.Inst? then v.p.oid else v.c.oid;
        var vjar := if v.Inst? then v.p.jar else v.c.jar;
        if oid.None? then Fail(TypeError)
        else if key != oid.value then Fail(ValueError)
        else if vjar.None? then Fail(ValueError)
        else if key in data then (if data[key] == StoredOf(v) then Pass else Fail(ValueError))
        else if v.Inst? && v.p.cache.Some? then (if v.p.cache.value == head then Fail(SystemError) else Fail(ValueError))
        else Pass
    }

    /**
     * `cc_add_item` (`cache[key] = v` with a bytes key): a class is stored and
     * counted; an object is stored, pointed at this cache, and, unless it is
     * a ghost, counted and linked at the most recently used end.  The byte
     * total is not touched.  Re-adding the stored value changes nothing.
     */
    method AddItem(key: Oid, v: Value) returns (outcome: Outcome)
      requires Valid()
      modifies this`data, this`klassCount, head`nonGhostCount, head.ring, ValueObjects(v)`cache
      ensures Valid()
      ensures outcome == old(AddItemOutcome(key, v))
      ensures outcome.Pass? ==> key in data && data[key] == StoredOf(v)
      ensures var added := outcome.Pass? && key !in old(data);
        && data == (if added then old(data)[key := StoredOf(v)] else old(data))
        && klassCount == old(klassCount) + (if added && v.Cls? then 1 else 0)
        && head.ring.Order() == (if added && v.Inst? && old(v.p.state) != Ghost then old(head.ring.Order()) + [Of(v.p)] else old(head.ring.Order()))
        && (v.Inst? ==> v.p.cache == if added then Some(head) else old(v.p.cache))
    {
      if v.NotPersistent? {
        return Fail(TypeError);
      }
      var oid := if v.Inst? then v.p.oid else v.c.oid;
      var vjar := if v.Inst? then v.p.jar else v.c.jar;
      if oid.None? {
        return Fail(TypeError);
      }
      if key != oid.value {
        return Fail(ValueError);
      }
      if vjar.None? {
        return Fail(ValueError);
      }
      if key in data {
        if data[key] != StoredOf(v) {
          return Fail(ValueError);
        }
        return Pass;
      }
      if v.Cls? {
        StoreClass(key, v.c);
        return Pass;
      }
      var p := v.p;
      if p.cache.Some? {
        if p.cache.value != head {
          return Fail(ValueError);
        }
        return Fail(SystemError);
      }
      StoreObject(key, p);
      outcome := Pass;
    }

    /** `data[key] = v; klass_count++` for a class. */
    method StoreClass(key: Oid, c: PC.PClass)
      requires Valid() && key !in data && c.oid == Some(key)
      modifies this`data, this`klassCount
      ensures Valid() && data == old(data)[key := StoredClass(c)] && klassCount == old(klassCount) + 1
    {
      ClassAdded(key, c);
      data := data[key := StoredClass(c)];
      klassCount := klassCount + 1;
    }

    /** With a class stored under a new key and counted, the cache is still sound. */
    lemma ClassAdded(key: Oid, c: PC.PClass)
      requires Valid() && key !in data && c.oid == Some(key)
      ensures Sound(data[key := StoredClass(c)], klassCount + 1)
    {
      var d := data[key := StoredClass(c)];
      assert ClassKeys(d) == ClassKeys(data) + {key};
      AddedObjects(data, key, StoredClass(c));
      forall k | k in d
        ensures EntryOK(k, d[k], head.ring.Order())
      {
        if k != key {
          assert EntryOK(k, data[k], head.ring.Order());
        }
      }
      forall n | n in head.ring.Order()
        ensures n.Of? && n.obj in ObjectsIn(d) && Listed(d, n)
      {
        assert Listed(data, n);
      }
    }

    /** `data[key] = p; p.cache = self` and, for a non-ghost, `non_ghost_count++; ring_add`. */
    method StoreObject(key: Oid, p: CPersistent)
      requires Valid() && key !in data && p.oid == Some(key) && p.jar.Some? && p.cache.None?
      modifies this`data, head`nonGhostCount, head.ring, p`cache
      ensures Valid() && data == old(data)[key := StoredObj(p)] && klassCount == old(klassCount) && p.cache == Some(head)
      ensures head.ring.Order() == if p.state != Ghost then old(head.ring.Order()) + [Of(p)] else old(head.ring.Order())
    {
      Unattached(p);
      Attach(key, p);
      if p.state != Ghost {
        AdmitAttached(key, p);
      }
    }

    /** `ring_add` of a just-attached object that is not a ghost, restoring the cache invariant. */
    method AdmitAttached(key: Oid, p: CPersistent)
      requires key in data && data[key] == StoredObj(p) && Attached(key, p) && p.state != Ghost
      requires head.Valid() && klassCount == |ClassKeys(data)| && head.nonGhostCount == |head.ring.Order()|
      requires Of(p) !in head.ring.Order()
      requires forall k | k in data && k != key :: EntryOK(k, data[k], head.ring.Order())
      requires forall n | n in head.ring.Order() :: n.Of? && n.obj in Objects() && Listed(data, n)
      modifies head`nonGhostCount, head.ring
      ensures Valid() && head.ring.Order() == old(head.ring.Order()) + [Of(p)]
    {
      head.Admit(Of(p));
      AdmittedValid(p);
    }

    /** `data[key] = p; p.cache = self`, before the ring is adjusted. */
    method Attach(key: Oid, p: CPersistent)
      requires Valid() && key !in data && p.oid == Some(key) && p.jar.Some? && p.cache.None?
      requires p !in Objects() && Of(p) !in head.ring.Order()
      modifies this`data, p`cache
      ensures data == old(data)[key := StoredObj(p)] && p.cache == Some(head) && Objects() == old(Objects()) + {p}
      ensures head.Valid() && klassCount == |ClassKeys(data)| && head.nonGhostCount == |head.ring.Order()|
      ensures forall k | k in data && k != key :: EntryOK(k, data[k], head.ring.Order())
      ensures forall n | n in head.ring.Order() :: n.Of? && n.obj in Objects() && Listed(data, n)
    {
      ghost var d := data;
      data := data[key := StoredObj(p)];
      p.cache := Some(head);
      assert ClassKeys(data) == ClassKeys(d);
      AddedObjects(d, key, StoredObj(p));
      forall k | k in data && k != key
        ensures EntryOK(k, data[k], head.ring.Order())
      {
        assert old(EntryOK(k, data[k], head.ring.Order()));
      }
      forall n | n in head.ring.Order()
        ensures Listed(data, n)
      {
        assert old(Listed(data, n));
      }
    }

    /** The objects stored in `d`. */
    static ghost function ObjectsIn(d: map<Oid, Stored>): set<CPersistent>
    {
      set k | k in d && d[k].StoredObj? :: d[k].p
    }

    /** Storing under a new key adds the stored object, if it is one, to the stored objects. */
    static lemma AddedObjects(d: map<Oid, Stored>, key: Oid, s: Stored)
      requires key !in d
      ensures ObjectsIn(d[key := s]) == ObjectsIn(d) + (if s.StoredObj? then {s.p} else {})
    {
      var after := d[key := s];
      forall q | q in ObjectsIn(after)
        ensures q in ObjectsIn(d) || (s.StoredObj? && q == s.p)
      {
        var k :| k in after && after[k].StoredObj? && after[k].p == q;
        if k != key {
          assert k in d && d[k] == after[k];
        }
      }
      forall q | q in ObjectsIn(d)
        ensures q in ObjectsIn(after)
      {
        var k :| k in d && d[k].StoredObj? && d[k].p == q;
        assert after[k] == d[k];
      }
      if s.StoredObj? {
        assert after[key].p == s.p;
      }
    }

    /** Once an attached non-ghost is linked, the cache is valid again. */
    lemma AdmittedValid(p: CPersistent)
      requires head.Valid() && p.oid.Some? && p.oid.value in data && data[p.oid.value] == StoredObj(p) && Attached(p.oid.value, p)
      requires p.state != Ghost && Of(p) in head.ring.Order()
      requires klassCount == |ClassKeys(data)| && head.nonGhostCount == |head.ring.Order()|
      requires forall k | k in data && k != p.oid.value :: EntryOK(k, data[k], RemoveLast(head.ring.Order()))
      requires forall n | n in RemoveLast(head.ring.Order()) :: n.Of? && n.obj in Objects() && Listed(data, n)
      requires |head.ring.Order()| > 0 && head.ring.Order()[|head.ring.Order()| - 1] == Of(p)
      ensures Valid()
    {
      var o := head.ring.Order();
      var before := RemoveLast(o);
      assert o == before + [Of(p)];
      forall k | k in data
        ensures EntryOK(k, data[k], o)
      {
        if k != p.oid.value && data[k].StoredObj? {
          var q := data[k].p;
          assert q != p;
          assert Of(q) in o <==> Of(q) in before;
        }
      }
    }

    /** Removing a key takes its object, if it holds one, out of the stored objects. */
    static lemma ObjectsWithout(d: map<Oid, Stored>, key: Oid)
      requires key in d
      ensures ObjectsIn(d) == ObjectsIn(d - {key}) + (if d[key].StoredObj? then {d[key].p} else {})
    {
      assert d == (d - {key})[key := d[key]];
      AddedObjects(d - {key}, key, d[key]);
    }

    /**
     * `cc_del_item` (`del cache[key]` with a bytes key): KeyError for a
     * missing key; a class is uncounted; an object that is not a ghost is
     * uncounted and unlinked, and its `cache` field cleared; then the key is
     * removed.  The byte total is not touched.
     */
    method DelItem(key: Oid) returns (outcome: Outcome)
      requires Valid()
      modifies this`data, this`klassCount, head`nonGhostCount, head.ring, EntryObjects(key)`cache
      ensures Valid()
      ensures outcome == if key in old(data) then Pass else Fail(KeyError)
      ensures data == old(data) - {key}
      ensures klassCount == old(klassCount) - (if key in old(data) && old(data[key]).StoredClass? then 1 else 0)
      ensures var gone := key in old(data) && old(data[key]).StoredObj? && old(data[key].p.state) != Ghost;
        head.ring.Order() == if gone then RemoveAt(old(head.ring.Order()), IndexOf(old(head.ring.Order()), Of(old(data[key]).p))) else old(head.ring.Order())
      ensures key in old(data) && old(data[key]).StoredObj? ==> old(data[key]).p.cache.None?
    {
      if key !in data {
        assert data - {key} == data;
        return Fail(KeyError);
      }
      match data[key] {
        case StoredClass(c) => DropClass(key);
        case StoredObj(p) => DropObject(key, p);
      }
      outcome := Pass;
    }

    /** `klass_count--` and the key removed. */
    method DropClass(key: Oid)
      requires Valid() && key in data && data[key].StoredClass?
      modifies this`data, this`klassCount
      ensures Valid() && data == old(data) - {key} && klassCount == old(klassCount) - 1
    {
      ClassDropped(key);
      data := data - {key};
      klassCount := klassCount - 1;
    }

    /** With a class's key removed and uncounted, the cache is still sound. */
    lemma ClassDropped(key: Oid)
      requires Valid() && key in data && data[key].StoredClass?
      ensures Sound(data - {key}, klassCount - 1)
    {
      var d := data - {key};
      ObjectsWithout(data, key);
      assert ClassKeys(d) == ClassKeys(data) - {key};
      forall k | k in d
        ensures EntryOK(k, d[k], head.ring.Order())
      {
        assert EntryOK(k, data[k], head.ring.Order());
      }
      forall n | n in head.ring.Order()
        ensures n.Of? && n.obj in ObjectsIn(d) && Listed(d, n)
      {
        assert Listed(data, n);
      }
    }

    /** `ring_del` for a non-ghost, the `cache` field cleared, and the key removed. */
    method DropObject(key: Oid, p: CPersistent)
      requires Valid() && key in data && data[key] == StoredObj(p)
      modifies this`data, head`nonGhostCount, head.ring, p`cache
      ensures Valid() && data == old(data) - {key} && p.cache.None?
      ensures head.ring.Order() == if old(p.state) != Ghost then RemoveAt(old(head.ring.Order()), IndexOf(old(head.ring.Order()), Of(p))) else old(head.ring.Order())
    {
      ghost var d := data;
      ghost var o2 := DropPlan(key, p);
      assert ClassKeys(d - {key}) == ClassKeys(d);
      Detach(key, p, d, o2);
      DroppedSound(key, p, d, o2);
    }

    /** The steps of dropping the object stored under `key`, which leave the other entries alone. */
    method Detach(key: Oid, p: CPersistent, ghost d: map<Oid, Stored>, ghost o2: seq<CNode>)
      requires data == d && key in d && d[key] == StoredObj(p) && Others(d, key, p, o2) && head.Valid()
      requires Of(p) in head.ring.Order() <==> p.state != Ghost
      requires o2 == if p.state != Ghost then RemoveAt(head.ring.Order(), IndexOf(head.ring.Order(), Of(p))) else head.ring.Order()
      requires head.nonGhostCount == |head.ring.Order()|
      modifies this`data, head`nonGhostCount, head.ring, p`cache
      ensures data == d - {key} && Others(d, key, p, o2) && p.cache.None?
      ensures head.Valid() && head.ring.Order() == o2 && head.nonGhostCount == |o2|
    {
      if p.state != Ghost {
        head.Dismiss(Of(p));
      }
      p.cache := None;
      data := data - {key};
    }

    /** Once the object stored under `key` is off the ring and its key removed, the cache is valid. */
    lemma DroppedSound(key: Oid, p: CPersistent, d: map<Oid, Stored>, o2: seq<CNode>)
      requires key in d && d[key] == StoredObj(p) && data == d - {key} && Others(d, key, p, o2)
      requires head.Valid() && head.ring.Order() == o2 && Of(p) !in o2
      requires head.nonGhostCount == |o2| && klassCount == |ClassKeys(data)|
      ensures Valid()
    {
      ObjectsWithout(d, key);
      forall n | n in o2
        ensures n.Of? && n.obj in Objects() && Listed(data, n)
      {
        assert Listed(d, n);
      }
    }

    /** What remains valid once the object stored under `key` is unlinked (if listed) and its key removed. */
    lemma DropPlan(key: Oid, p: CPersistent) returns (o2: seq<CNode>)
      requires Valid() && key in data && data[key] == StoredObj(p)
      ensures Attached(key, p) && (Of(p) in head.ring.Order() <==> p.state != Ghost)
      ensures o2 == if p.state != Ghost then RemoveAt(head.ring.Order(), IndexOf(head.ring.Order(), Of(p))) else head.ring.Order()
      ensures Others(data, key, p, o2) && Of(p) !in o2
    {
      var o := head.ring.Order();
      assert EntryOK(key, data[key], o);
      head.ring.OrderDistinct();
      o2 := if p.state != Ghost then RemoveAt(o, IndexOf(o, Of(p))) else o;
      forall n | n in o2
        ensures n in o && n != Of(p)
      {
        if p.state != Ghost {
          var k := IndexOf(o, Of(p));
          DistinctRemoved(o, k);
          RemovedMembers(o, k, n);
        }
      }
      forall k | k in data && k != key
        ensures EntryOK(k, data[k], o2)
      {
        assert EntryOK(k, data[k], o);
        if data[k].StoredObj? && p.state != Ghost {
          RemovedMembers(o, IndexOf(o, Of(p)), Of(data[k].p));
        }
      }
      forall n | n in o2
        ensures n.Of? && n.obj != p && n.obj.oid.Some? && n.obj.oid.value != key
          && n.obj.oid.value in data && data[n.obj.oid.value] == StoredObj(n.obj)
      {
        assert Listed(data, n);
      }
    }

    /**
     * `cc_new_ghost`'s checks, in order: a persistent value, no oid, no jar,
     * a key not yet in `data`, and an instance in no cache.
     */
    ghost function NewGhostOutcome(key: Oid, v: Value): Outcome
      reads this`data, ValueObjects(v)
    {
      if v.NotPersistent? then Fail(TypeError)
      else if (if v.Inst? then v.p.oid else v.c.oid).Some? then Fail(ValueError)
      else if (if v.Inst? then v.p.jar else v.c.jar).Some? then Fail(ValueError)
      else if key in data then Fail(ValueError)
      else if v.Inst? && v.p.cache.Some? then Fail(AssertionError)
      else Pass
    }

    /**
     * `cc_new_ghost(key, v)`: a class gets this cache's jar and the key as its
     * oid and is stored and counted; an instance is stored, given this
     * cache, jar and oid, and made a ghost, so it stays out of the ring.
     */
    method NewGhost(key: Oid, v: Value) returns (outcome: Outcome)
      requires Valid()
      modifies this`data, this`klassCount, ValueObjects(v)
      ensures Valid() && outcome == old(NewGhostOutcome(key, v))
      ensures head.ring.Order() == old(head.ring.Order())
      ensures outcome.Fail? ==> data == old(data) && klassCount == old(klassCount)
      ensures outcome.Pass? && v.Cls? ==>
        data == old(data)[key := StoredClass(v.c.(jar := Some(jar), oid := Some(key)))] && klassCount == old(klassCount) + 1
      ensures outcome.Pass? && v.Inst? ==>
        && data == old(data)[key := StoredObj(v.p)] && klassCount == old(klassCount)
        && v.p.Snap() == old(v.p.Snap()).(jar := Some(jar), oid := Some(key), state := Ghost, cached := true)
        && v.p.cache == Some(head)
      ensures outcome.Fail? && v.Inst? ==> v.p.Snap() == old(v.p.Snap()) && v.p.cache == old(v.p.cache)
    {
      if v.NotPersistent? {
        return Fail(TypeError);
      }
      if (if v.Inst? then v.p.oid else v.c.oid).Some? {
        return Fail(ValueError);
      }
      if (if v.Inst? then v.p.jar else v.c.jar).Some? {
        return Fail(ValueError);
      }
      if key in data {
        return Fail(ValueError);
      }
      if v.Cls? {
        StoreClass(key, v.c.(jar := Some(jar), oid := Some(key)));
        return Pass;
      }
      var p := v.p;
      if p.cache.Some? {
        return Fail(AssertionError);
      }
      Unattached(p);
      p.jar, p.oid, p.state := Some(jar), Some(key), Ghost;
      Attach(key, p);
      outcome := Pass;
    }

    /**
     * `cc_update_object_size_estimation(oid, new_size)`: for an object of
     * the ring, the byte total moves from its recorded size to the new
     * size's; the object's own recorded size is left to the caller.
     */
    method UpdateObjectSizeEstimation(key: Oid, newSize: int)
      requires Valid()
      modifies head`totalEstimatedSize
      ensures Valid()
      ensures var moved := key in data && data[key].StoredObj? && Of(data[key].p) in head.ring.Order();
        head.totalEstimatedSize == old(head.totalEstimatedSize) + (if moved then SizeDelta(AsUnsigned(newSize), data[key].p.size) else 0)
    {
      if key in data && data[key].StoredObj? {
        var p := data[key].p;
        head.LinkedIsOrdered(Of(p));
        if head.ring.Linked(Of(p)) {
          head.totalEstimatedSize := head.totalEstimatedSize + SizeDelta(AsUnsigned(newSize), p.size);
        }
      }
    }

    /** `cc_ringlen`: the count of nodes after the home, which for a valid cache is the non-ghost count. */
    method RingLen() returns (c: int)
      requires Valid()
      ensures c == |head.ring.Order()| && c == head.nonGhostCount
    {
      var ring := head.ring;
      ghost var cyc := ring.cycle;
      ring.OrderDistinct();
      assert cyc == [Home] + ring.Order();
      ring.NextOf(0);
      var here := ring.next[Home];
      c := 0;
      while here != Home
        invariant 0 <= c < |cyc| && here == cyc[LinkedRing.Succ(c, |cyc|)]
        decreases |cyc| - c
      {
        assert c + 1 < |cyc|;
        ring.NextOf(c + 1);
        here := ring.next[here];
        c := c + 1;
      }
    }

    /**
     * `cc_lru_items`: ValueError while the ring is locked by a sweep;
     * otherwise the `(oid, object)` pairs of the ring from least to most
     * recently used, each the entry stored under that oid.
     */
    method LruItems() returns (r: Result<seq<(Oid, CPersistent)>>)
      requires Valid()
      ensures ringLock ==> r == Err(ValueError)
      ensures !ringLock ==> r.Ok? && |r.value| == |head.ring.Order()|
      ensures !ringLock ==> forall x | 0 <= x < |r.value| ::
        && Of(r.value[x].1) == head.ring.Order()[x]
        && r.value[x].0 in data && data[r.value[x].0] == StoredObj(r.value[x].1)
    {
      if ringLock {
        return Err(ValueError);
      }
      var ring := head.ring;
      ghost var cyc := ring.cycle;
      ghost var order := ring.Order();
      ring.OrderDistinct();
      assert cyc == [Home] + order;
      ring.NextOf(0);
      var here := ring.next[Home];
      var items: seq<(Oid, CPersistent)> := [];
      while here != Home
        invariant |items| < |cyc| && here == cyc[LinkedRing.Succ(|items|, |cyc|)]
        invariant forall x | 0 <= x < |items| ::
          Of(items[x].1) == order[x] && items[x].0 in data && data[items[x].0] == StoredObj(items[x].1)
        decreases |cyc| - |items|
      {
        assert |items| + 1 < |cyc|;
        assert here == order[|items|];
        assert Listed(data, here);
        ring.NextOf(|items| + 1);
        items := items + [(here.obj.oid.value, here.obj)];
        here := ring.next[here];
      }
      r := Ok(items);
    }

    // ------------------------------------------------------------ the sweep

    /**
     * One up-to-date object met by `scan_gc_items`: a placeholder is linked
     * after its node, its `_p_deactivate` runs (ghosting it and taking it
     * off the ring and the counters when that is the base method), the scan
     * goes on from the node after the placeholder, and the placeholder is
     * unlinked.
     */
    method Evict(o: CPersistent, ghost before: seq<CNode>, ghost after: seq<CNode>) returns (next: CNode, outcome: Outcome)
      requires head.Valid() && head.ring.cycle == [Home] + before + [Of(o)] + after && |after| > 0
      requires Of(o) !in before && Placeholder !in before && Placeholder !in after
      requires o.cache == Some(head) && o.state == UpToDate && o.jar.Some?
      modifies head, head.ring, o
      ensures head.Valid() && next == after[0] && o.cache == old(o.cache)
      ensures var ejected := o.hook == BaseDeactivate;
        && o.Snap() == (if ejected then Ghosted(old(o.Snap())) else old(o.Snap()))
        && head.nonGhostCount == old(head.nonGhostCount) - (if ejected then 1 else 0)
        && head.totalEstimatedSize == old(head.totalEstimatedSize) - (if ejected then SizeInBytes(old(o.size)) else 0)
        && head.ring.cycle == (if ejected then [Home] + before else [Home] + before + [Of(o)]) + after
      ensures outcome == if o.hook == Raises then Fail(CallbackError) else Pass
    {
      LinkPlaceholder(Of(o), before, after);
      outcome := Deactivate(o, before, after);
      next := UnlinkPlaceholder(if o.hook == BaseDeactivate then [Home] + before else [Home] + before + [Of(o)], after);
    }

    /** The call of `_p_deactivate` with the placeholder linked after the object's node. */
    method Deactivate(o: CPersistent, ghost before: seq<CNode>, ghost after: seq<CNode>) returns (outcome: Outcome)
      requires head.Valid() && head.ring.cycle == [Home] + before + [Of(o), Placeholder] + after && Of(o) !in before
      requires o.cache == Some(head) && o.state == UpToDate && o.jar.Some?
      modifies head, head.ring, o
      ensures head.Valid() && o.cache == old(o.cache)
      ensures var ejected := o.hook == BaseDeactivate;
        && o.Snap() == (if ejected then Ghosted(old(o.Snap())) else old(o.Snap()))
        && head.nonGhostCount == old(head.nonGhostCount) - (if ejected then 1 else 0)
        && head.totalEstimatedSize == old(head.totalEstimatedSize) - (if ejected then SizeInBytes(old(o.size)) else 0)
        && head.ring.cycle == (if ejected then [Home] + before else [Home] + before + [Of(o)]) + [Placeholder] + after
      ensures outcome == if o.hook == Raises then Fail(CallbackError) else Pass
    {
      head.ring.CycleIsHomeThenOrder();
      ghost var h := head.View();
      assert h.order == before + [Of(o)] + ([Placeholder] + after);
      ghost var r := DispatchDeactivateStep(o.Snap(), h, Of(o), o.hook);
      DispatchOnScan(o.Snap(), h, Of(o), o.hook, before, [Placeholder] + after);
      outcome := o.DispatchDeactivate();
      assert o.Snap() == r.obj && head.View() == r.head && outcome == r.outcome;
      head.ring.CycleIsHomeThenOrder();
      Regrouped(before, Of(o), after, o.hook == BaseDeactivate);
    }

    /** `insert_after(&placeholder, here)`. */
    method LinkPlaceholder(x: CNode, ghost before: seq<CNode>, ghost after: seq<CNode>)
      requires head.Valid() && head.ring.cycle == [Home] + before + [x] + after
      requires x != Home && x != Placeholder && x !in before && Placeholder !in before && Placeholder !in after
      modifies head.ring
      ensures head.Valid() && head.ring.cycle == [Home] + before + [x, Placeholder] + after
    {
      var ring := head.ring;
      ring.LinkedIsListed(x);
      ring.LinkedIsListed(Placeholder);
      LinkedRing.SpliceAt([Home] + before, x, after, Placeholder);
      ring.InsertAfter(Placeholder, x);
    }

    /** `here = placeholder.r_next; unlink_from_ring(&placeholder)`. */
    method UnlinkPlaceholder(ghost kept: seq<CNode>, ghost after: seq<CNode>) returns (next: CNode)
      requires head.Valid() && head.ring.cycle == kept + [Placeholder] + after && |after| > 0 && Placeholder !in kept
      modifies head.ring
      ensures head.Valid() && head.ring.cycle == kept + after && next == after[0]
    {
      var ring := head.ring;
      LinkedRing.SpliceAt(kept, Placeholder, after, Placeholder);
      ring.NextOf(|kept|);
      next := ring.next[Placeholder];
      ring.Unlink(Placeholder);
    }

    /** The objects of the ring, from least to most recently used. */
    ghost function RingSeq(): (r: seq<CPersistent>)
      reads head.ring
      requires head.ring.Valid() && forall n | n in head.ring.Order() :: n.Of?
      ensures |r| == |head.ring.Order()| && forall x | 0 <= x < |r| :: head.ring.Order()[x] == Of(r[x])
    {
      ObjsOf(head.ring.Order())
    }

    /**
     * The state of `scan_gc_items` after it has passed the first `i` ring
     * objects `O` (the objects `objs`, which were `snaps` when the scan
     * began) and ghosted those at the positions `E`: the ring is the home,
     * the objects kept so far, the ones not yet reached, and the marker;
     * the count has dropped by one per ghosted object; every object still
     * points at this cache and is as it was, except that the ghosted ones
     * are ghosts with an empty `__dict__`.
     */
    ghost predicate Scanning(O: seq<CNode>, objs: seq<CPersistent>, snaps: seq<CObj>, i: int, E: set<int>)
      reads head, head.ring, objs
    {
      RingAt(O, i, E) && ObjectsAt(O, objs, snaps, E)
    }

    /** The ring and count part of `Scanning`. */
    ghost predicate RingAt(O: seq<CNode>, i: int, E: set<int>)
      reads head, head.ring
    {
      && head.Valid()
      && 0 <= i <= |O| && Distinct(O)
      && (forall x | x in E :: 0 <= x < i)
      && head.ring.cycle == [Home] + Keep(O[..i], E) + O[i..] + [Marker]
      && head.nonGhostCount == |O| - |E|
    }

    /** The object part of `Scanning`. */
    ghost predicate ObjectsAt(O: seq<CNode>, objs: seq<CPersistent>, snaps: seq<CObj>, E: set<int>)
      reads objs
    {
      && |objs| == |O| && |snaps| == |O|
      && (forall x | 0 <= x < |O| :: O[x] == Of(objs[x]))
      && (forall x | 0 <= x < |O| :: snaps[x].jar.Some? && snaps[x].state != Ghost && snaps[x].cached)
      && (forall x | 0 <= x < |O| :: objs[x].cache == Some(head))
      && (forall x | 0 <= x < |O| :: objs[x].Snap() == if x in E then Ghosted(snaps[x]) else snaps[x])
    }


    /**
     * One turn of `scan_gc_items`'s loop on the ring object at position `i`:
     * an up-to-date object goes through `Evict`; any other is passed over.
     * The scan fails exactly at an up-to-date object whose `_p_deactivate`
     * raises, and then the ring is as it was.
     */
    method ScanOne(ghost O: seq<CNode>, ghost objs: seq<CPersistent>, ghost snaps: seq<CObj>, ghost i: nat, ghost E: set<int>, here: CNode)
      returns (next: CNode, ghost E2: set<int>, failed: bool)
      requires Scanning(O, objs, snaps, i, E) && i < |O| && here == O[i]
      modifies head, head.ring, objs[i]
      ensures var ejects := Ejects(ScanItem(snaps[i].state, objs[i].hook, snaps[i].size));
        && (failed <==> snaps[i].state == UpToDate && objs[i].hook == Raises)
        && E2 == (if ejects then E + {i} else E)
        && head.nonGhostCount == old(head.nonGhostCount) - (if ejects then 1 else 0)
        && head.totalEstimatedSize == old(head.totalEstimatedSize) - (if ejects then SizeInBytes(snaps[i].size) else 0)
      ensures failed ==> Scanning(O, objs, snaps, i, E)
      ensures !failed ==> Scanning(O, objs, snaps, i + 1, E2) && next == if i + 1 < |O| then O[i + 1] else Marker
      ensures objs[i].oid == old(objs[i].oid) && objs[i].jar == old(objs[i].jar) && objs[i].cache == old(objs[i].cache)
    {
      assert here.obj == objs[i] && i !in E && here.obj.state == snaps[i].state;
      if here.obj.state == UpToDate {
        next, E2, failed := ScanEvict(O, objs, snaps, i, E, here);
      } else {
        next := ScanPass(O, objs, snaps, i, E, here);
        E2, failed := E, false;
      }
    }

    /** An up-to-date object: through `Evict`. */
    method ScanEvict(ghost O: seq<CNode>, ghost objs: seq<CPersistent>, ghost snaps: seq<CObj>, ghost i: nat, ghost E: set<int>, here: CNode)
      returns (next: CNode, ghost E2: set<int>, failed: bool)
      requires Scanning(O, objs, snaps, i, E) && i < |O| && here == O[i] && here.obj.state == UpToDate
      modifies head, head.ring, objs[i]
      ensures var ejects := objs[i].hook == BaseDeactivate;
        && (failed <==> objs[i].hook == Raises)
        && E2 == (if ejects then E + {i} else E)
        && head.nonGhostCount == old(head.nonGhostCount) - (if ejects then 1 else 0)
        && head.totalEstimatedSize == old(head.totalEstimatedSize) - (if ejects then SizeInBytes(snaps[i].size) else 0)
      ensures failed ==> Scanning(O, objs, snaps, i, E)
      ensures !failed ==> Scanning(O, objs, snaps, i + 1, E2) && next == if i + 1 < |O| then O[i + 1] else Marker
    {
      var o := here.obj;
      assert o == objs[i] && i !in E;
      forall x | 0 <= x < |O| && x != i
        ensures objs[x] != o
      {
        assert O[x] != O[i];
      }
      next, failed := EvictAt(O, i, E, here);
      E2 := if o.hook == BaseDeactivate then E + {i} else E;
      forall x | 0 <= x < |O|
        ensures objs[x].cache == Some(head)
        ensures objs[x].Snap() == if x in (if failed then E else E2) then Ghosted(snaps[x]) else snaps[x]
      {
        if x != i {
          assert objs[x].Snap() == old(objs[x].Snap()) && objs[x].cache == old(objs[x].cache);
        }
      }
    }

    /** `Evict` on the ring object at position `i` of the scan, in terms of the scan's ring. */
    method EvictAt(ghost O: seq<CNode>, ghost i: nat, ghost E: set<int>, here: CNode) returns (next: CNode, failed: bool)
      requires RingAt(O, i, E) && i < |O| && here == O[i] && forall x | 0 <= x < |O| :: O[x].Of?
      requires here.obj.cache == Some(head) && here.obj.state == UpToDate && here.obj.jar.Some?
      modifies head, head.ring, here.obj
      ensures var o := here.obj;
        var ejected := o.hook == BaseDeactivate;
        && o.cache == old(o.cache)
        && o.Snap() == (if ejected then Ghosted(old(o.Snap())) else old(o.Snap()))
        && (failed <==> o.hook == Raises)
        && head.nonGhostCount == old(head.nonGhostCount) - (if ejected then 1 else 0)
        && head.totalEstimatedSize == old(head.totalEstimatedSize) - (if ejected then SizeInBytes(old(o.size)) else 0)
        && (failed ==> RingAt(O, i, E))
        && (!failed ==> RingAt(O, i + 1, if ejected then E + {i} else E) && next == if i + 1 < |O| then O[i + 1] else Marker)
    {
      var o := here.obj;
      ScanCut(O, i, E);
      ghost var before := Keep(O[..i], E);
      ghost var after := O[i + 1..] + [Marker];
      var outcome;
      next, outcome := Evict(o, before, after);
      failed := outcome.Fail?;
      if failed {
        assert RingAt(O, i, E);
      } else if o.hook == BaseDeactivate {
        ScanDropped(O, i, E);
        assert |E + {i}| == |E| + 1;
        assert RingAt(O, i + 1, E + {i});
      } else {
        ScanKept(O, i, E);
        assert RingAt(O, i + 1, E);
      }
    }

    /** An object in any other state: `here = here->r_next`. */
    method ScanPass(ghost O: seq<CNode>, ghost objs: seq<CPersistent>, ghost snaps: seq<CObj>, ghost i: nat, ghost E: set<int>, here: CNode)
      returns (next: CNode)
      requires Scanning(O, objs, snaps, i, E) && i < |O| && here == O[i] && here.obj.state != UpToDate
      ensures Scanning(O, objs, snaps, i + 1, E) && next == if i + 1 < |O| then O[i + 1] else Marker
    {
      ScanCut(O, i, E);
      ScanKept(O, i, E);
      assert here.obj == objs[i] && i !in E;
      head.ring.NextOf(|Keep(O[..i], E)| + 1);
      next := head.ring.next[here];
    }

    /** What the sweep looks at in each ring object, from least to most recently used. */
    ghost function ScanItems(): (r: seq<ScanItem>)
      reads this`data, this`klassCount, head, head.ring, Objects()
      requires Valid()
      ensures |r| == |head.ring.Order()|
    {
      var objs := RingSeq();
      assert forall x | 0 <= x < |objs| :: objs[x] in Objects() by {
        forall x | 0 <= x < |objs|
          ensures objs[x] in Objects()
        {
          assert head.ring.Order()[x] in head.ring.Order();
        }
      }
      ItemsOf(objs, SnapsOf(objs))
    }

    /** What `scan_gc_items` with these targets does to the cache as it is now. */
    ghost function SweepResult(target: int, bytes: int): Scanned
      reads this`data, this`klassCount, head, head.ring, Objects()
      requires Valid()
    {
      ScanFrom(ScanItems(), 0, target, bytes, head.nonGhostCount, head.totalEstimatedSize, {})
    }

    /**
     * The cache after a scan `r` of the ring objects `objs` (the nodes `O`,
     * whose fields were `snaps`): the counters the scan left, the ring
     * without the ghosted objects, those ghosts with an empty `__dict__`,
     * the others as they were.
     */
    ghost predicate SweptTo(r: Scanned, O: seq<CNode>, objs: seq<CPersistent>, snaps: seq<CObj>)
      reads head, head.ring, objs
    {
      && |objs| == |O| && |snaps| == |O| && head.ring.Valid()
      && head.nonGhostCount == r.count && head.totalEstimatedSize == r.total
      && head.ring.Order() == Keep(O, r.ejected)
      && forall x | 0 <= x < |O| :: objs[x].Snap() == if x in r.ejected then Ghosted(snaps[x]) else snaps[x]
    }

    /**
     * `scan_gc_items`, called with the ring lock held: the marker is linked
     * at the most recently used end, and objects are scanned from the least
     * recently used one until the marker, a satisfied target, or a raising
     * `_p_deactivate`. The result is `SweepResult`, also when the scan
     * fails: the objects it ghosted before stay ghosts.
     */
    method ScanGcItems(target: int, bytes: int) returns (outcome: Outcome)
      requires Valid() && ringLock
      modifies head, head.ring, RingObjects()
      ensures Valid()
      ensures var r := old(SweepResult(target, bytes));
        && SweptTo(r, old(head.ring.Order()), old(RingSeq()), old(SnapsOf(RingSeq())))
        && outcome == if r.failed then Fail(CallbackError) else Pass
    {
      ghost var O := head.ring.Order();
      ghost var objs := RingSeq();
      ghost var snaps := SnapsOf(objs);
      var failed := Sweep(O, objs, snaps, ScanItems(), SweepResult(target, bytes), target, bytes, data);
      outcome := if failed then Fail(CallbackError) else Pass;
    }

    /** `scan_gc_items` over a ring whose order, objects and their states are `O`, `objs` and `snaps`. */
    method Sweep(ghost O: seq<CNode>, ghost objs: seq<CPersistent>, ghost snaps: seq<CObj>, ghost items: seq<ScanItem>,
                 ghost r: Scanned, target: int, bytes: int, ghost d: map<Oid, Stored>) returns (failed: bool)
      requires Valid() && O == head.ring.Order() && objs == RingSeq() && snaps == SnapsOf(objs) && d == data
      requires items == ItemsOf(objs, snaps)
      requires r == ScanFrom(items, 0, target, bytes, head.nonGhostCount, head.totalEstimatedSize, {})
      modifies head, head.ring, ObjectsOf(O)
      ensures Valid() && SweptTo(r, O, objs, snaps) && failed == r.failed
    {
      ghost var i, E;
      failed, i, E := ScanRing(O, objs, snaps, items, r, target, bytes, d);
      FinishScan(O, objs, snaps, i, E, r, d);
    }

    /** `scan_gc_items` up to unlinking the marker: the marker is linked, then the loop runs. */
    method ScanRing(ghost O: seq<CNode>, ghost objs: seq<CPersistent>, ghost snaps: seq<CObj>, ghost items: seq<ScanItem>,
                    ghost r: Scanned, target: int, bytes: int, ghost d: map<Oid, Stored>)
      returns (failed: bool, ghost i: nat, ghost E: set<int>)
      requires Valid() && O == head.ring.Order() && objs == RingSeq() && snaps == SnapsOf(objs) && d == data
      requires items == ItemsOf(objs, snaps)
      requires r == ScanFrom(items, 0, target, bytes, head.nonGhostCount, head.totalEstimatedSize, {})
      modifies head, head.ring, ObjectsOf(O)
      ensures Scanning(O, objs, snaps, i, E) && Marker !in O && d == data
      ensures Keyed(d, O, objs, snaps) && Bystanders(d, O) && klassCount == |ClassKeys(d)|
      ensures r.count == head.nonGhostCount && r.total == head.totalEstimatedSize && r.ejected == E && r.failed == failed
    {
      var here := StartScan(O, objs, snaps, d);
      failed, i, E := RunScan(O, objs, snaps, items, r, here, target, bytes, d);
    }

    /** The start of `scan_gc_items`: the marker is linked after the most recently used object. */
    method StartScan(ghost O: seq<CNode>, ghost objs: seq<CPersistent>, ghost snaps: seq<CObj>, ghost d: map<Oid, Stored>) returns (here: CNode)
      requires Valid() && O == head.ring.Order() && objs == RingSeq() && snaps == SnapsOf(objs) && d == data
      modifies head.ring
      ensures Scanning(O, objs, snaps, 0, {}) && here == (if 0 < |O| then O[0] else Marker)
      ensures Marker !in O && Keyed(d, O, objs, snaps) && Bystanders(d, O) && klassCount == |ClassKeys(d)|
    {
      RingFacts(O, objs, snaps);
      here := LinkMarker(O, objs, snaps, d);
    }

    /** `scan_gc_items`'s loop, from the least recently used object until the marker, a satisfied target, or a failure. */
    method RunScan(ghost O: seq<CNode>, ghost objs: seq<CPersistent>, ghost snaps: seq<CObj>, ghost items: seq<ScanItem>,
                   ghost r: Scanned, here0: CNode, target: int, bytes: int, ghost d: map<Oid, Stored>)
      returns (failed: bool, ghost i: nat, ghost E: set<int>)
      requires Scanning(O, objs, snaps, 0, {}) && Marker !in O && items == ItemsOf(objs, snaps) && Bystanders(d, O)
      requires here0 == (if 0 < |O| then O[0] else Marker)
      requires r == ScanFrom(items, 0, target, bytes, head.nonGhostCount, head.totalEstimatedSize, {})
      requires d == data && Keyed(d, O, objs, snaps) && klassCount == |ClassKeys(d)|
      modifies head, head.ring, ObjectsOf(O)
      ensures Scanning(O, objs, snaps, i, E) && r == Scanned(i, head.nonGhostCount, head.totalEstimatedSize, E, failed)
      ensures Bystanders(d, O) && d == data && Keyed(d, O, objs, snaps) && klassCount == |ClassKeys(d)|
    {
      var here := here0;
      i, E, failed := 0, {}, false;
      while !failed && here != Marker && Continue(target, bytes, head.nonGhostCount, head.totalEstimatedSize)
        invariant Scanning(O, objs, snaps, i, E) && Bystanders(d, O)
        invariant !failed ==> here == (if i < |O| then O[i] else Marker)
        invariant !failed ==> r == ScanFrom(items, i, target, bytes, head.nonGhostCount, head.totalEstimatedSize, E)
        invariant failed ==> r == Scanned(i, head.nonGhostCount, head.totalEstimatedSize, E, true)
        decreases |O| - i, if failed then 0 else 1
      {
        assert objs[i] in ObjectsOf(O) by {
          assert O[i] in O;
        }
        var next, f;
        ghost var E2;
        next, E2, f := ScanStep(O, objs, snaps, items, i, E, here, target, bytes, d);
        if !f {
          i, E, here := i + 1, E2, next;
        }
        failed := f;
      }
    }

    /** `Done:` the marker is unlinked, and the cache invariant holds again. */
    method FinishScan(ghost O: seq<CNode>, ghost objs: seq<CPersistent>, ghost snaps: seq<CObj>, ghost i: nat, ghost E: set<int>,
                      ghost r: Scanned, ghost d: map<Oid, Stored>)
      requires Scanning(O, objs, snaps, i, E) && Marker !in O && d == data
      requires Keyed(d, O, objs, snaps) && Bystanders(d, O) && klassCount == |ClassKeys(d)|
      requires r.count == head.nonGhostCount && r.total == head.totalEstimatedSize && r.ejected == E
      modifies head.ring
      ensures Valid() && SweptTo(r, O, objs, snaps)
    {
      UnlinkMarker(O, i, E);
      ScanLeavesValid(O, objs, snaps, E);
    }

    /** The objects of the ring. */
    ghost function RingObjects(): set<CPersistent>
      reads head.ring
      requires head.ring.Valid()
    {
      ObjectsOf(head.ring.Order())
    }

    /** One turn of the loop, and what it does to `ScanFrom`. */
    method ScanStep(ghost O: seq<CNode>, ghost objs: seq<CPersistent>, ghost snaps: seq<CObj>, ghost items: seq<ScanItem>,
                    ghost i: nat, ghost E: set<int>, here: CNode, ghost target: int, ghost bytes: int, ghost d: map<Oid, Stored>)
      returns (next: CNode, ghost E2: set<int>, failed: bool)
      requires Scanning(O, objs, snaps, i, E) && i < |O| && here == O[i] && items == ItemsOf(objs, snaps)
      requires Continue(target, bytes, head.nonGhostCount, head.totalEstimatedSize) && Bystanders(d, O)
      modifies head, head.ring, objs[i]
      ensures Bystanders(d, O)
      ensures var r := old(ScanFrom(items, i, target, bytes, head.nonGhostCount, head.totalEstimatedSize, E));
        && (failed ==> Scanning(O, objs, snaps, i, E) && r == Scanned(i, head.nonGhostCount, head.totalEstimatedSize, E, true))
        && (!failed ==> Scanning(O, objs, snaps, i + 1, E2) && next == (if i + 1 < |O| then O[i + 1] else Marker)
                         && r == ScanFrom(items, i + 1, target, bytes, head.nonGhostCount, head.totalEstimatedSize, E2))
    {
      ghost var count, total := head.nonGhostCount, head.totalEstimatedSize;
      next, E2, failed := ScanOne(O, objs, snaps, i, E, here);
      ScanFromStep(items, i, target, bytes, count, total, E, head.nonGhostCount, head.totalEstimatedSize, E2, failed);
    }

    /** The ring objects as the scan's invariant keeps them: distinct, stored under their oids, attached, and not ghosts. */
    lemma RingFacts(O: seq<CNode>, objs: seq<CPersistent>, snaps: seq<CObj>)
      requires Valid() && O == head.ring.Order() && objs == RingSeq() && snaps == SnapsOf(objs)
      ensures Distinct(O) && Marker !in O && Placeholder !in O && Home !in O
      ensures forall x | 0 <= x < |O| :: snaps[x].jar.Some? && snaps[x].state != Ghost && snaps[x].cached
      ensures forall x | 0 <= x < |O| :: objs[x].cache == Some(head)
      ensures Keyed(data, O, objs, snaps) && Bystanders(data, O)
    {
      head.ring.OrderDistinct();
      forall k | k in data
        ensures data[k].StoredClass? ==> data[k].c.oid == Some(k)
        ensures data[k].StoredObj? && Of(data[k].p) in O ==> snaps[IndexOf(O, Of(data[k].p))].oid == Some(k)
        ensures data[k].StoredObj? && data[k].p !in ObjectsOf(O) ==> Attached(k, data[k].p) && data[k].p.state == Ghost
      {
        assert EntryOK(k, data[k], O);
        if data[k].StoredObj? && Of(data[k].p) in O {
          assert data[k].p in ObjectsOf(O);
        }
      }
      forall x | 0 <= x < |O|
        ensures snaps[x].jar.Some? && snaps[x].state != Ghost && snaps[x].cached && objs[x].cache == Some(head)
        ensures snaps[x].oid.Some? && snaps[x].oid.value in data && data[snaps[x].oid.value] == StoredObj(objs[x])
      {
        assert O[x] in O;
        var k := objs[x].oid.value;
        assert EntryOK(k, data[k], O);
      }
    }

    /**
     * What the scan needs to know of the entries, which it does not change:
     * a class is stored under its oid; a ring object is stored under the
     * oid it had, and that oid is its key.
     */
    ghost predicate Keyed(d: map<Oid, Stored>, O: seq<CNode>, objs: seq<CPersistent>, snaps: seq<CObj>)
    {
      && |objs| == |O| && |snaps| == |O|
      && (forall k | k in d && d[k].StoredClass? :: d[k].c.oid == Some(k))
      && (forall k | k in d && d[k].StoredObj? && Of(d[k].p) in O :: snaps[IndexOf(O, Of(d[k].p))].oid == Some(k))
      && (forall x | 0 <= x < |O| :: snaps[x].oid.Some? && snaps[x].oid.value in d && d[snaps[x].oid.value] == StoredObj(objs[x]))
    }

    /** The stored objects off the ring `O`: attached ghosts. */
    ghost predicate Bystanders(d: map<Oid, Stored>, O: seq<CNode>)
      reads ObjectsIn(d) - ObjectsOf(O)
    {
      forall k | k in d && d[k].StoredObj? && d[k].p !in ObjectsOf(O) :: Attached(k, d[k].p) && d[k].p.state == Ghost
    }

    /** `insert_after(&before_original_home, ring_home.r_prev)`, then `here = ring_home.r_next`. */
    method LinkMarker(ghost O: seq<CNode>, ghost objs: seq<CPersistent>, ghost snaps: seq<CObj>, ghost d: map<Oid, Stored>) returns (here: CNode)
      requires head.Valid() && O == head.ring.Order() && Distinct(O) && Marker !in O
      requires |objs| == |O| && |snaps| == |O| && forall x | 0 <= x < |O| :: O[x] == Of(objs[x])
      requires forall x | 0 <= x < |O| :: snaps[x].jar.Some? && snaps[x].state != Ghost && snaps[x].cached
      requires forall x | 0 <= x < |O| :: objs[x].cache == Some(head) && objs[x].Snap() == snaps[x]
      requires head.nonGhostCount == |O| && Bystanders(d, O)
      modifies head.ring
      ensures Scanning(O, objs, snaps, 0, {}) && here == (if 0 < |O| then O[0] else Marker) && Bystanders(d, O)
    {
      var ring := head.ring;
      ring.LinkedIsListed(Marker);
      ring.Add(Marker);
      ring.CycleIsHomeThenOrder();
      assert O[..0] == [] && O[0..] == O;
      ring.NextOf(0);
      here := ring.next[Home];
    }

    /** `unlink_from_ring(&before_original_home)`: the ring is what the scan kept of `O`. */
    method UnlinkMarker(ghost O: seq<CNode>, ghost i: nat, ghost E: set<int>)
      requires RingAt(O, i, E) && Marker !in O
      modifies head.ring
      ensures head.Valid() && head.ring.Order() == Keep(O, E)
    {
      var ring := head.ring;
      ghost var kept := Keep(O[..i], E);
      ghost var rest := O[i..];
      KeepWithin(O[..i], E);
      assert Marker !in [Home] + kept + rest by {
        assert forall y | y in kept :: y in O;
      }
      DropLast([Home] + kept + rest, Marker);
      ring.LinkedIsListed(Marker);
      ring.Unlink(Marker);
      AfterHome(Home, kept, rest);
      KeepTail(O, E, i);
    }

    /** After the scan, the cache invariant holds again. */
    lemma ScanLeavesValid(O: seq<CNode>, objs: seq<CPersistent>, snaps: seq<CObj>, E: set<int>)
      requires head.Valid() && head.ring.Order() == Keep(O, E) && head.nonGhostCount == |O| - |E| && Distinct(O)
      requires ObjectsAt(O, objs, snaps, E) && Keyed(data, O, objs, snaps) && Bystanders(data, O) && klassCount == |ClassKeys(data)|
      requires forall x | x in E :: 0 <= x < |O|
      ensures Valid()
    {
      KeepLength(O, E);
      KeepWithin(O, E);
      var order := head.ring.Order();
      forall k | k in data
        ensures EntryOK(k, data[k], order)
      {
        if data[k].StoredObj? {
          var p := data[k].p;
          if Of(p) in O {
            RingEntryAfterScan(O, objs, snaps, E, k, IndexOf(O, Of(p)));
          } else {
            assert p !in ObjectsOf(O);
          }
        }
      }
      forall n | n in order
        ensures n.Of? && n.obj in Objects() && Listed(data, n)
      {
        assert n in O;
        var x := IndexOf(O, n);
        assert objs[x].oid == snaps[x].oid;
        assert data[snaps[x].oid.value] == StoredObj(objs[x]);
      }
    }

    /** A ring object's entry after the scan: still attached, and on the ring exactly when it was not ghosted. */
    lemma RingEntryAfterScan(O: seq<CNode>, objs: seq<CPersistent>, snaps: seq<CObj>, E: set<int>, k: Oid, x: nat)
      requires ObjectsAt(O, objs, snaps, E) && Keyed(data, O, objs, snaps) && Distinct(O)
      requires x < |O| && k in data && data[k] == StoredObj(objs[x])
      ensures EntryOK(k, data[k], Keep(O, E))
    {
      var p := objs[x];
      assert O[x] == Of(p) && IndexOf(O, Of(p)) == x by {
        DistinctIndexOf(O, x);
      }
      assert p.Snap().oid == snaps[x].oid;
      KeepMember(O, E, x);
    }

    // ------------------------------------------------------------ invalidation

    /**
     * `_invalidate`: nothing for a missing key; a class only the cache
     * references is uncounted and removed; any other class has its
     * `_p_invalidate` called (an AttributeError when it has none); an
     * object runs `_p_invalidate`, which ghosts it and takes it off the ring.
     */
    method InvalidateKey(key: Oid, referenced: set<Oid>) returns (outcome: Outcome)
      requires Valid()
      modifies this`data, this`klassCount, head, head.ring, EntryObjects(key)
      ensures Valid()
      ensures outcome == if Refused(old(data), key, referenced) then Fail(AttributeError) else Pass
      ensures data == if Drops(old(data), key, referenced) then old(data) - {key} else old(data)
      ensures head.ring.Order() == Filter(old(head.ring.Order()), NodesOf(old(data), [key]))
      ensures key in old(data) && old(data[key]).StoredObj? ==> old(data[key]).p.state == Ghost
      ensures !(key in old(data) && old(data[key]).StoredObj?) ==> head.View() == old(head.View())
    {
      if key !in data {
        assert NodesOf(data, [key]) == {};
        FilterUntouched(head.ring.Order(), {});
        return Pass;
      }
      match data[key] {
        case StoredClass(c) =>
          assert NodesOf(data, [key]) == {};
          FilterUntouched(head.ring.Order(), {});
          if key !in referenced {
            DropClass(key);
          } else if !c.hasInvalidate {
            return Fail(AttributeError);
          }
          outcome := Pass;
        case StoredObj(p) =>
          assert NodesOf(data, [key]) == {Of(p)};
          InvalidateObject(key, p);
          outcome := Pass;
      }
    }

    /** `_p_invalidate` on the object stored under `key`. */
    method InvalidateObject(key: Oid, p: CPersistent)
      requires Valid() && key in data && data[key] == StoredObj(p)
      modifies head, head.ring, p
      ensures Valid() && p.state == Ghost
      ensures var r := InvalidateStep(old(p.Snap()), old(head.View()), Of(p), p.hook); p.Snap() == r.obj && head.View() == r.head
      ensures head.ring.Order() == Filter(old(head.ring.Order()), {Of(p)})
    {
      ghost var O, h := head.ring.Order(), head.View();
      InvalidatePlan(key, p);
      if Of(p) in O {
        FilterRemoveAt(O, IndexOf(O, Of(p)));
      } else {
        FilterUntouched(O, {Of(p)});
      }
      InvalidateEndsGhost(p.Snap(), h, Of(p), p.hook);
      InvalidateUnlinks(p.Snap(), h, Of(p), p.hook);
      ghost var r := InvalidateStep(p.Snap(), h, Of(p), p.hook);
      CallInvalidate(data, key, p, O);
      assert head.ring.Order() == r.head.order;
      InvalidatedSound(key, p, O);
    }

    /** The call of `p._p_invalidate()`, which leaves the other entries alone. */
    method CallInvalidate(ghost d: map<Oid, Stored>, key: Oid, p: CPersistent, ghost O: seq<CNode>)
      requires Others(d, key, p, O) && p.Ready() && p.cache == Some(head) && head.Valid()
      modifies head, head.ring, p
      ensures Others(d, key, p, O) && p.cache == Some(head) && head.Valid()
      ensures var r := InvalidateStep(old(p.Snap()), old(head.View()), Of(p), p.hook); p.Snap() == r.obj && head.View() == r.head
    {
      p.Invalidate();
    }

    /** The entries other than `key`'s (and the ring nodes other than `p`'s), which `_p_invalidate` on `p` does not touch, as `Valid` needs them. */
    ghost predicate Others(d: map<Oid, Stored>, key: Oid, p: CPersistent, O: seq<CNode>)
      reads ObjectsIn(d) - {p}
    {
      && (forall k | k in d && k != key && d[k].StoredObj? :: d[k].p != p && EntryOK(k, d[k], O))
      && (forall k | k in d && d[k].StoredClass? :: EntryOK(k, d[k], O))
      && (forall n | n in O && n != Of(p) :: n.Of? && n.obj != p && n.obj in ObjectsIn(d) && Listed(d, n))
    }

    /** Before `_p_invalidate`: the object is attached and coherent, and the other entries are apart from it. */
    lemma InvalidatePlan(key: Oid, p: CPersistent)
      requires Valid() && key in data && data[key] == StoredObj(p)
      ensures Others(data, key, p, head.ring.Order()) && Attached(key, p) && Distinct(head.ring.Order())
      ensures CPersistence.Sound(p.Snap(), head.View(), Of(p)) && p.Ready()
    {
      var O := head.ring.Order();
      assert EntryOK(key, data[key], O);
      head.ring.OrderDistinct();
      forall k | k in data && k != key && data[k].StoredObj?
        ensures data[k].p != p
      {
        assert EntryOK(k, data[k], O);
      }
      forall n | n in O && n != Of(p)
        ensures n.Of? && n.obj != p && n.obj in Objects() && Listed(data, n)
      {
      }
    }

    /** After `_p_invalidate` on `p`: with its node gone from the ring and `p` a ghost still attached, the cache is valid. */
    lemma InvalidatedSound(key: Oid, p: CPersistent, O: seq<CNode>)
      requires key in data && data[key] == StoredObj(p) && Others(data, key, p, O)
      requires head.Valid() && head.nonGhostCount == |head.ring.Order()| && klassCount == |ClassKeys(data)|
      requires forall n :: n in head.ring.Order() <==> n in O && n != Of(p)
      requires Attached(key, p) && p.state == Ghost
      ensures Valid()
    {
      forall k | k in data
        ensures EntryOK(k, data[k], head.ring.Order())
      {
        if k != key && data[k].StoredObj? {
          assert EntryOK(k, data[k], O);
        }
      }
    }

    /**
     * `cc_invalidate`'s loops: `_invalidate` for each of `keys` in turn,
     * stopping at the first that fails.
     */
    method InvalidateKeys(keys: seq<Oid>, referenced: set<Oid>) returns (outcome: Outcome)
      requires Valid()
      modifies this`data, this`klassCount, head, head.ring, Objects()
      ensures Valid()
      ensures var n := FirstRefused(old(data), keys, referenced);
        && outcome == (if n < |keys| then Fail(AttributeError) else Pass)
        && data == old(data) - DroppedOf(old(data), keys[..n], referenced)
        && head.ring.Order() == Filter(old(head.ring.Order()), NodesOf(old(data), keys[..n]))
        && forall k | k in keys[..n] && k in old(data) && old(data[k]).StoredObj? :: old(data[k]).p.state == Ghost
    {
      ghost var d0, O0 := data, head.ring.Order();
      assert NodesOf(d0, keys[..0]) == {} && DroppedOf(d0, keys[..0], referenced) == {};
      FilterUntouched(O0, {});
      ghost var n := FirstRefused(d0, keys, referenced);
      var i := 0;
      outcome := Pass;
      while i < |keys| && outcome.Pass?
        invariant i <= n && Valid() && Visited(d0, O0, keys[..i], referenced)
        invariant outcome.Fail? ==> i == n < |keys| && outcome == Fail(AttributeError)
        decreases |keys| - i, if outcome.Pass? then 1 else 0
      {
        assert EntryObjects(keys[i]) <= ObjectsIn(d0);
        outcome := VisitKey(d0, O0, keys, i, referenced);
        if outcome.Pass? {
          i := i + 1;
        }
      }
      assert i == n;
      VisitedGhosts(d0, O0, keys[..n], referenced);
    }

    /** The cache after `_invalidate` of each of `keys` on the dictionary `d0` and the ring order `O0`. */
    ghost predicate Visited(d0: map<Oid, Stored>, O0: seq<CNode>, keys: seq<Oid>, referenced: set<Oid>)
      reads this`data, head.ring
    {
      data == d0 - DroppedOf(d0, keys, referenced) && head.ring.Valid() && head.ring.Order() == Filter(O0, NodesOf(d0, keys))
    }

    /** An object whose node the invalidations took off the ring is a ghost. */
    lemma VisitedGhosts(d0: map<Oid, Stored>, O0: seq<CNode>, keys: seq<Oid>, referenced: set<Oid>)
      requires Valid() && Visited(d0, O0, keys, referenced)
      ensures forall k | k in keys && k in d0 && d0[k].StoredObj? :: d0[k].p.state == Ghost
    {
      forall k | k in keys && k in d0 && d0[k].StoredObj?
        ensures d0[k].p.state == Ghost
      {
        assert k in data && data[k] == d0[k];
        assert EntryOK(k, data[k], head.ring.Order());
        FilterMembers(O0, NodesOf(d0, keys), Of(d0[k].p));
      }
    }

    /** `_invalidate` of `keys[i]`, continuing what the keys before it did. */
    method VisitKey(ghost d0: map<Oid, Stored>, ghost O0: seq<CNode>, keys: seq<Oid>, i: nat, referenced: set<Oid>) returns (outcome: Outcome)
      requires i < |keys| && Valid() && Visited(d0, O0, keys[..i], referenced)
      modifies this`data, this`klassCount, head, head.ring, EntryObjects(keys[i])
      ensures Valid() && outcome == if Refused(d0, keys[i], referenced) then Fail(AttributeError) else Pass
      ensures Visited(d0, O0, keys[..if outcome.Pass? then i + 1 else i], referenced)
    {
      VisitStep(d0, data, O0, keys, i, referenced);
      outcome := InvalidateKey(keys[i], referenced);
    }

    /**
     * `cc_invalidate`: the keys of a dict (then cleared), one bytes oid, or
     * the elements of a sequence from last to first (then emptied); an
     * argument without a length is a TypeError. The first failing
     * `_invalidate` ends the call and leaves the argument as it was.
     */
    method Invalidate(inv: Invalidation, referenced: set<Oid>) returns (outcome: Outcome, left: Invalidation)
      requires Valid()
      modifies this`data, this`klassCount, head, head.ring, Objects()
      ensures Valid()
      ensures var keys := VisitOrder(inv);
        var n := FirstRefused(old(data), keys, referenced);
        && outcome == (if inv.Unsized? then Fail(TypeError) else if n < |keys| then Fail(AttributeError)
                       else if DelSliceFails(inv) then Fail(SystemError) else Pass)
        && data == old(data) - DroppedOf(old(data), keys[..n], referenced)
        && head.ring.Order() == Filter(old(head.ring.Order()), NodesOf(old(data), keys[..n]))
        && (forall k | k in keys[..n] && k in old(data) && old(data[k]).StoredObj? :: old(data[k]).p.state == Ghost)
        && left == if !inv.Unsized? && n == |keys| then Emptied(inv) else inv
    {
      match inv {
        case KeysOf(keys) =>
          outcome := InvalidateKeys(keys, referenced);
        case OneOid(oid) =>
          outcome := InvalidateKeys([oid], referenced);
        case OidSequence(oids, mutable) =>
          outcome := InvalidateKeys(Backwards(oids), referenced);
          if outcome.Pass? && !mutable {
            return Fail(SystemError), inv;
          }
        case Unsized =>
          FilterUntouched(head.ring.Order(), {});
          assert DroppedOf(data, [], referenced) == {} && NodesOf(data, []) == {};
          return Fail(TypeError), inv;
      }
      left := if outcome.Pass? then Emptied(inv) else inv;
    }

    // ------------------------------------------------------------ the public sweeps

    /** A scan that looks at nothing: the counters as they stand, nothing ghosted. */
    ghost function Idle(failed: bool): (r: Scanned)
      reads head
      ensures r.ejected == {} && r.failed == failed
    {
      Scanned(0, head.nonGhostCount, head.totalEstimatedSize, {}, failed)
    }

    /** What `lockgc` does: nothing while a scan holds the ring lock, otherwise `SweepResult`. */
    ghost function LockGcResult(target: int, bytes: int): Scanned
      reads this`ringLock, this`data, this`klassCount, head, head.ring, Objects()
      requires Valid()
    {
      if ringLock then Idle(false) else SweepResult(target, bytes)
    }

    /**
     * The cache after a scan `r` that started from the ring order `O`, its
     * objects `objs` and their fields `snaps`, and the outcome reported.
     */
    ghost predicate Collected(r: Scanned, O: seq<CNode>, objs: seq<CPersistent>, snaps: seq<CObj>, outcome: Outcome)
      reads head, head.ring, objs
    {
      SweptTo(r, O, objs, snaps) && outcome == if r.failed then Fail(CallbackError) else Pass
    }

    /** A cache left as it is has been `Collected` by an `Idle` scan. */
    lemma Untouched(failed: bool)
      requires Valid()
      ensures Collected(Idle(failed), head.ring.Order(), RingSeq(), SnapsOf(RingSeq()), if failed then Fail(CallbackError) else Pass)
    {
      KeepNone(head.ring.Order());
    }

    /** `lockgc`: a no-op while the ring lock is held; otherwise `scan_gc_items` under the lock, released however it ends. */
    method LockGc(target: int, bytes: int) returns (outcome: Outcome)
      requires Valid()
      modifies this`ringLock, head, head.ring, RingObjects()
      ensures Valid() && ringLock == old(ringLock)
      ensures Collected(old(LockGcResult(target, bytes)), old(head.ring.Order()), old(RingSeq()), old(SnapsOf(RingSeq())), outcome)
    {
      if ringLock {
        Untouched(false);
        return Pass;
      }
      ghost var O, objs := head.ring.Order(), RingSeq();
      ghost var snaps, r := SnapsOf(objs), SweepResult(target, bytes);
      Lock(target, bytes);
      outcome := ScanGcItems(target, bytes);
      Unlock(r, O, objs, snaps, outcome);
    }

    /** `ring_lock = 1`, which changes nothing else. */
    method Lock(target: int, bytes: int)
      requires Valid()
      modifies this`ringLock
      ensures Valid() && ringLock
      ensures head.ring.Order() == old(head.ring.Order()) && RingSeq() == old(RingSeq())
      ensures SnapsOf(RingSeq()) == old(SnapsOf(RingSeq())) && SweepResult(target, bytes) == old(SweepResult(target, bytes))
    {
      ringLock := true;
    }

    /** `ring_lock = 0`, which changes nothing else. */
    method Unlock(ghost r: Scanned, ghost O: seq<CNode>, ghost objs: seq<CPersistent>, ghost snaps: seq<CObj>, ghost outcome: Outcome)
      requires Valid() && Collected(r, O, objs, snaps, outcome)
      modifies this`ringLock
      ensures Valid() && Collected(r, O, objs, snaps, outcome) && !ringLock
    {
      ringLock := false;
    }

    /**
     * `incrgc`: `lockgc` down to `IncrGcTarget` objects within `cache_size_bytes`.
     * An argument other than -999 (the default) is obsolete and issues a
     * DeprecationWarning, which fails the call when warnings are errors
     * (`warningRaises`).
     */
    method IncrGc(arg: int, warningRaises: bool) returns (outcome: Outcome)
      requires Valid()
      modifies this`ringLock, head, head.ring, RingObjects()
      ensures Valid() && ringLock == old(ringLock)
      ensures var r := old(if arg != -999 && warningRaises then Idle(true)
                           else LockGcResult(PC.IncrGcTarget(cacheSize, drainResistance, head.nonGhostCount), cacheSizeBytes));
        Collected(r, old(head.ring.Order()), old(RingSeq()), old(SnapsOf(RingSeq())), outcome)
    {
      var target := PC.IncrGcTarget(cacheSize, drainResistance, head.nonGhostCount);
      if arg != -999 && warningRaises {
        Untouched(true);
        return Fail(CallbackError);
      }
      outcome := LockGc(target, cacheSizeBytes);
    }

    /** `full_sweep`: with the default argument -999 a `lockgc` to nothing; any other argument is passed on to `incrgc`. */
    method FullSweep(dt: int, warningRaises: bool) returns (outcome: Outcome)
      requires Valid()
      modifies this`ringLock, head, head.ring, RingObjects()
      ensures Valid() && ringLock == old(ringLock)
      ensures var r := old(if dt == -999 then LockGcResult(0, 0)
                           else if warningRaises then Idle(true)
                           else LockGcResult(PC.IncrGcTarget(cacheSize, drainResistance, head.nonGhostCount), cacheSizeBytes));
        Collected(r, old(head.ring.Order()), old(RingSeq()), old(SnapsOf(RingSeq())), outcome)
    {
      if dt == -999 {
        outcome := LockGc(0, 0);
      } else {
        outcome := IncrGc(dt, warningRaises);
      }
    }

    /** `minimize`: a `lockgc` to nothing, after the same obsolete-argument warning as `incrgc`. */
    method Minimize(arg: int, warningRaises: bool) returns (outcome: Outcome)
      requires Valid()
      modifies this`ringLock, head, head.ring, RingObjects()
      ensures Valid() && ringLock == old(ringLock)
      ensures var r := old(if arg != -999 && warningRaises then Idle(true) else LockGcResult(0, 0));
        Collected(r, old(head.ring.Order()), old(RingSeq()), old(SnapsOf(RingSeq())), outcome)
    {
      if arg != -999 && warningRaises {
        Untouched(true);
        return Fail(CallbackError);
      }
      outcome := LockGc(0, 0);
    }
  }

  // ---------------------------------------------------------------- the sweep, as values

  /** What the sweep looks at in a ring object: its state, its `_p_deactivate`, its size in units. */
  datatype ScanItem = ScanItem(state: CState, hook: Hook, size: nat)

  /** Where `scan_gc_items` stopped, the counters it left, the positions it ghosted, and whether a `_p_deactivate` raised. */
  datatype Scanned = Scanned(stop: nat, count: int, total: int, ejected: set<int>, failed: bool)

  /**
   * The test at the top of `scan_gc_items`'s loop: with neither an object
   * target nor a byte target everything is scanned; otherwise the scan goes
   * on while the non-ghost count exceeds the object target or the byte
   * total exceeds the byte target (a zero target being no limit).
   */
  predicate Continue(target: int, bytes: int, count: int, total: int)
  {
    (target == 0 && bytes == 0) || (target != 0 && count > target) || (bytes != 0 && total > bytes)
  }

  /** The C loop test is the negation of the Python cache's `_sweep` stopping test. */
  lemma ContinueUnlessSatisfied(target: int, bytes: int, count: int, total: int)
    ensures Continue(target, bytes, count, total) <==> !PC.Satisfied(target, bytes, count, total)
  {
  }

  /**
   * `scan_gc_items` from position `i` of the ring objects, as they were when
   * the scan began: an up-to-date object whose base `_p_deactivate` runs is
   * ghosted, which takes it off the counters; one whose override skips the
   * base method stays; one whose override raises ends the scan with an
   * error; objects in any other state are passed over.
   */
  function ScanFrom(items: seq<ScanItem>, i: nat, target: int, bytes: int, count: int, total: int, ejected: set<int>): (r: Scanned)
    requires i <= |items|
    ensures i <= r.stop <= |items| && ejected <= r.ejected && r.count <= count
    ensures forall x | x in r.ejected && x !in ejected :: i <= x < r.stop
    ensures r.failed ==> r.stop < |items| && items[r.stop].state == UpToDate && items[r.stop].hook == Raises
    ensures !r.failed ==> r.stop == |items| || !Continue(target, bytes, r.count, r.total)
    decreases |items| - i
  {
    if i == |items| || !Continue(target, bytes, count, total) then Scanned(i, count, total, ejected, false)
    else if items[i].state != UpToDate then ScanFrom(items, i + 1, target, bytes, count, total, ejected)
    else match items[i].hook
      case BaseDeactivate =>
        ScanFrom(items, i + 1, target, bytes, count - 1, total - SizeInBytes(items[i].size), ejected + {i})
      case SkipsBase => ScanFrom(items, i + 1, target, bytes, count, total, ejected)
      case Raises => Scanned(i, count, total, ejected, true)
  }

  /** One step of `ScanFrom`: the object at `i` fails the scan, or the scan goes on past it with the counters it leaves. */
  lemma ScanFromStep(items: seq<ScanItem>, i: nat, target: int, bytes: int, count: int, total: int, ejected: set<int>,
                     count2: int, total2: int, ejected2: set<int>, failed: bool)
    requires i < |items| && Continue(target, bytes, count, total)
    requires var ej := Ejects(items[i]);
      && (failed <==> items[i].state == UpToDate && items[i].hook == Raises)
      && ejected2 == (if ej then ejected + {i} else ejected)
      && count2 == count - (if ej then 1 else 0)
      && total2 == total - (if ej then SizeInBytes(items[i].size) else 0)
    ensures failed ==> ScanFrom(items, i, target, bytes, count, total, ejected) == Scanned(i, count, total, ejected, true)
    ensures !failed ==> ScanFrom(items, i, target, bytes, count, total, ejected) == ScanFrom(items, i + 1, target, bytes, count2, total2, ejected2)
  {
  }

  /** An object is ghosted by the sweep exactly when it is up to date, its base `_p_deactivate` runs, and the scan reaches it. */
  predicate Ejects(it: ScanItem)
  {
    it.state == UpToDate && it.hook == BaseDeactivate
  }

  /** The positions the scan ghosts are exactly those it passes whose object `Ejects`. */
  lemma {:induction false} ScanEjected(items: seq<ScanItem>, i: nat, target: int, bytes: int, count: int, total: int, ejected: set<int>)
    requires i <= |items| && forall x | x in ejected :: x < i
    ensures var r := ScanFrom(items, i, target, bytes, count, total, ejected);
      forall x | i <= x < r.stop :: x in r.ejected <==> Ejects(items[x])
    decreases |items| - i
  {
    var r := ScanFrom(items, i, target, bytes, count, total, ejected);
    if i < |items| && Continue(target, bytes, count, total) {
      var it := items[i];
      if it.state != UpToDate || it.hook == SkipsBase {
        assert r == ScanFrom(items, i + 1, target, bytes, count, total, ejected);
        ScanEjected(items, i + 1, target, bytes, count, total, ejected);
        assert i !in r.ejected;
      } else if it.hook == BaseDeactivate {
        var e2 := ejected + {i};
        assert r == ScanFrom(items, i + 1, target, bytes, count - 1, total - SizeInBytes(it.size), e2);
        ScanEjected(items, i + 1, target, bytes, count - 1, total - SizeInBytes(it.size), e2);
        assert i in r.ejected;
      }
    }
  }

  /** The non-ghost count drops by one for each position the scan ghosts. */
  lemma {:induction false} ScanCounts(items: seq<ScanItem>, i: nat, target: int, bytes: int, count: int, total: int, ejected: set<int>)
    requires i <= |items| && forall x | x in ejected :: x < i
    ensures var r := ScanFrom(items, i, target, bytes, count, total, ejected);
      r.count == count - (|r.ejected| - |ejected|)
    decreases |items| - i
  {
    var r := ScanFrom(items, i, target, bytes, count, total, ejected);
    if i < |items| && Continue(target, bytes, count, total) {
      var it := items[i];
      if it.state != UpToDate || it.hook == SkipsBase {
        assert r == ScanFrom(items, i + 1, target, bytes, count, total, ejected);
        ScanCounts(items, i + 1, target, bytes, count, total, ejected);
      } else if it.hook == BaseDeactivate {
        var e2 := ejected + {i};
        assert i !in ejected;
        assert |e2| == |ejected| + 1;
        assert r == ScanFrom(items, i + 1, target, bytes, count - 1, total - SizeInBytes(it.size), e2);
        ScanCounts(items, i + 1, target, bytes, count - 1, total - SizeInBytes(it.size), e2);
      }
    }
  }

  /** A scan that does not stop early ghosts every object that `Ejects` and no other. */
  lemma FullScanEjects(items: seq<ScanItem>, count: int, total: int)
    requires forall x | 0 <= x < |items| :: items[x].hook != Raises
    ensures var r := ScanFrom(items, 0, 0, 0, count, total, {});
      && !r.failed && r.stop == |items|
      && (forall x | 0 <= x < |items| :: x in r.ejected <==> Ejects(items[x]))
      && r.count == count - |r.ejected|
  {
    ScanEjected(items, 0, 0, 0, count, total, {});
    ScanCounts(items, 0, 0, 0, count, total, {});
  }

  /**
   * `_p_deactivate()` on an up-to-date cached object with a jar whose node
   * sits after `before`: the base method ghosts it, empties its
   * `__dict__`, and takes it off the ring and the counters; an override
   * that skips it changes nothing; one that raises changes nothing and fails.
   */
  lemma DispatchOnScan(o: CObj, h: Head, me: CNode, hook: Hook, before: seq<CNode>, rest: seq<CNode>)
    requires h.order == before + [me] + rest && me !in before
    requires o.state == UpToDate && o.jar.Some? && o.cached
    ensures var r := DispatchDeactivateStep(o, h, me, hook);
      && r.obj == (if hook == BaseDeactivate then o.(state := Ghost, dict := map[]) else o)
      && r.head == (if hook == BaseDeactivate then Head(h.count - 1, h.total - SizeInBytes(o.size), before + rest) else h)
      && r.outcome == (if hook == Raises then Fail(CallbackError) else Pass)
  {
    LinkedRing.SpliceAt(before, me, rest, me);
  }

  /** The ring read from the home after `_p_deactivate`, regrouped around the placeholder. */
  lemma Regrouped(before: seq<CNode>, me: CNode, after: seq<CNode>, ejected: bool)
    ensures [Home] + (if ejected then before + ([Placeholder] + after) else before + [me] + ([Placeholder] + after))
         == (if ejected then [Home] + before else [Home] + before + [me]) + [Placeholder] + after
  {
  }

  /** An object as the base `_p_deactivate` leaves it: a ghost with an empty `__dict__`. */
  function Ghosted(o: CObj): (r: CObj)
    ensures r.state == Ghost && r.dict == map[]
    ensures r.jar == o.jar && r.oid == o.oid && r.size == o.size && r.cached == o.cached
  {
    o.(state := Ghost, dict := map[])
  }

  /** The objects of the nodes `O`, as a set. */
  ghost function ObjectsOf(O: seq<CNode>): set<CPersistent>
  {
    set n | n in O && n.Of? :: n.obj
  }

  /** The nodes' objects. */
  ghost function ObjsOf(O: seq<CNode>): (r: seq<CPersistent>)
    requires forall n | n in O :: n.Of?
    ensures |r| == |O| && forall x | 0 <= x < |r| :: O[x] == Of(r[x])
  {
    if O == [] then [] else ObjsOf(O[..|O| - 1]) + [O[|O| - 1].obj]
  }

  /** The objects' fields, in order. */
  ghost function SnapsOf(objs: seq<CPersistent>): (r: seq<CObj>)
    reads objs
    ensures |r| == |objs| && forall x | 0 <= x < |r| :: r[x] == objs[x].Snap()
  {
    if objs == [] then [] else SnapsOf(objs[..|objs| - 1]) + [objs[|objs| - 1].Snap()]
  }

  /** What the sweep looks at in each object. */
  ghost function ItemsOf(objs: seq<CPersistent>, snaps: seq<CObj>): (r: seq<ScanItem>)
    requires |snaps| == |objs|
    ensures |r| == |objs| && forall x | 0 <= x < |r| :: r[x] == ScanItem(snaps[x].state, objs[x].hook, snaps[x].size)
  {
    seq(|objs|, x requires 0 <= x < |objs| => ScanItem(snaps[x].state, objs[x].hook, snaps[x].size))
  }

  /**
   * The ring during the scan at position `i`, cut around the object there:
   * what is kept before it, the object, and the rest up to the marker.
   */
  lemma ScanCut(O: seq<CNode>, i: nat, E: set<int>)
    requires i < |O| && Distinct(O) && (forall n | n in O :: n.Of?) && forall x | x in E :: 0 <= x < i
    ensures [Home] + Keep(O[..i], E) + O[i..] + [Marker] == [Home] + Keep(O[..i], E) + [O[i]] + (O[i + 1..] + [Marker])
    ensures var before := Keep(O[..i], E);
      O[i] !in before && Home !in before && Placeholder !in before && Marker !in before
    ensures (O[i + 1..] + [Marker])[0] == if i + 1 < |O| then O[i + 1] else Marker
  {
    var before := Keep(O[..i], E);
    assert O[i..] == [O[i]] + O[i + 1..];
    Regroup3([Home] + before, [O[i]], O[i + 1..], [Marker]);
    KeepWithin(O[..i], E);
    assert O[i] !in O[..i];
    forall y | y in before
      ensures y.Of?
    {
      assert y in O[..i];
      var x :| 0 <= x < i && O[..i][x] == y;
      assert O[x] == y;
    }
  }

  /** The same ring once the scan has ghosted the object at `i` and moved past it. */
  lemma ScanDropped(O: seq<CNode>, i: nat, E: set<int>)
    requires i < |O| && forall x | x in E :: 0 <= x < i
    ensures [Home] + Keep(O[..i + 1], E + {i}) + O[i + 1..] + [Marker] == [Home] + Keep(O[..i], E) + (O[i + 1..] + [Marker])
  {
    KeepExtendDropped(O, E, i);
    Regroup2([Home] + Keep(O[..i], E), O[i + 1..], [Marker]);
  }

  /** The same ring once the scan has left the object at `i` as it was and moved past it. */
  lemma ScanKept(O: seq<CNode>, i: nat, E: set<int>)
    requires i < |O| && forall x | x in E :: 0 <= x < i
    ensures [Home] + Keep(O[..i + 1], E) + O[i + 1..] + [Marker] == [Home] + Keep(O[..i], E) + [O[i]] + (O[i + 1..] + [Marker])
  {
    assert i !in E;
    assert O[..i + 1][..i] == O[..i];
    assert Keep(O[..i + 1], E) == Keep(O[..i], E) + [O[i]];
    Regroup2([Home] + Keep(O[..i], E) + [O[i]], O[i + 1..], [Marker]);
  }

  /** Removing the last element `x`, found there. */
  lemma DropLast<T>(a: seq<T>, x: T)
    requires x !in a
    ensures IndexOf(a + [x], x) == |a| && RemoveAt(a + [x], |a|) == a
  {
    LinkedRing.SpliceAt(a, x, [], x);
    assert a + [x] + [] == a + [x];
  }

  /** What follows the first element of `[h] + a + b`. */
  lemma AfterHome<T>(h: T, a: seq<T>, b: seq<T>)
    ensures ([h] + a + b)[1..] == a + b
  {
  }

  lemma Regroup2<T>(a: seq<T>, b: seq<T>, c: seq<T>)
    ensures a + b + c == a + (b + c)
  {
  }

  lemma Regroup3<T>(a: seq<T>, b: seq<T>, c: seq<T>, d: seq<T>)
    ensures a + (b + c) + d == a + b + (c + d)
  {
  }

  /**
   * The change of the byte total when an object recorded at `units` size
   * units is re-estimated at `newSize` bytes: within one 64-byte unit above
   * the exact difference.
   */
  function SizeDelta(newSize: int, units: nat): (r: int)
    ensures 0 <= newSize <= 1073741696 ==> newSize - SizeInBytes(units) < r <= newSize + 64 - SizeInBytes(units)
    ensures newSize > 1073741696 ==> r == SizeInBytes(0xFF_FFFF - units)
  {
    SizeInBytes(P.EstimatedSizeIn24Bits(newSize) - units)
  }

  /** All but the last element. */
  function RemoveLast<T>(s: seq<T>): seq<T>
  {
    if s == [] then [] else s[..|s| - 1]
  }
}
