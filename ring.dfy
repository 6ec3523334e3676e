/**
 * The two LRU rings of src/persistent/ring.py, kept by a pickle cache to
 * know which objects to deactivate first.
 *
 * `DequeRing` keeps the objects in a sequence (the deque) and their oids in
 * a set; membership is by oid, deletion by identity.  `CffiRing` links one
 * node per object (the object's `__ring`) into the sentinel ring of
 * `LinkedRing` and maps nodes back to objects; membership is by node.
 * Both iterate from the least to the most recently used object.
 */
module PyRing {
  import opened Common
  import opened LinkedRing
  import opened Persistence

  // ---------------------------------------------------------------- the deque ring

  /** The `_p_oid`s of the objects of `s`. */
  ghost function OidsOf(s: seq<Persistent>): set<Option<Oid>>
    reads s
  {
    set i | 0 <= i < |s| :: s[i].oid
  }

  /** No two objects of `s` have the same `_p_oid` (so none occurs twice). */
  ghost predicate OidsDistinct(s: seq<Persistent>)
    reads s
  {
    forall i, j | 0 <= i < j < |s| :: s[i].oid != s[j].oid
  }

  lemma OidsAfterAppend(s: seq<Persistent>, p: Persistent)
    requires OidsDistinct(s) && p.oid !in OidsOf(s)
    ensures OidsDistinct(s + [p]) && OidsOf(s + [p]) == OidsOf(s) + {p.oid}
  {
    var t := s + [p];
    forall x | x in OidsOf(s)
      ensures x in OidsOf(t)
    {
      var i :| 0 <= i < |s| && s[i].oid == x;
      assert t[i] == s[i];
    }
    assert t[|s|] == p;
    forall i, j | 0 <= i < j < |t|
      ensures t[i].oid != t[j].oid
    {
      assert t[i] == s[i];
      if j < |s| {
        assert t[j] == s[j];
      }
    }
  }

  lemma OidsAfterRemove(s: seq<Persistent>, k: nat)
    requires k < |s| && OidsDistinct(s)
    ensures OidsDistinct(RemoveAt(s, k)) && OidsOf(RemoveAt(s, k)) == OidsOf(s) - {s[k].oid}
  {
    var t := RemoveAt(s, k);
    forall x | x in OidsOf(s) - {s[k].oid}
      ensures x in OidsOf(t)
    {
      var i :| 0 <= i < |s| && s[i].oid == x;
      if i < k {
        assert t[i] == s[i];
      } else {
        assert t[i - 1] == s[i];
      }
    }
    forall x | x in OidsOf(t)
      ensures x in OidsOf(s) - {s[k].oid}
    {
      var i :| 0 <= i < |t| && t[i].oid == x;
      if i < k {
        assert t[i] == s[i];
      } else {
        assert t[i] == s[i + 1];
      }
    }
    forall i, j | 0 <= i < j < |t|
      ensures t[i].oid != t[j].oid
    {
      var i', j' := if i < k then i else i + 1, if j < k then j else j + 1;
      assert t[i] == s[i'] && t[j] == s[j'];
    }
  }

  /** The deque and the oid set, as one value. */
  datatype DequeState<T> = DequeState(ring: seq<T>, oids: set<Option<Oid>>)

  /** The objects of `pairs`. */
  ghost function PairObjects(pairs: seq<(int, Persistent)>): set<Persistent>
  {
    set i | 0 <= i < |pairs| :: pairs[i].1
  }

  /** Each (index, object) pair as the index and the object's `_p_oid`, all that `delete_all` uses of it. */
  ghost function Keyed(pairs: seq<(int, Persistent)>): (r: seq<(int, Option<Oid>)>)
    reads PairObjects(pairs)
    ensures |r| == |pairs|
    ensures forall i | 0 <= i < |pairs| :: r[i] == (pairs[i].0, pairs[i].1.oid)
  {
    seq(|pairs|, i requires 0 <= i < |pairs| reads PairObjects(pairs) => (pairs[i].0, pairs[i].1.oid))
  }

  /**
   * `delete_all`: the (index, oid) pairs are taken from the last to the
   * first; each index (negative ones counting from the end, as Python's
   * `del d[ix]` does) is deleted from the deque and the oid discarded.  An
   * index out of range raises IndexError, leaving the deletions already made.
   */
  function DeleteAllSpec<T>(s: DequeState<T>, dels: seq<(int, Option<Oid>)>): (r: (DequeState, Outcome))
    ensures r.1.Fail? ==> r.1.error == IndexError
    ensures |r.0.ring| <= |s.ring|
    decreases |dels|
  {
    if dels == [] then (s, Pass)
    else
      var last := |dels| - 1;
      var ix := dels[last].0;
      var k := if ix < 0 then ix + |s.ring| else ix;
      if k < 0 || k >= |s.ring| then (s, Fail(IndexError))
      else DeleteAllSpec(DequeState(RemoveAt(s.ring, k), s.oids - {dels[last].1}), dels[..last])
  }

  /** The indexes of `dels`. */
  function IndexSet(dels: seq<(int, Option<Oid>)>): set<int>
  {
    set i | 0 <= i < |dels| :: dels[i].0
  }

  /** The oids of `dels`. */
  function ValueOids(dels: seq<(int, Option<Oid>)>): set<Option<Oid>>
  {
    set i | 0 <= i < |dels| :: dels[i].1
  }

  /** Strictly increasing indexes, all positions of a sequence of length `n` (as the sweep records them). */
  predicate IncreasingIndexes(dels: seq<(int, Option<Oid>)>, n: nat)
  {
    (forall i | 0 <= i < |dels| :: 0 <= dels[i].0 < n) &&
    (forall i, j | 0 <= i < j < |dels| :: dels[i].0 < dels[j].0)
  }

  /** Dropping the last pair drops its index and oid from the sets. */
  lemma SetsOfInit(dels: seq<(int, Option<Oid>)>)
    requires dels != []
    ensures IndexSet(dels) == IndexSet(dels[..|dels| - 1]) + {dels[|dels| - 1].0}
    ensures ValueOids(dels) == ValueOids(dels[..|dels| - 1]) + {dels[|dels| - 1].1}
  {
    var init := dels[..|dels| - 1];
    forall x | x in IndexSet(dels)
      ensures x in IndexSet(init) + {dels[|dels| - 1].0}
    {
      var i :| 0 <= i < |dels| && dels[i].0 == x;
      if i < |init| {
        assert init[i] == dels[i];
      }
    }
    forall x | x in ValueOids(dels)
      ensures x in ValueOids(init) + {dels[|dels| - 1].1}
    {
      var i :| 0 <= i < |dels| && dels[i].1 == x;
      if i < |init| {
        assert init[i] == dels[i];
      }
    }
    forall x | x in IndexSet(init)
      ensures x in IndexSet(dels)
    {
      var i :| 0 <= i < |init| && init[i].0 == x;
      assert init[i] == dels[i];
    }
    forall x | x in ValueOids(init)
      ensures x in ValueOids(dels)
    {
      var i :| 0 <= i < |init| && init[i].1 == x;
      assert init[i] == dels[i];
    }
  }

  /** The pairs before the last have increasing indexes, all below the last one's. */
  lemma IncreasingInit(dels: seq<(int, Option<Oid>)>, init: seq<(int, Option<Oid>)>, n: nat)
    requires dels != [] && init == dels[..|dels| - 1] && IncreasingIndexes(dels, n)
    ensures n > 0 && IncreasingIndexes(init, n - 1)
    ensures forall x | x in IndexSet(init) :: x < dels[|dels| - 1].0
  {
    var last := |dels| - 1;
    assert 0 <= dels[last].0 < n;
    forall i | 0 <= i < |init|
      ensures 0 <= init[i].0 < n - 1
    {
      assert init[i] == dels[i];
    }
    forall i, j | 0 <= i < j < |init|
      ensures init[i].0 < init[j].0
    {
      assert init[i] == dels[i] && init[j] == dels[j];
    }
    forall x | x in IndexSet(init)
      ensures x < dels[last].0
    {
      var i :| 0 <= i < |init| && init[i].0 == x;
      assert init[i] == dels[i];
    }
  }

  /**
   * With increasing indexes, deleting in reverse order means every index
   * refers to the deque before any deletion: exactly those positions go.
   */
  lemma {:induction false} DeleteAllRemovesIndexes<T>(s: DequeState<T>, dels: seq<(int, Option<Oid>)>)
    requires IncreasingIndexes(dels, |s.ring|)
    ensures DeleteAllSpec(s, dels) == (DequeState(Keep(s.ring, IndexSet(dels)), s.oids - ValueOids(dels)), Pass)
    decreases |dels|
  {
    if dels == [] {
      assert IndexSet(dels) == {} && ValueOids(dels) == {};
      KeepNothing(s.ring);
      assert s.oids - {} == s.oids;
    } else {
      var last := |dels| - 1;
      var m := dels[last].0;
      var init := dels[..last];
      var s' := DequeState(RemoveAt(s.ring, m), s.oids - {dels[last].1});
      IncreasingInit(dels, init, |s.ring|);
      DeleteAllRemovesIndexes(s', init);
      SetsOfInit(dels);
      KeepAfterRemove(s.ring, IndexSet(init), m);
      assert s.oids - {dels[last].1} - ValueOids(init) == s.oids - ValueOids(dels);
    }
  }

  lemma {:induction false} KeepNothing<T>(s: seq<T>)
    ensures Keep(s, {}) == s
  {
    if s != [] {
      KeepNothing(s[..|s| - 1]);
    }
  }

  /** `_DequeRing`. */
  class DequeRing {
    var ring: seq<Persistent>
    var ringOids: set<Option<Oid>>

    /** `ring_oids` holds exactly the oids of the deque's objects, which are all different. */
    ghost predicate Valid()
      reads this, ring
    {
      OidsDistinct(ring) && ringOids == OidsOf(ring)
    }

    function State(): DequeState<Persistent>
      reads this
    {
      DequeState(ring, ringOids)
    }

    constructor ()
      ensures Valid() && ring == [] && ringOids == {}
    {
      ring, ringOids := [], {};
    }

    /** `__len__`: the number of objects held. */
    function Len(): (n: nat)
      reads this, ring
      ensures Valid() ==> n == |ringOids|
    {
      assert Valid() ==> |ringOids| == |ring| by {
        if Valid() {
          DistinctOidsCount(ring);
        }
      }
      |ring|
    }

    /** `__contains__`: by `_p_oid`, so any object with the oid of a held object counts. */
    predicate Contains(p: Persistent)
      reads this, p
    {
      p.oid in ringOids
    }

    /** Membership is having the oid of a held object. */
    lemma ContainsByOid(p: Persistent)
      requires Valid()
      ensures Contains(p) <==> exists i | 0 <= i < |ring| :: ring[i].oid == p.oid
      ensures p in ring ==> Contains(p)
    {
      if p in ring {
        var i :| 0 <= i < |ring| && ring[i] == p;
      }
    }

    /** `add`: append at the most recently used end and record the oid. */
    method Add(p: Persistent)
      requires Valid() && !Contains(p)
      modifies this
      ensures Valid() && Contains(p)
      ensures ring == old(ring) + [p] && ringOids == old(ringOids) + {p.oid}
      ensures Len() == old(Len()) + 1
    {
      OidsAfterAppend(ring, p);
      ring := ring + [p];
      ringOids := ringOids + {p.oid};
    }

    /** `delete`: find the object by identity, remove it and discard its oid; true (1) iff it was there. */
    method Delete(p: Persistent) returns (found: bool)
      requires Valid()
      modifies this
      ensures Valid()
      ensures found <==> p in old(ring)
      ensures found ==> ring == RemoveAt(old(ring), IndexOf(old(ring), p)) && ringOids == old(ringOids) - {p.oid}
      ensures found ==> Len() == old(Len()) - 1 && !Contains(p)
      ensures !found ==> ring == old(ring) && ringOids == old(ringOids)
    {
      var i := 0;
      while i < |ring|
        invariant i <= |ring| && p !in ring[..i]
      {
        if ring[i] == p {
          IndexOfFirst(ring, p, i);
          OidsAfterRemove(ring, i);
          ring := RemoveAt(ring, i);
          ringOids := ringOids - {p.oid};
          return true;
        }
        assert ring[..i + 1] == ring[..i] + [ring[i]];
        i := i + 1;
      }
      assert ring[..i] == ring;
      return false;
    }

    /** `move_to_head`: delete, then add; the object ends most recently used, the others keep their order. */
    method MoveToHead(p: Persistent)
      requires Valid() && p in ring
      modifies this
      ensures Valid()
      ensures ring == RemoveAt(old(ring), IndexOf(old(ring), p)) + [p] && ringOids == old(ringOids)
    {
      var _ := Delete(p);
      Add(p);
    }

    /** `delete_all`: delete the (index, object) pairs in reverse order, as `DeleteAllSpec` says. */
    method DeleteAll(pairs: seq<(int, Persistent)>) returns (outcome: Outcome)
      modifies this
      ensures (State(), outcome) == DeleteAllSpec(old(State()), Keyed(pairs))
    {
      ghost var dels := Keyed(pairs);
      var i := |pairs|;
      assert dels[..i] == dels;
      while i > 0
        invariant 0 <= i <= |pairs| && Keyed(pairs) == dels
        invariant DeleteAllSpec(old(State()), dels) == DeleteAllSpec(State(), dels[..i])
      {
        assert dels[..i][..i - 1] == dels[..i - 1] && dels[..i][i - 1] == dels[i - 1];
        var ix := pairs[i - 1].0;
        assert dels[i - 1] == (ix, pairs[i - 1].1.oid);
        var k := if ix < 0 then ix + |ring| else ix;
        if k < 0 || k >= |ring| {
          return Fail(IndexError);
        }
        ring := RemoveAt(ring, k);
        ringOids := ringOids - {pairs[i - 1].1.oid};
        i := i - 1;
      }
      assert dels[..0] == [];
      return Pass;
    }
  }

  lemma DistinctOidsCount(s: seq<Persistent>)
    requires OidsDistinct(s)
    ensures |OidsOf(s)| == |s|
    decreases |s|
  {
    if s != [] {
      var t := s[..|s| - 1];
      assert OidsDistinct(t) by {
        forall i, j | 0 <= i < j < |t|
          ensures t[i].oid != t[j].oid
        {
          assert t[i] == s[i] && t[j] == s[j];
        }
      }
      DistinctOidsCount(t);
      assert s[|s| - 1].oid !in OidsOf(t);
      OidsAfterAppend(t, s[|s| - 1]);
      assert t + [s[|s| - 1]] == s;
    }
  }

  // ---------------------------------------------------------------- the node ring

  /** A slot of the linked ring: the home sentinel or an object's node. */
  datatype Slot = Home | Node(node: RingNode)

  /** The `i`th linked slot is a node that `m` maps to the `i`th object. */
  ghost predicate HeldAt(ord: seq<Slot>, m: map<RingNode, Persistent>, o: seq<Persistent>, i: nat)
    requires i < |ord| && i < |o|
  {
    ord[i].Node? && ord[i].node in m && m[ord[i].node] == o[i]
  }

  /** The node `n` is linked.  (Wrapped, so that the fact is only drawn where a proof names it.) */
  ghost predicate Listed(ord: seq<Slot>, n: RingNode)
  {
    Node(n) in ord
  }

  /**
   * The linked slots `ord` hold the objects `o` through `ring_to_obj` (`m`):
   * position by position, and with no key of `m` left unlinked.
   */
  ghost predicate Holds(ord: seq<Slot>, m: map<RingNode, Persistent>, o: seq<Persistent>)
  {
    && |ord| == |o| && |m| == |o|
    && (forall i | 0 <= i < |o| :: HeldAt(ord, m, o, i))
    && (forall n: RingNode {:trigger Listed(ord, n)} | n in m :: Listed(ord, n))
  }

  lemma HoldsAppend(ord: seq<Slot>, m: map<RingNode, Persistent>, o: seq<Persistent>, n: RingNode, p: Persistent)
    requires Holds(ord, m, o) && n !in m
    ensures Holds(ord + [Node(n)], m[n := p], o + [p])
  {
    var ord', m', o' := ord + [Node(n)], m[n := p], o + [p];
    forall i | 0 <= i < |o'|
      ensures HeldAt(ord', m', o', i)
    {
      if i < |o| {
        assert HeldAt(ord, m, o, i);
        assert ord'[i] == ord[i] && o'[i] == o[i];
      }
    }
    forall k | k in m'
      ensures Listed(ord', k)
    {
      if k != n {
        assert Listed(ord, k);
      } else {
        assert ord'[|ord|] == Node(n);
      }
    }
  }

  /** A node that `m` maps is linked. */
  lemma HoldsMapped(ord: seq<Slot>, m: map<RingNode, Persistent>, o: seq<Persistent>, n: RingNode)
    requires Holds(ord, m, o) && n in m
    ensures Node(n) in ord
  {
    assert Listed(ord, n);
  }

  /** A node that `m` does not map is not linked. */
  lemma HoldsUnmapped(ord: seq<Slot>, m: map<RingNode, Persistent>, o: seq<Persistent>, n: RingNode)
    requires Holds(ord, m, o) && n !in m
    ensures Node(n) !in ord
  {
    forall i | 0 <= i < |ord|
      ensures ord[i] != Node(n)
    {
      assert HeldAt(ord, m, o, i);
    }
  }

  lemma HoldsRemove(ord: seq<Slot>, m: map<RingNode, Persistent>, o: seq<Persistent>, k: nat)
    requires Holds(ord, m, o) && k < |o| && ord[k] !in RemoveAt(ord, k)
    ensures ord[k].Node? && Holds(RemoveAt(ord, k), m - {ord[k].node}, RemoveAt(o, k))
  {
    assert HeldAt(ord, m, o, k);
    var n := ord[k].node;
    var ord', m', o' := RemoveAt(ord, k), m - {n}, RemoveAt(o, k);
    forall i | 0 <= i < |o'|
      ensures HeldAt(ord', m', o', i)
    {
      var j := if i < k then i else i + 1;
      assert HeldAt(ord, m, o, j);
      assert ord'[i] == ord[j] && o'[i] == o[j];
    }
    forall x | x in m'
      ensures Listed(ord', x)
    {
      assert Listed(ord, x);
      var j :| 0 <= j < |ord| && ord[j] == Node(x);
      assert j != k;
      if j < k {
        assert ord'[j] == Node(x);
      } else {
        assert ord'[j - 1] == Node(x);
      }
    }
  }

  lemma HoldsMove(ord: seq<Slot>, m: map<RingNode, Persistent>, o: seq<Persistent>, k: nat)
    requires Holds(ord, m, o) && k < |o| && ord[k] !in RemoveAt(ord, k)
    ensures Holds(RemoveAt(ord, k) + [ord[k]], m, RemoveAt(o, k) + [o[k]])
  {
    HoldsRemove(ord, m, o, k);
    assert HeldAt(ord, m, o, k);
    var n := ord[k].node;
    HoldsAppend(RemoveAt(ord, k), m - {n}, RemoveAt(o, k), n, o[k]);
    assert (m - {n})[n := o[k]] == m;
  }

  /** The slot after the first `j` of `ord`: the `j`th, or home past the end. */
  function SlotAfter(ord: seq<Slot>, j: nat): Slot
  {
    if j < |ord| then ord[j] else Home
  }

  /** Removing the `j`th slot brings the one after it to position `j`. */
  lemma SlotAfterRemove(ord: seq<Slot>, j: nat)
    requires j < |ord|
    ensures SlotAfter(RemoveAt(ord, j), j) == SlotAfter(ord, j + 1)
  {
  }

  /** `_CFFIRing`. */
  class CffiRing {
    /** `ring_home` and the links of the nodes linked to it. */
    const links: Ring<Slot>
    /** `ring_to_obj`: the object of each linked node. */
    var ringToObj: map<RingNode, Persistent>
    /** The objects in ring order, least recently used first. */
    ghost var objs: seq<Persistent>

    /** The linked slots hold `objs`, and each object's `__ring` is the node that maps to it. */
    ghost predicate Valid()
      reads this, links, ringToObj.Values`ring
    {
      && links.Valid() && links.home == Home
      && Holds(links.Order(), ringToObj, objs)
      && (forall n: RingNode | n in ringToObj :: ringToObj[n].ring == Some(n))
    }

    constructor ()
      ensures Valid() && objs == [] && ringToObj == map[] && fresh(links)
    {
      links := new Ring<Slot>(Home);
      ringToObj := map[];
      objs := [];
    }

    /** Where the node `n` of `ring_to_obj` is in the ring. */
    ghost function SlotIndex(n: RingNode): (i: nat)
      reads this, links, ringToObj.Values`ring
      requires Valid() && n in ringToObj
      ensures i < |objs| && links.Order()[i] == Node(n) && ringToObj[n] == objs[i] && objs[i].ring == Some(n)
    {
      HoldsMapped(links.Order(), ringToObj, objs, n);
      var i := IndexOf(links.Order(), Node(n));
      assert HeldAt(links.Order(), ringToObj, objs, i);
      i
    }

    /** A map of the positions of the ring's objects. */
    lemma ObjsPositions() returns (pos: map<Persistent, nat>)
      requires Valid()
      ensures PositionedBy(objs, pos)
    {
      ObjsDistinct();
      pos := DistinctPositions(objs);
    }

    /** The objects of the ring are all different. */
    lemma ObjsDistinct()
      requires Valid()
      ensures Distinct(objs)
    {
      links.OrderDistinct();
      forall i, j | 0 <= i < j < |objs|
        ensures objs[i] != objs[j]
      {
        assert HeldAt(links.Order(), ringToObj, objs, i) && HeldAt(links.Order(), ringToObj, objs, j);
      }
    }

    /** `ring_node_for`: the object's node, created (when `create`) if it has none. */
    method RingNodeFor(p: Persistent, create: bool) returns (node: Option<RingNode>)
      requires Valid()
      modifies p`ring
      ensures Valid()
      ensures old(p.ring).Some? ==> node == old(p.ring) && p.ring == old(p.ring)
      ensures old(p.ring).None? && create ==> node.Some? && fresh(node.value) && p.ring == node
      ensures old(p.ring).None? && !create ==> node.None? && p.ring.None?
    {
      if p.ring.None? {
        if !create {
          return None;
        }
        assert p !in ringToObj.Values;
        var n := new RingNode();
        p.ring := Some(n);
      }
      return p.ring;
    }

    /** `__len__`: the size of `ring_to_obj`, which is the number of linked objects. */
    function Len(): (n: nat)
      reads this, links, ringToObj.Values`ring
      ensures Valid() ==> n == |objs|
    {
      |ringToObj|
    }

    /** `__contains__`: the object has a node, and the node is linked here. */
    predicate Contains(p: Persistent)
      reads this, p`ring
    {
      p.ring.Some? && p.ring.value in ringToObj
    }

    /** Membership is by node: an object is held iff an object with its very node is. */
    lemma ContainsByNode(p: Persistent)
      requires Valid()
      ensures Contains(p) <==> exists i | 0 <= i < |objs| :: objs[i].ring == p.ring
      ensures p in objs ==> Contains(p)
    {
      if Contains(p) {
        var i := SlotIndex(p.ring.value);
      }
      if exists i | 0 <= i < |objs| :: objs[i].ring == p.ring {
        var i :| 0 <= i < |objs| && objs[i].ring == p.ring;
        assert HeldAt(links.Order(), ringToObj, objs, i);
      }
      if p in objs {
        var i :| 0 <= i < |objs| && objs[i] == p;
        assert HeldAt(links.Order(), ringToObj, objs, i);
      }
    }

    /** A held object is found at its node's position. */
    lemma HeldAtSlot(p: Persistent)
      requires Valid() && p in objs
      ensures p.ring.Some? && p.ring.value in ringToObj && SlotIndex(p.ring.value) == IndexOf(objs, p)
    {
      var i := IndexOf(objs, p);
      assert HeldAt(links.Order(), ringToObj, objs, i);
      ObjsDistinct();
      DistinctIndexOf(objs, SlotIndex(p.ring.value));
    }

    /** `add`: give the object a node if needed, link it at the most recently used end and map it back. */
    method Add(p: Persistent)
      requires Valid() && !Contains(p)
      modifies this, links, p`ring
      ensures Valid() && Contains(p) && old(ringToObj).Keys <= ringToObj.Keys
      ensures objs == old(objs) + [p] && Len() == old(Len()) + 1
    {
      var node := RingNodeFor(p, true);
      var n := node.value;
      assert n !in ringToObj;
      HoldsUnmapped(links.Order(), ringToObj, objs, n);
      links.LinkedIsListed(Node(n));
      HoldsAppend(links.Order(), ringToObj, objs, n, p);
      links.Add(Node(n));
      ringToObj := ringToObj[n := p];
      objs := objs + [p];
    }

    /** Pop the node `n` from `ring_to_obj` and unlink it (`ring_del`). */
    method PopAndUnlink(n: RingNode) returns (ghost k: nat)
      requires Valid() && n in ringToObj
      modifies this, links
      ensures Valid() && k == old(SlotIndex(n)) && objs == RemoveAt(old(objs), k) && ringToObj == old(ringToObj) - {n}
      ensures links.Order() == RemoveAt(old(links.Order()), k)
    {
      ghost var ord, o, m := links.Order(), objs, ringToObj;
      k := SlotIndex(n);
      assert ord[k] !in RemoveAt(ord, k) by {
        links.OrderDistinct();
        DistinctRemoved(ord, k);
      }
      HoldsRemove(ord, m, o, k);
      links.LinkedIsListed(Node(n));
      ringToObj := ringToObj - {n};
      links.Del(Node(n));
      assert links.Order() == RemoveAt(ord, k);
      objs := RemoveAt(o, k);
    }

    /**
     * `delete`: pop the object's node from `ring_to_obj`; if it was there
     * (and linked), unlink it and answer true (1), else answer None.
     */
    method Delete(p: Persistent) returns (found: bool, ghost k: nat)
      requires Valid()
      modifies this, links
      ensures Valid()
      ensures found <==> old(Contains(p))
      ensures found ==> k < |old(objs)| && old(objs)[k].ring == p.ring && objs == RemoveAt(old(objs), k)
      ensures found ==> Len() == old(Len()) - 1 && !Contains(p)
      ensures old(p in objs) ==> k == IndexOf(old(objs), p)
      ensures !found ==> objs == old(objs) && ringToObj == old(ringToObj)
    {
      var its := p.ring;
      k := 0;
      if p in objs {
        HeldAtSlot(p);
      }
      if its.Some? && its.value in ringToObj {
        HoldsMapped(links.Order(), ringToObj, objs, its.value);
        links.LinkedIsListed(Node(its.value));
      }
      if its.Some? && its.value in ringToObj && links.Linked(Node(its.value)) {
        k := PopAndUnlink(its.value);
        found := true;
      } else {
        found := false;
      }
    }

    /** `delete_node`: pop the node's entry (KeyError if absent) and unlink it. */
    method DeleteNode(n: RingNode) returns (outcome: Outcome, ghost k: nat)
      requires Valid()
      modifies this, links
      ensures Valid()
      ensures outcome.Fail? <==> n !in old(ringToObj)
      ensures outcome.Fail? ==> outcome == Fail(KeyError) && objs == old(objs) && ringToObj == old(ringToObj)
      ensures outcome.Pass? ==> k < |old(objs)| && old(objs)[k].ring == Some(n) && objs == RemoveAt(old(objs), k)
      ensures outcome.Pass? ==> k == old(SlotIndex(n)) && links.Order() == RemoveAt(old(links.Order()), k)
      ensures outcome.Pass? ==> n !in ringToObj && Len() == old(Len()) - 1
    {
      k := 0;
      if n !in ringToObj {
        return Fail(KeyError), k;
      }
      k := PopAndUnlink(n);
      outcome := Pass;
    }

    /**
     * `move_to_head`: relink the object's node at the most recently used end;
     * the object held at that node (the object itself, when it is held) moves.
     */
    method MoveToHead(p: Persistent) returns (ghost k: nat)
      requires Valid() && Contains(p)
      modifies this, links
      ensures Valid() && ringToObj == old(ringToObj)
      ensures k < |old(objs)| && k == old(SlotIndex(p.ring.value)) && old(objs)[k].ring == p.ring
      ensures objs == RemoveAt(old(objs), k) + [old(objs)[k]]
      ensures old(p in objs) ==> k == IndexOf(old(objs), p)
    {
      if p in objs {
        HeldAtSlot(p);
      }
      var n := p.ring.value;
      k := SlotIndex(n);
      assert links.Order()[k] !in RemoveAt(links.Order(), k) by {
        links.OrderDistinct();
        DistinctRemoved(links.Order(), k);
      }
      HoldsMove(links.Order(), ringToObj, objs, k);
      links.LinkedIsListed(Node(n));
      links.MoveToHead(Node(n));
      objs := RemoveAt(objs, k) + [objs[k]];
    }

    /** Following `r_next` from the slot of position `i` (home when `i` is -1) leads to the next slot. */
    lemma NextSlot(i: int)
      requires Valid() && -1 <= i < |objs|
      ensures var s := if i < 0 then Home else links.Order()[i];
        s in links.next && links.next[s] == if i + 1 < |objs| then links.Order()[i + 1] else Home
    {
      links.NextOf(i + 1);
    }

    /** `iteritems`' cursor `here` is the slot after the first `j` linked nodes. */
    ghost predicate CursorAt(here: Slot, j: nat)
      reads this, links
      requires links.Valid()
    {
      j <= |links.Order()| && here == SlotAfter(links.Order(), j)
    }

    /** The cursor is back at home exactly when every linked node has been passed. */
    lemma CursorAtEnd(here: Slot, j: nat)
      requires Valid() && CursorAt(here, j)
      ensures here == Home <==> j == |objs|
    {
      if j < |objs| {
        assert HeldAt(links.Order(), ringToObj, objs, j);
      }
    }

    /** The start of `iteritems`: `here = head.r_next`. */
    method IterStart() returns (here: Slot)
      requires Valid()
      ensures CursorAt(here, 0)
      ensures here == Home <==> objs == []
    {
      NextSlot(-1);
      here := links.next[links.home];
    }

    /**
     * One step of `iteritems`: fetch `here.r_next` first, then yield the node
     * and its object, so that deleting the yielded node leaves the cursor
     * valid.
     */
    method IterNext(here: Slot, ghost j: nat) returns (current: RingNode, pobj: Persistent, next: Slot)
      requires Valid() && CursorAt(here, j) && here != Home
      ensures j < |objs| && pobj == objs[j] && pobj.ring == Some(current)
      ensures current in ringToObj && SlotIndex(current) == j
      ensures CursorAt(next, j + 1)
    {
      StepAt(here, j);
      current := here.node;
      next := links.next[here];
      pobj := ringToObj[current];
    }

    /** What one step of `iteritems` reads at a cursor that is not home. */
    lemma StepAt(here: Slot, j: nat)
      requires Valid() && CursorAt(here, j) && here != Home
      ensures here.Node? && here.node in ringToObj && here in links.next
      ensures j < |objs| && ringToObj[here.node] == objs[j] && objs[j].ring == Some(here.node)
      ensures SlotIndex(here.node) == j
      ensures CursorAt(links.next[here], j + 1)
    {
      assert HeldAt(links.Order(), ringToObj, objs, j);
      NextSlot(j);
      links.OrderDistinct();
      DistinctIndexOf(links.Order(), j);
    }

    /** The whole of `iteritems` (and so `__iter__`): every (node, object) pair, least recently used first. */
    method IterItems() returns (items: seq<(RingNode, Persistent)>)
      requires Valid()
      ensures |items| == |objs|
      ensures forall i | 0 <= i < |items| :: items[i].1 == objs[i] && objs[i].ring == Some(items[i].0)
    {
      var here := IterStart();
      items := [];
      while here != Home
        invariant |items| <= |objs| && CursorAt(here, |items|)
        invariant forall i | 0 <= i < |items| :: items[i].1 == objs[i] && objs[i].ring == Some(items[i].0)
        decreases |objs| - |items|
      {
        var current, pobj, next := IterNext(here, |items|);
        items := items + [(current, pobj)];
        here := next;
      }
    }
  }
}
