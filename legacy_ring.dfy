/**
 * The two LRU rings of the legacy persistent/ring.py, over the legacy
 * `Persistent` objects.
 *
 * `DequeRing` is the deque and oid set of the current version; here its
 * invariant is stated on the sequence of the held objects' oids.
 * `CffiRing` differs from the current node ring: `add` makes a fresh node
 * every time, and `delete` tolerates an object with no node or an unlinked
 * one.  Nothing ties an object's node back to it, so the ring is described
 * by its linked nodes and `ring_to_obj` alone.
 */
module LegacyRing {
  import opened Common
  import opened LinkedRing
  import PyRing
  import opened LegacyPersistence

  // ---------------------------------------------------------------- the deque ring

  /** The `_p_oid`s of the objects of `s`, position by position. */
  ghost function Oids(s: seq<Persistent>): (r: seq<Option<Oid>>)
    reads s`oid
    ensures |r| == |s| && forall i | 0 <= i < |s| :: r[i] == s[i].oid
  {
    if s == [] then [] else Oids(s[..|s| - 1]) + [s[|s| - 1].oid]
  }

  lemma OidsAppend(s: seq<Persistent>, p: Persistent)
    ensures Oids(s + [p]) == Oids(s) + [p.oid]
  {
    assert forall i | 0 <= i < |s| :: (s + [p])[i] == s[i];
  }

  lemma OidsRemoveAt(s: seq<Persistent>, k: nat)
    requires k < |s|
    ensures Oids(RemoveAt(s, k)) == RemoveAt(Oids(s), k)
  {
  }

  /** Objects with different oids are different objects. */
  lemma OidsDistinctObjects(s: seq<Persistent>)
    requires Distinct(Oids(s))
    ensures Distinct(s)
  {
    forall i, j | 0 <= i < j < |s|
      ensures s[i] != s[j]
    {
      assert Oids(s)[i] != Oids(s)[j];
    }
  }

  /** Each (index, object) pair as the index and the object's `_p_oid`, all that `delete_all` uses of it. */
  ghost function Keyed(pairs: seq<(int, Persistent)>): (r: seq<(int, Option<Oid>)>)
    reads set i | 0 <= i < |pairs| :: pairs[i].1
    ensures |r| == |pairs|
    ensures forall i | 0 <= i < |pairs| :: r[i] == (pairs[i].0, pairs[i].1.oid)
  {
    seq(|pairs|, i requires 0 <= i < |pairs| reads set i | 0 <= i < |pairs| :: pairs[i].1 => (pairs[i].0, pairs[i].1.oid))
  }

  /** `_DequeRing`. */
  class DequeRing {
    var ring: seq<Persistent>
    var ringOids: set<Option<Oid>>

    /** The held objects' oids are all different and `ring_oids` is their set. */
    ghost predicate Valid()
      reads this, ring`oid
    {
      Distinct(Oids(ring)) && ringOids == SetOf(Oids(ring))
    }

    function State(): PyRing.DequeState<Persistent>
      reads this
    {
      PyRing.DequeState(ring, ringOids)
    }

    constructor ()
      ensures Valid() && ring == [] && ringOids == {}
    {
      ring, ringOids := [], {};
    }

    /** `__len__`: the length of the deque, which is the number of oids held. */
    function Len(): (n: nat)
      reads this, ring`oid
      ensures Valid() ==> n == |ringOids|
    {
      assert Valid() ==> |ringOids| == |ring| by {
        if Valid() {
          DistinctCard(Oids(ring));
        }
      }
      |ring|
    }

    /** `__contains__`: by `_p_oid`. */
    predicate Contains(p: Persistent)
      reads this, p`oid
    {
      p.oid in ringOids
    }

    /** Membership is having the oid of a held object; every held object is a member. */
    lemma ContainsByOid(p: Persistent)
      requires Valid()
      ensures Contains(p) <==> exists i | 0 <= i < |ring| :: ring[i].oid == p.oid
      ensures p in ring ==> Contains(p)
    {
      if Contains(p) {
        var i :| 0 <= i < |ring| && Oids(ring)[i] == p.oid;
      }
      if p in ring {
        var i :| 0 <= i < |ring| && ring[i] == p;
        assert Oids(ring)[i] == p.oid;
      }
    }

    /** `add`: append at the most recently used end and record the oid. */
    method Add(p: Persistent)
      requires Valid() && !Contains(p)
      modifies this
      ensures Valid() && Contains(p)
      ensures ring == old(ring) + [p] && ringOids == old(ringOids) + {p.oid}
      ensures Len() == old(Len()) + 1
    {
      OidsAppend(ring, p);
      DistinctAppend(Oids(ring), p.oid);
      ring := ring + [p];
      ringOids := ringOids + {p.oid};
    }

    /** `delete`: scan with a counter for the first identical object, remove it and discard its oid; 1 iff found, else None. */
    method Delete(p: Persistent) returns (found: bool)
      requires Valid()
      modifies this
      ensures Valid()
      ensures found <==> p in old(ring)
      ensures found ==> ring == RemoveAt(old(ring), IndexOf(old(ring), p)) && ringOids == old(ringOids) - {p.oid}
      ensures found ==> Len() == old(Len()) - 1 && !Contains(p)
      ensures !found ==> ring == old(ring) && ringOids == old(ringOids)
    {
      var i := 0;
      while i < |ring|
        invariant i <= |ring| && p !in ring[..i]
      {
        if ring[i] == p {
          IndexOfFirst(ring, p, i);
          OidsRemoveAt(ring, i);
          DistinctRemoveAt(Oids(ring), i);
          assert Oids(ring)[i] == p.oid;
          ring := RemoveAt(ring, i);
          ringOids := ringOids - {p.oid};
          return true;
        }
        assert ring[..i + 1] == ring[..i] + [ring[i]];
        i := i + 1;
      }
      assert ring[..i] == ring;
      return false;
    }

    /** `move_to_head`: delete, then add; the object ends most recently used, the others keep their order. */
    method MoveToHead(p: Persistent)
      requires Valid() && p in ring
      modifies this
      ensures Valid()
      ensures ring == RemoveAt(old(ring), IndexOf(old(ring), p)) + [p] && ringOids == old(ringOids)
    {
      var _ := Delete(p);
      Add(p);
    }

    /** `delete_all`: delete the (index, object) pairs in reverse order, as `PyRing.DeleteAllSpec` says. */
    method DeleteAll(pairs: seq<(int, Persistent)>) returns (outcome: Outcome)
      modifies this
      ensures (State(), outcome) == PyRing.DeleteAllSpec(old(State()), old(Keyed(pairs)))
    {
      ghost var dels := Keyed(pairs);
      var i := |pairs|;
      assert dels[..i] == dels;
      while i > 0
        invariant 0 <= i <= |pairs| && Keyed(pairs) == dels
        invariant PyRing.DeleteAllSpec(old(State()), dels) == PyRing.DeleteAllSpec(State(), dels[..i])
      {
        assert dels[..i][..i - 1] == dels[..i - 1] && dels[..i][i - 1] == dels[i - 1];
        var ix := pairs[i - 1].0;
        assert dels[i - 1] == (ix, pairs[i - 1].1.oid);
        var k := if ix < 0 then ix + |ring| else ix;
        if k < 0 || k >= |ring| {
          return Fail(IndexError);
        }
        ring := RemoveAt(ring, k);
        ringOids := ringOids - {pairs[i - 1].1.oid};
        i := i - 1;
      }
      assert dels[..0] == [];
      return Pass;
    }
  }

  // ---------------------------------------------------------------- the node ring

  /** The `_Persistent__ring` attributes of the values of `pairs`. */
  ghost function RingsOf(pairs: seq<(int, Persistent)>): (r: seq<Option<RingNode>>)
    reads set i | 0 <= i < |pairs| :: pairs[i].1
    ensures |r| == |pairs| && forall i | 0 <= i < |pairs| :: r[i] == pairs[i].1.ring
  {
    seq(|pairs|, i requires 0 <= i < |pairs| reads set i | 0 <= i < |pairs| :: pairs[i].1 => pairs[i].1.ring)
  }

  /** The nodes among `rs`. */
  ghost function NodeSet(rs: seq<Option<RingNode>>): (r: set<RingNode>)
    ensures forall i | 0 <= i < |rs| && rs[i].Some? :: rs[i].value in r
  {
    if rs == [] then {}
    else
      var init := rs[..|rs| - 1];
      assert forall i | 0 <= i < |init| :: init[i] == rs[i];
      NodeSet(init) + (if rs[|rs| - 1].Some? then {rs[|rs| - 1].value} else {})
  }

  /** The slots of a set of nodes. */
  ghost function Slots(nodes: set<RingNode>): set<PyRing.Slot>
  {
    set n | n in nodes :: PyRing.Node(n)
  }

  /** `_CFFIRing`. */
  class CffiRing {
    /** `ring_home` and the links of the nodes linked to it. */
    const links: Ring<PyRing.Slot>
    /** `ring_to_obj`: the object each node was added for. */
    var ringToObj: map<RingNode, Persistent>

    /** The keys of `ring_to_obj` are exactly the linked nodes. */
    ghost predicate Valid()
      reads this, links
    {
      && links.Valid() && links.home == PyRing.Home
      && (forall n | n in ringToObj :: PyRing.Listed(links.Order(), n))
      && (forall i | 0 <= i < |links.Order()| :: links.Order()[i].Node? && links.Order()[i].node in ringToObj)
    }

    /** A node is a key of `ring_to_obj` iff it is linked. */
    lemma Mapped(n: RingNode)
      requires Valid()
      ensures n in ringToObj <==> PyRing.Listed(links.Order(), n)
    {
      if PyRing.Listed(links.Order(), n) {
        var i := IndexOf(links.Order(), PyRing.Node(n));
      }
    }

    /** The invariant, from the keys being the linked nodes. */
    lemma Establish()
      requires links.Valid() && links.home == PyRing.Home
      requires forall n: RingNode :: n in ringToObj <==> PyRing.Listed(links.Order(), n)
      ensures Valid()
    {
      links.OrderDistinct();
      forall i | 0 <= i < |links.Order()|
        ensures links.Order()[i].Node? && links.Order()[i].node in ringToObj
      {
        var s := links.Order()[i];
        assert s != PyRing.Home;
        assert PyRing.Listed(links.Order(), s.node);
      }
    }

    constructor ()
      ensures Valid() && ringToObj == map[] && links.Order() == [] && fresh(links)
    {
      links := new Ring<PyRing.Slot>(PyRing.Home);
      ringToObj := map[];
    }

    /** `__len__`: the number of entries of `ring_to_obj`. */
    function Len(): nat
      reads this
    {
      |ringToObj|
    }

    /** `__contains__`: the object has a node and the node is in `ring_to_obj`. */
    predicate Contains(p: Persistent)
      reads this, p
    {
      p.ring.Some? && p.ring.value in ringToObj
    }

    /** A member's node is linked, and a linked node is a member's. */
    lemma ContainsIsLinked(p: Persistent)
      requires Valid()
      ensures Contains(p) <==> p.ring.Some? && links.Linked(PyRing.Node(p.ring.value))
    {
      if p.ring.Some? {
        Mapped(p.ring.value);
        links.LinkedIsListed(PyRing.Node(p.ring.value));
      }
    }

    /**
     * `add`: always a fresh node, linked at the most recently used end and
     * mapped to the object, which records it.  A node the object had before
     * stays linked and mapped.
     */
    method Add(p: Persistent)
      requires Valid()
      modifies this, links, p`ring
      ensures Valid() && Contains(p)
      ensures p.ring.Some? && fresh(p.ring.value)
      ensures links.Order() == old(links.Order()) + [PyRing.Node(p.ring.value)]
      ensures ringToObj == old(ringToObj)[p.ring.value := p] && Len() == old(Len()) + 1
    {
      ghost var m, o := ringToObj, links.Order();
      forall n: RingNode
        ensures n in m <==> PyRing.Listed(o, n)
      {
        Mapped(n);
      }
      var node := new RingNode();
      assert node !in m;
      links.LinkedIsListed(PyRing.Node(node));
      links.Add(PyRing.Node(node));
      ringToObj := ringToObj[node := p];
      p.ring := Some(node);
      forall n: RingNode
        ensures n in ringToObj <==> PyRing.Listed(links.Order(), n)
      {
        assert PyRing.Listed(links.Order(), n) <==> PyRing.Listed(o, n) || n == node;
      }
      Establish();
    }

    /**
     * `delete`: unlink the object's node if it has one that is linked, then
     * drop the node from `ring_to_obj` if there; an object with no node, or
     * one already deleted, changes nothing.
     */
    method Delete(p: Persistent)
      requires Valid()
      modifies this, links
      ensures Valid() && !Contains(p)
      ensures old(Contains(p)) ==>
        links.Order() == RemoveAt(old(links.Order()), IndexOf(old(links.Order()), PyRing.Node(p.ring.value)))
      ensures old(Contains(p)) ==> ringToObj == old(ringToObj) - {p.ring.value} && Len() == old(Len()) - 1
      ensures !old(Contains(p)) ==> links.Order() == old(links.Order()) && ringToObj == old(ringToObj)
    {
      var node := p.ring;
      if node.Some? {
        var slot := PyRing.Node(node.value);
        ContainsIsLinked(p);
        if links.Linked(slot) {
          Unmap(node.value);
        } else {
          assert ringToObj - {node.value} == ringToObj;
        }
      }
    }

    /** Unlink a linked node and drop it from `ring_to_obj`. */
    method Unmap(n: RingNode)
      requires Valid() && links.Linked(PyRing.Node(n))
      modifies this, links
      ensures Valid() && ringToObj == old(ringToObj) - {n} && n in old(ringToObj)
      ensures links.Order() == RemoveAt(old(links.Order()), IndexOf(old(links.Order()), PyRing.Node(n)))
    {
      ghost var m, o := ringToObj, links.Order();
      forall x: RingNode
        ensures x in m <==> PyRing.Listed(o, x)
      {
        Mapped(x);
      }
      links.LinkedIsListed(PyRing.Node(n));
      links.OrderDistinct();
      links.Del(PyRing.Node(n));
      ringToObj := ringToObj - {n};
      DistinctRemoveAtSlots(o, IndexOf(o, PyRing.Node(n)));
      Establish();
    }

    /** `move_to_head`: the object's node goes to the most recently used end; AttributeError if it never had one. */
    method MoveToHead(p: Persistent) returns (outcome: Outcome)
      requires Valid() && (p.ring.Some? ==> Contains(p))
      modifies links
      ensures Valid()
      ensures outcome.Fail? <==> p.ring.None?
      ensures outcome.Fail? ==> outcome.error == AttributeError && links.Order() == old(links.Order())
      ensures outcome.Pass? ==>
                links.Order() == RemoveAt(old(links.Order()), IndexOf(old(links.Order()), PyRing.Node(p.ring.value)))
                                 + [PyRing.Node(p.ring.value)]
    {
      if p.ring.None? {
        return Fail(AttributeError);
      }
      ghost var m, o := ringToObj, links.Order();
      forall x: RingNode
        ensures x in m <==> PyRing.Listed(o, x)
      {
        Mapped(x);
      }
      var slot := PyRing.Node(p.ring.value);
      ContainsIsLinked(p);
      links.OrderDistinct();
      links.MoveToHead(slot);
      DistinctRemoveAtSlots(o, IndexOf(o, slot));
      forall x: RingNode
        ensures x in ringToObj <==> PyRing.Listed(links.Order(), x)
      {
        assert PyRing.Listed(links.Order(), x) <==> PyRing.Listed(RemoveAt(o, IndexOf(o, slot)), x) || PyRing.Node(x) == slot;
      }
      Establish();
      return Pass;
    }

    /**
     * `delete_all`: `delete` each value of the (index, value) pairs, first to
     * last; the indexes are not used.  The nodes of the values go, the other
     * nodes stay linked in their order.
     */
    method DeleteAll(pairs: seq<(int, Persistent)>)
      requires Valid()
      modifies this, links
      ensures Valid()
      ensures ringToObj == old(ringToObj) - NodeSet(old(RingsOf(pairs)))
      ensures links.Order() == Filter(old(links.Order()), Slots(NodeSet(old(RingsOf(pairs)))))
      ensures forall i | 0 <= i < |pairs| :: !Contains(pairs[i].1)
    {
      var i := 0;
      ghost var m0, o0, rs := ringToObj, links.Order(), RingsOf(pairs);
      FilterUntouched(o0, {});
      assert rs[..0] == [] && Slots({}) == {} && m0 - {} == m0;
      while i < |pairs|
        invariant i <= |pairs| && forall k | 0 <= k < |pairs| :: pairs[k].1.ring == rs[k]
        invariant DeletedUpTo(rs[..i], m0, o0)
      {
        assert rs[..i + 1][..i] == rs[..i] && rs[..i + 1][i] == rs[i];
        DeleteOne(pairs[i].1, rs[..i + 1], m0, o0);
        i := i + 1;
      }
      assert rs[..i] == rs;
      forall k | 0 <= k < |pairs|
        ensures !Contains(pairs[k].1)
      {
        assert pairs[k].1.ring == rs[k];
      }
    }

    /** The ring is valid and the nodes among `rs` are gone from the map `m0` and the linked slots `o0`. */
    ghost predicate DeletedUpTo(rs: seq<Option<RingNode>>, m0: map<RingNode, Persistent>, o0: seq<PyRing.Slot>)
      reads this, links
    {
      && Valid()
      && ringToObj == m0 - NodeSet(rs)
      && links.Order() == Filter(o0, Slots(NodeSet(rs)))
    }

    /** One step of `delete_all`: the value's node, the last of `rs`, joins the deleted ones. */
    method DeleteOne(p: Persistent, ghost rs: seq<Option<RingNode>>, ghost m0: map<RingNode, Persistent>, ghost o0: seq<PyRing.Slot>)
      requires rs != [] && rs[|rs| - 1] == p.ring && DeletedUpTo(rs[..|rs| - 1], m0, o0)
      modifies this, links
      ensures DeletedUpTo(rs, m0, o0) && !Contains(p)
    {
      ghost var m, o := ringToObj, links.Order();
      if p.ring.Some? {
        Mapped(p.ring.value);
      }
      links.OrderDistinct();
      Delete(p);
      DeletedMore(rs, m0, o0, m, ringToObj, o, links.Order());
    }
  }

  /** `DeletedUpTo`'s map and order, one node further: the last of `rs` leaves both if it was there. */
  lemma DeletedMore(rs: seq<Option<RingNode>>, m0: map<RingNode, Persistent>, o0: seq<PyRing.Slot>,
                    m: map<RingNode, Persistent>, m2: map<RingNode, Persistent>, o: seq<PyRing.Slot>, o2: seq<PyRing.Slot>)
    requires rs != [] && m == m0 - NodeSet(rs[..|rs| - 1]) && o == Filter(o0, Slots(NodeSet(rs[..|rs| - 1]))) && Distinct(o)
    requires var last := rs[|rs| - 1];
      && (last.Some? ==> (last.value in m <==> PyRing.Node(last.value) in o))
      && (last.Some? && last.value in m ==> m2 == m - {last.value} && o2 == RemoveAt(o, IndexOf(o, PyRing.Node(last.value))))
      && (!(last.Some? && last.value in m) ==> m2 == m && o2 == o)
    ensures m2 == m0 - NodeSet(rs) && o2 == Filter(o0, Slots(NodeSet(rs)))
  {
    var a := NodeSet(rs[..|rs| - 1]);
    NodeSetLast(rs);
    var last := rs[|rs| - 1];
    if last.Some? {
      FilterStep(o0, a, last.value, o, o2);
      MapRemoveMore(m0, a, last.value);
      if last.value !in m {
        assert last.value in a || last.value !in m0;
        assert m0 - (a + {last.value}) == m;
      }
    } else {
      assert NodeSet(rs) == a;
    }
  }

  /** The nodes of a sequence one longer. */
  lemma NodeSetLast(rs: seq<Option<RingNode>>)
    requires rs != []
    ensures var last := rs[|rs| - 1];
      NodeSet(rs) == NodeSet(rs[..|rs| - 1]) + (if last.Some? then {last.value} else {})
  {
  }

  /** Deleting one more node from a filtered ring is filtering by one more node. */
  lemma FilterStep(o0: seq<PyRing.Slot>, a: set<RingNode>, n: RingNode, o: seq<PyRing.Slot>, o': seq<PyRing.Slot>)
    requires o == Filter(o0, Slots(a)) && Distinct(o)
    requires PyRing.Node(n) in o ==> o' == RemoveAt(o, IndexOf(o, PyRing.Node(n)))
    requires PyRing.Node(n) !in o ==> o' == o
    ensures o' == Filter(o0, Slots(a + {n}))
  {
    assert Slots(a + {n}) == Slots(a) + {PyRing.Node(n)};
    if PyRing.Node(n) in o {
      FilterRemoveAt(o, IndexOf(o, PyRing.Node(n)));
    } else {
      FilterUntouched(o, {PyRing.Node(n)});
    }
    FilterMore(o0, Slots(a), PyRing.Node(n));
  }

  /** The slots of a sequence without repeats, less one of them, are the others. */
  lemma DistinctRemoveAtSlots(s: seq<PyRing.Slot>, k: nat)
    requires Distinct(s) && k < |s|
    ensures forall n: RingNode :: PyRing.Listed(RemoveAt(s, k), n) <==> PyRing.Listed(s, n) && PyRing.Node(n) != s[k]
  {
    DistinctRemoved(s, k);
    forall n: RingNode | PyRing.Listed(s, n) && PyRing.Node(n) != s[k]
      ensures PyRing.Listed(RemoveAt(s, k), n)
    {
      var i :| 0 <= i < |s| && s[i] == PyRing.Node(n);
      assert RemoveAt(s, k)[if i < k then i else i - 1] == s[i];
    }
    forall n: RingNode | PyRing.Listed(RemoveAt(s, k), n)
      ensures PyRing.Listed(s, n)
    {
      var i :| 0 <= i < |RemoveAt(s, k)| && RemoveAt(s, k)[i] == PyRing.Node(n);
      assert s[if i < k then i else i + 1] == PyRing.Node(n);
    }
  }
}
