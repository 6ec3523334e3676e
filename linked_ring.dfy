/**
 * The sentinel-headed, doubly linked LRU ring of `CPersistentRing` nodes
 * (the `r_prev`/`r_next` links), with the two splices of cPickleCache.c,
 * `insert_after` and `unlink_from_ring`, and the `ring_add`, `ring_del` and
 * `ring_move_to_head` operations built from them.
 *
 * The links are kept as two maps: a node has an entry exactly while it is
 * linked (unlinking clears its links).  The ghost `cycle` lists the
 * linked nodes from the sentinel `home` round to `home.r_prev`, so after the
 * sentinel they run from the least to the most recently used; a ghost map
 * gives each node's position, and `Valid` ties the links to both.
 */
module LinkedRing {
  import opened Common

  /** The position after `i` going round a cycle of length `len`. */
  function Succ(i: nat, len: nat): nat
  {
    if i + 1 < len then i + 1 else 0
  }

  /** `ps` gives the position in `c` of each node of `c`, and of nothing else; so `c` has no repeats. */
  ghost predicate PosOK<N>(c: seq<N>, ps: map<N, nat>)
  {
    && (forall n | n in ps :: ps[n] < |c| && c[ps[n]] == n)
    && (forall i | 0 <= i < |c| :: c[i] in ps && ps[c[i]] == i)
  }

  /** The position before `i` going round a cycle of length `len`. */
  function Pred(i: nat, len: nat): nat
    requires i < len
  {
    if i == 0 then len - 1 else i - 1
  }

  /** The links of the node at position `i` of `c` lead to its neighbours. */
  ghost predicate LinkAt<N>(c: seq<N>, nx: map<N, N>, pv: map<N, N>, i: nat)
    requires i < |c|
  {
    c[i] in nx && nx[c[i]] == c[Succ(i, |c|)] && c[i] in pv && pv[c[i]] == c[Pred(i, |c|)]
  }

  /**
   * `r_next` and `r_prev` of every node of `c` point to its neighbours in `c`.
   * (Each position's facts are wrapped in `LinkAt`, so that they are only
   * instantiated where a proof names the position.)
   */
  ghost predicate LinksOK<N>(c: seq<N>, nx: map<N, N>, pv: map<N, N>)
  {
    forall i | 0 <= i < |c| :: LinkAt(c, nx, pv, i)
  }

  /** The links describe the cycle `c`: exactly its nodes have links, and they are its links. */
  ghost predicate RingOK<N>(c: seq<N>, nx: map<N, N>, pv: map<N, N>, ps: map<N, nat>)
  {
    |c| > 0 && PosOK(c, ps) && nx.Keys == ps.Keys && pv.Keys == ps.Keys && LinksOK(c, nx, pv)
  }

  function Inserted<N>(c: seq<N>, k: nat, x: N): seq<N>
    requires k < |c|
  {
    c[..k + 1] + [x] + c[k + 1..]
  }

  lemma InsertedIndex<N>(c: seq<N>, k: nat, x: N)
    requires k < |c|
    ensures |Inserted(c, k, x)| == |c| + 1
    ensures forall i {:trigger Inserted(c, k, x)[i]} :: 0 <= i <= k ==> Inserted(c, k, x)[i] == c[i]
    ensures Inserted(c, k, x)[k + 1] == x
    ensures forall i {:trigger Inserted(c, k, x)[i]} :: k + 2 <= i < |c| + 1 ==> Inserted(c, k, x)[i] == c[i - 1]
  {
  }

  /** Where `x` sits after `a`, before `b`: found at `|a|`, removed there, or followed there by `y`. */
  lemma SpliceAt<N>(a: seq<N>, x: N, b: seq<N>, y: N)
    requires x !in a
    ensures IndexOf(a + [x] + b, x) == |a|
    ensures RemoveAt(a + [x] + b, |a|) == a + b
    ensures Inserted(a + [x] + b, |a|, y) == a + [x, y] + b
  {
    var c := a + [x] + b;
    assert c[|a|] == x && c[..|a|] == a;
    IndexOfFirst(c, x, |a|);
    assert c[..|a| + 1] == a + [x] && c[|a| + 1..] == b;
  }

  /** The positions after inserting `x` at position `k + 1`. */
  ghost function InsertedPos<N>(ps: map<N, nat>, k: nat, x: N): map<N, nat>
  {
    map n | n in ps.Keys + {x} :: if n == x then k + 1 else if ps[n] <= k then ps[n] else ps[n] + 1
  }

  /** The positions after removing the node `x` from position `k`. */
  ghost function RemovedPos<N>(ps: map<N, nat>, k: nat, x: N): map<N, nat>
    requires 0 < k
  {
    map n | n in ps.Keys - {x} :: if ps[n] < k then ps[n] else ps[n] - 1
  }

  lemma InsertPos<N>(c: seq<N>, k: nat, x: N, ps: map<N, nat>)
    requires k < |c| && PosOK(c, ps) && x !in ps
    ensures PosOK(Inserted(c, k, x), InsertedPos(ps, k, x))
  {
    var c', ps' := Inserted(c, k, x), InsertedPos(ps, k, x);
    InsertedIndex(c, k, x);
    forall n | n in ps'
      ensures ps'[n] < |c'| && c'[ps'[n]] == n
    {
      if n != x {
        assert c[ps[n]] == n;
      }
    }
    forall i | 0 <= i < |c'|
      ensures c'[i] in ps' && ps'[c'[i]] == i
    {
      if i <= k {
        assert c'[i] == c[i] && ps[c[i]] == i;
      } else if i > k + 1 {
        assert c'[i] == c[i - 1] && ps[c[i - 1]] == i - 1;
      }
    }
  }

  lemma RemovePos<N>(c: seq<N>, k: nat, ps: map<N, nat>)
    requires 0 < k < |c| && PosOK(c, ps)
    ensures PosOK(RemoveAt(c, k), RemovedPos(ps, k, c[k]))
  {
    var c', ps' := RemoveAt(c, k), RemovedPos(ps, k, c[k]);
    forall n | n in ps'
      ensures ps'[n] < |c'| && c'[ps'[n]] == n
    {
      assert c[ps[n]] == n && ps[n] != k;
    }
    forall i | 0 <= i < |c'|
      ensures c'[i] in ps' && ps'[c'[i]] == i
    {
      if i < k {
        assert c'[i] == c[i] && ps[c[i]] == i;
      } else {
        assert c'[i] == c[i + 1] && ps[c[i + 1]] == i + 1;
      }
    }
  }

  /** After `insert_after`, `r_next` at position `i` of the new cycle is right. */
  lemma InsertNextAt<N>(c: seq<N>, k: nat, x: N, nx: map<N, N>, pv: map<N, N>, ps: map<N, nat>, i: nat)
    requires RingOK(c, nx, pv, ps) && k < |c| && x !in ps && i < |c| + 1
    ensures var c', nx' := Inserted(c, k, x), nx[c[k] := x][x := c[Succ(k, |c|)]];
      c'[i] in nx' && nx'[c'[i]] == c'[Succ(i, |c'|)]
  {
    var L := |c|;
    var c' := Inserted(c, k, x);
    InsertedIndex(c, k, x);
    assert ps[c[k]] == k;
    if i < k {
      assert c'[i] == c[i] && c'[i + 1] == c[i + 1] && ps[c[i]] == i;
      assert LinkAt(c, nx, pv, i);
    } else if i == k + 1 {
      if k + 2 < L + 1 {
        assert c'[k + 2] == c[k + 1];
      }
    } else if i > k + 1 {
      assert c'[i] == c[i - 1] && ps[c[i - 1]] == i - 1;
      assert LinkAt(c, nx, pv, i - 1);
      if i + 1 < L + 1 {
        assert c'[i + 1] == c[i];
      }
    }
  }

  /** After `insert_after`, `r_prev` at position `i` of the new cycle is right. */
  lemma InsertPrevAt<N>(c: seq<N>, k: nat, x: N, nx: map<N, N>, pv: map<N, N>, ps: map<N, nat>, i: nat)
    requires RingOK(c, nx, pv, ps) && k < |c| && x !in ps && i < |c| + 1
    ensures var c', pv' := Inserted(c, k, x), pv[x := c[k]][c[Succ(k, |c|)] := x];
      c'[i] in pv' && pv'[c'[i]] == c'[Pred(i, |c'|)]
  {
    var L := |c|;
    var c' := Inserted(c, k, x);
    var b := c[Succ(k, L)];
    InsertedIndex(c, k, x);
    assert ps[b] == Succ(k, L);
    if i == 0 {
      assert c'[0] == c[0] && ps[c[0]] == 0;
      assert LinkAt(c, nx, pv, 0);
      if k + 1 < L {
        assert c'[L] == c[L - 1];
      }
    } else if i <= k {
      assert c'[i] == c[i] && c'[i - 1] == c[i - 1] && ps[c[i]] == i;
      assert LinkAt(c, nx, pv, i);
    } else if i == k + 2 {
      assert c'[k + 2] == c[k + 1];
    } else if i > k + 2 {
      assert c'[i] == c[i - 1] && c'[i - 1] == c[i - 2] && ps[c[i - 1]] == i - 1;
      assert LinkAt(c, nx, pv, i - 1);
    }
  }

  lemma InsertLinks<N>(c: seq<N>, k: nat, x: N, nx: map<N, N>, pv: map<N, N>, ps: map<N, nat>)
    requires RingOK(c, nx, pv, ps) && k < |c| && x !in ps
    ensures RingOK(Inserted(c, k, x), nx[c[k] := x][x := c[Succ(k, |c|)]],
                   pv[x := c[k]][c[Succ(k, |c|)] := x], InsertedPos(ps, k, x))
  {
    var c', ps' := Inserted(c, k, x), InsertedPos(ps, k, x);
    var nx', pv' := nx[c[k] := x][x := c[Succ(k, |c|)]], pv[x := c[k]][c[Succ(k, |c|)] := x];
    InsertedIndex(c, k, x);
    InsertPos(c, k, x, ps);
    assert c[k] in ps && c[Succ(k, |c|)] in ps;
    assert nx'.Keys == ps'.Keys && pv'.Keys == ps'.Keys;
    forall i | 0 <= i < |c'|
      ensures LinkAt(c', nx', pv', i)
    {
      InsertNextAt(c, k, x, nx, pv, ps, i);
      InsertPrevAt(c, k, x, nx, pv, ps, i);
    }
  }

  /** After `unlink_from_ring`, `r_next` at position `i` of the new cycle is right. */
  lemma RemoveNextAt<N>(c: seq<N>, k: nat, nx: map<N, N>, pv: map<N, N>, ps: map<N, nat>, i: nat)
    requires RingOK(c, nx, pv, ps) && 0 < k < |c| && i < |c| - 1
    ensures var c', nx' := RemoveAt(c, k), (nx - {c[k]})[c[k - 1] := c[Succ(k, |c|)]];
      c'[i] in nx' && nx'[c'[i]] == c'[Succ(i, |c'|)]
  {
    var L := |c|;
    var c' := RemoveAt(c, k);
    assert ps[c[k]] == k && ps[c[k - 1]] == k - 1;
    if i < k - 1 {
      assert c'[i] == c[i] && c'[i + 1] == c[i + 1] && ps[c[i]] == i;
      assert LinkAt(c, nx, pv, i);
    } else if i == k - 1 {
      if k < L - 1 {
        assert c'[k] == c[k + 1];
      } else {
        assert c'[0] == c[0];
      }
    } else {
      assert c'[i] == c[i + 1] && ps[c[i + 1]] == i + 1;
      assert LinkAt(c, nx, pv, i + 1);
      if i + 1 < L - 1 {
        assert c'[i + 1] == c[i + 2];
      } else {
        assert c'[0] == c[0];
      }
    }
  }

  /** After `unlink_from_ring`, `r_prev` at position `i` of the new cycle is right. */
  lemma RemovePrevAt<N>(c: seq<N>, k: nat, nx: map<N, N>, pv: map<N, N>, ps: map<N, nat>, i: nat)
    requires RingOK(c, nx, pv, ps) && 0 < k < |c| && i < |c| - 1
    ensures var c', pv' := RemoveAt(c, k), (pv - {c[k]})[c[Succ(k, |c|)] := c[k - 1]];
      c'[i] in pv' && pv'[c'[i]] == c'[Pred(i, |c'|)]
  {
    var L := |c|;
    var c' := RemoveAt(c, k);
    var b := c[Succ(k, L)];
    assert ps[c[k]] == k && ps[b] == Succ(k, L);
    if i == 0 {
      assert c'[0] == c[0] && ps[c[0]] == 0;
      assert LinkAt(c, nx, pv, 0);
      if k < L - 1 {
        assert c'[L - 2] == c[L - 1];
      } else {
        assert c'[L - 2] == c[L - 2];
      }
    } else if i < k {
      assert c'[i] == c[i] && c'[i - 1] == c[i - 1] && ps[c[i]] == i;
      assert LinkAt(c, nx, pv, i);
    } else if i == k {
      assert c'[k] == c[k + 1] && c'[k - 1] == c[k - 1];
    } else {
      assert c'[i] == c[i + 1] && c'[i - 1] == c[i] && ps[c[i + 1]] == i + 1;
      assert LinkAt(c, nx, pv, i + 1);
    }
  }

  lemma RemoveLinks<N>(c: seq<N>, k: nat, nx: map<N, N>, pv: map<N, N>, ps: map<N, nat>)
    requires RingOK(c, nx, pv, ps) && 0 < k < |c|
    ensures RingOK(RemoveAt(c, k), (nx - {c[k]})[c[k - 1] := c[Succ(k, |c|)]],
                   (pv - {c[k]})[c[Succ(k, |c|)] := c[k - 1]], RemovedPos(ps, k, c[k]))
  {
    var c', ps' := RemoveAt(c, k), RemovedPos(ps, k, c[k]);
    var nx', pv' := (nx - {c[k]})[c[k - 1] := c[Succ(k, |c|)]], (pv - {c[k]})[c[Succ(k, |c|)] := c[k - 1]];
    RemovePos(c, k, ps);
    assert ps[c[k - 1]] == k - 1 && ps[c[Succ(k, |c|)]] == Succ(k, |c|) && ps[c[k]] == k;
    assert nx'.Keys == ps'.Keys && pv'.Keys == ps'.Keys;
    forall i | 0 <= i < |c'|
      ensures LinkAt(c', nx', pv', i)
    {
      RemoveNextAt(c, k, nx, pv, ps, i);
      RemovePrevAt(c, k, nx, pv, ps, i);
    }
  }

  /** A node of the Python ring: nothing but an identity (a fresh `CPersistentRing`). */
  class RingNode {
    constructor ()
    {
    }
  }

  class Ring<N(==)> {
    const home: N
    var next: map<N, N>
    var prev: map<N, N>
    /** The ring read from the sentinel round to the node before it. */
    ghost var cycle: seq<N>
    /** The position of each linked node in `cycle`. */
    ghost var pos: map<N, nat>

    ghost predicate Valid()
      reads this
    {
      |cycle| > 0 && cycle[0] == home && RingOK(cycle, next, prev, pos)
    }

    /** The linked nodes from least to most recently used. */
    ghost function Order(): seq<N>
      reads this
      requires |cycle| > 0
    {
      cycle[1..]
    }

    /** `r_next != NULL`: the node is linked into this ring. */
    predicate Linked(n: N)
      reads this
    {
      n in next
    }

    constructor (sentinel: N)
      ensures Valid() && home == sentinel && Order() == []
    {
      home := sentinel;
      next := map[sentinel := sentinel];
      prev := map[sentinel := sentinel];
      cycle := [sentinel];
      pos := map[sentinel := 0];
    }

    /** A node is linked exactly when it is the sentinel or listed in `Order()`. */
    lemma LinkedIsListed(n: N)
      requires Valid()
      ensures Linked(n) <==> n in cycle
      ensures Linked(n) <==> n == home || n in Order()
    {
      assert cycle == [home] + Order();
      if n in cycle {
        var i :| 0 <= i < |cycle| && cycle[i] == n;
      }
      if n in next {
        assert cycle[pos[n]] == n;
      }
    }

    /** The cycle is the sentinel followed by the order. */
    lemma CycleIsHomeThenOrder()
      requires Valid()
      ensures cycle == [home] + Order()
    {
    }

    /** No node is listed twice, and the sentinel is not listed after itself. */
    lemma OrderDistinct()
      requires Valid()
      ensures Distinct(Order()) && home !in Order()
    {
      forall i, j | 0 <= i < j < |Order()|
        ensures Order()[i] != Order()[j]
      {
        assert pos[cycle[i + 1]] == i + 1 && pos[cycle[j + 1]] == j + 1;
      }
      assert pos[cycle[0]] == 0;
    }

    /** The ghost position of a linked node is its index. */
    lemma PosIsIndex(n: N)
      requires Valid() && n in cycle
      ensures n in pos && IndexOf(cycle, n) == pos[n]
    {
      var i := IndexOf(cycle, n);
      assert pos[cycle[i]] == i;
    }

    /** Following `r_next` from a linked node gives the next node of the cycle. */
    lemma NextOf(k: nat)
      requires Valid() && k < |cycle|
      ensures cycle[k] in next && next[cycle[k]] == cycle[Succ(k, |cycle|)]
    {
      assert LinkAt(cycle, next, prev, k);
    }

    /** `insert_after(x, a)`: link the unlinked node `x` right after `a`. */
    method InsertAfter(x: N, a: N)
      requires Valid() && Linked(a) && !Linked(x)
      modifies this
      ensures Valid()
      ensures a in old(cycle) && cycle == Inserted(old(cycle), IndexOf(old(cycle), a), x)
      ensures a in next && x in next && x in prev && next[a] == x && prev[x] == a && next[x] == old(next[a])
    {
      LinkedIsListed(a);
      PosIsIndex(a);
      ghost var c := cycle;
      ghost var k := pos[a];
      assert LinkAt(c, next, prev, k);
      var b := next[a];
      InsertLinks(c, k, x, next, prev, pos);
      next := next[a := x][x := b];
      prev := prev[x := a][b := x];
      cycle := Inserted(c, k, x);
      pos := InsertedPos(pos, k, x);
      InsertedIndex(c, k, x);
    }

    /**
     * `unlink_from_ring(x)`: join the neighbours of the linked node `x`.
     * Unlike the C function, which leaves `x`'s own pointers as they were,
     * the model also drops `x`'s links, so that `x` is no longer `Linked`.
     */
    method Unlink(x: N)
      requires Valid() && Linked(x) && x != home
      modifies this
      ensures Valid() && !Linked(x)
      ensures x in old(cycle) && 0 < old(IndexOf(cycle, x))
      ensures cycle == RemoveAt(old(cycle), old(IndexOf(cycle, x)))
    {
      LinkedIsListed(x);
      PosIsIndex(x);
      ghost var c := cycle;
      ghost var k := pos[x];
      assert k != 0;
      var p := prev[x];
      var n := next[x];
      assert LinkAt(c, next, prev, k);
      RemoveLinks(c, k, next, prev, pos);
      next := (next - {x})[p := n];
      prev := (prev - {x})[n := p];
      cycle := RemoveAt(c, k);
      pos := RemovedPos(pos, k, x);
    }

    /** `ring_add(home, x)`: link `x` at the most recently used end. */
    method Add(x: N)
      requires Valid() && !Linked(x)
      modifies this
      ensures Valid()
      ensures Order() == old(Order()) + [x]
    {
      ghost var c := cycle;
      var last := prev[home];
      assert LinkAt(c, next, prev, 0);
      PosIsIndex(last);
      InsertAfter(x, last);
      assert cycle == c + [x];
    }

    /** `ring_del(x)`: unlink `x`. */
    method Del(x: N)
      requires Valid() && Linked(x) && x != home
      modifies this
      ensures Valid() && !Linked(x)
      ensures x in old(Order()) && Order() == RemoveAt(old(Order()), IndexOf(old(Order()), x))
    {
      ghost var o := Order();
      ghost var c := cycle;
      LinkedIsListed(x);
      ghost var k := IndexOf(o, x);
      assert IndexOf(c, x) == k + 1 by {
        PosIsIndex(x);
        assert c[k + 1] == x && pos[c[k + 1]] == k + 1;
      }
      Unlink(x);
    }

    /** `ring_move_to_head(home, x)`: make the linked node `x` the most recently used. */
    method MoveToHead(x: N)
      requires Valid() && Linked(x) && x != home
      modifies this
      ensures Valid()
      ensures x in old(Order()) && Order() == RemoveAt(old(Order()), IndexOf(old(Order()), x)) + [x]
    {
      Del(x);
      Add(x);
    }
  }
}
