/**
 * The legacy pure-Python pickle cache (persistent/picklecache.py) over the
 * legacy `Persistent` objects and the deque ring.
 *
 * It differs from the current cache in what it accepts and in how it
 * sweeps.  A class is accepted without a jar.  The sweep first walks the
 * ring, deactivating, and only then hands the positions it recorded to
 * `delete_all`; with target 0 it stops as soon as the non-ghost count is 0.
 * It records an object only when `_persistent_deactivate_ran` was set
 * (nothing in this version sets it) or when the object's class is not one
 * of `_SWEEPABLE_TYPES` (that is `Persistent`: the `sweepable` constant of
 * an object).  So an object of the legacy `Persistent` class is deactivated
 * by a sweep but never leaves the ring, and an object made by `new_ghost`
 * stops at the missing `_p_invalidate_deactivate_helper`.
 */
module LegacyPickleCache {
  import opened Common
  import P = Persistence
  import PC = PickleCache
  import PyRing
  import LR = LegacyRing
  import opened LegacyPersistence

  // ---------------------------------------------------------------- values

  /** What a caller hands the cache: a legacy persistent instance, a persistent class, or anything else. */
  datatype Value = Instance(p: Persistent) | Klass(c: PC.PClass) | Uncacheable

  function ValueObjects(v: Value): set<Persistent>
  {
    if v.Instance? then {v.p} else {}
  }

  /** `value._p_oid` (nothing for a value that has none). */
  function OidOf(v: Value): Option<Oid>
    reads ValueObjects(v)
  {
    match v
    case Instance(p) => p.oid
    case Klass(c) => c.oid
    case Uncacheable => None
  }

  /** `getattr(value, '_p_jar', None)`. */
  function JarOf(v: Value): Option<Jar>
    reads ValueObjects(v)
  {
    match v
    case Instance(p) => p.jar
    case Klass(c) => c.jar
    case Uncacheable => None
  }

  // ---------------------------------------------------------------- sweeping, as a function

  /** What `_sweep` consults about a ring object: its slots and whether its class is sweepable. */
  datatype SweepItem = SweepItem(obj: P.Obj, sweepable: bool)

  /** Where a sweep stopped, the non-ghost count it left and the positions it recorded. */
  datatype Swept = Swept(stop: nat, count: int, ejected: set<nat>)

  /**
   * The test at the top of `_sweep`'s loop: the non-ghost count is within
   * the target and the byte total within the byte budget, if one is set.
   */
  predicate Satisfied(target: int, bytes: int, count: int, total: int)
  {
    count <= target && (total <= bytes || bytes == 0)
  }

  /**
   * The sweep records an up-to-date object whose class is not sweepable:
   * `_persistent_deactivate_ran` is cleared before `_p_deactivate` and
   * nothing this version calls sets it again.
   */
  predicate Ejects(it: SweepItem)
  {
    P.State(it.obj) == P.UPTODATE && !it.sweepable
  }

  /** The object after the sweep has looked at it: up-to-date objects are deactivated. */
  function Visited(it: SweepItem): (r: P.Obj)
    ensures r.jar == it.obj.jar && r.oid == it.obj.oid && r.serial == it.obj.serial && r.size == it.obj.size
    ensures P.State(it.obj) == P.UPTODATE && it.obj.jar.Some? ==> P.State(r) == P.GHOST && r.dict == map[]
    ensures P.State(it.obj) != P.UPTODATE || it.obj.jar.None? ==> r == it.obj
  {
    if P.State(it.obj) == P.UPTODATE then DeactivateStep(it.obj).obj else it.obj
  }

  /**
   * `_sweep` from position `i` of the ring on, with the non-ghost count as
   * it stands, the byte total (which the sweep does not change) and the
   * positions recorded so far: stop at the end or as soon as the budgets
   * are met; record an object (one fewer non-ghost) or pass over it.
   */
  function SweepFrom(items: seq<SweepItem>, i: nat, target: int, bytes: int, count: int, total: int, ejected: set<nat>): (r: Swept)
    requires i <= |items|
    ensures i <= r.stop <= |items| && ejected <= r.ejected
    ensures r.stop == |items| || Satisfied(target, bytes, r.count, total)
    ensures i < |items| && !Satisfied(target, bytes, count, total) ==> i < r.stop
    ensures r.count <= count
    decreases |items| - i
  {
    if i == |items| || Satisfied(target, bytes, count, total) then Swept(i, count, ejected)
    else if Ejects(items[i]) then SweepFrom(items, i + 1, target, bytes, count - 1, total, ejected + {i})
    else SweepFrom(items, i + 1, target, bytes, count, total, ejected)
  }

  /** The recorded positions are exactly the ones reached before the stop whose object the sweep records. */
  lemma {:induction false} SweepEjected(items: seq<SweepItem>, i: nat, target: int, bytes: int,
                                        count: int, total: int, ejected: set<nat>)
    requires i <= |items| && forall x | x in ejected :: x < i
    ensures var r := SweepFrom(items, i, target, bytes, count, total, ejected);
      forall x: nat :: x in r.ejected <==> x in ejected || (i <= x < r.stop && Ejects(items[x]))
    decreases |items| - i
  {
    if i < |items| && !Satisfied(target, bytes, count, total) {
      if Ejects(items[i]) {
        SweepEjected(items, i + 1, target, bytes, count - 1, total, ejected + {i});
      } else {
        SweepEjected(items, i + 1, target, bytes, count, total, ejected);
      }
    }
  }

  /** Each recorded object takes exactly one from the non-ghost count. */
  lemma {:induction false} SweepCount(items: seq<SweepItem>, i: nat, target: int, bytes: int,
                                      count: int, total: int, ejected: set<nat>)
    requires i <= |items| && forall x | x in ejected :: x < i
    ensures var r := SweepFrom(items, i, target, bytes, count, total, ejected);
      r.count + |r.ejected| == count + |ejected|
    decreases |items| - i
  {
    if i < |items| && !Satisfied(target, bytes, count, total) {
      if Ejects(items[i]) {
        assert i !in ejected;
        SweepCount(items, i + 1, target, bytes, count - 1, total, ejected + {i});
      } else {
        SweepCount(items, i + 1, target, bytes, count, total, ejected);
      }
    }
  }

  /**
   * A ring of objects of the sweepable class loses nothing to a sweep, and
   * the non-ghost count stays as it was, whatever the sweep deactivated.
   */
  lemma SweepKeepsSweepable(items: seq<SweepItem>, target: int, bytes: int, count: int, total: int)
    requires forall x | 0 <= x < |items| :: items[x].sweepable
    ensures var r := SweepFrom(items, 0, target, bytes, count, total, {});
      r.ejected == {} && r.count == count
  {
    SweepEjected(items, 0, target, bytes, count, total, {});
    SweepCount(items, 0, target, bytes, count, total, {});
  }

  /** The positions from `i` on whose objects a sweep would record. */
  function EjectableFrom(items: seq<SweepItem>, i: nat): set<nat>
  {
    set x: nat | i <= x < |items| && Ejects(items[x])
  }

  /**
   * A sweep with neither budget (`full_sweep`) records every object it may
   * record, provided the non-ghost count is at least their number; it stops
   * early only once the count has come down to 0.
   */
  lemma {:induction false} FullSweepEjectsAll(items: seq<SweepItem>, i: nat, count: int, total: int, ejected: set<nat>)
    requires i <= |items| && count >= |EjectableFrom(items, i)|
    ensures SweepFrom(items, i, 0, 0, count, total, ejected).ejected == ejected + EjectableFrom(items, i)
    decreases |items| - i
  {
    if i == |items| {
      assert EjectableFrom(items, i) == {};
    } else if count <= 0 {
      assert EjectableFrom(items, i) == {};
    } else if Ejects(items[i]) {
      assert EjectableFrom(items, i) == EjectableFrom(items, i + 1) + {i};
      assert i !in EjectableFrom(items, i + 1);
      FullSweepEjectsAll(items, i + 1, count - 1, total, ejected + {i});
    } else {
      assert EjectableFrom(items, i) == EjectableFrom(items, i + 1);
      FullSweepEjectsAll(items, i + 1, count, total, ejected);
    }
  }

  /**
   * Target 0 is a budget here: three up-to-date objects of a non-sweepable
   * class against a non-ghost count of 2 lose the first two, and the sweep
   * stops there, while the current cache's full sweep goes on to the end.
   */
  lemma FullSweepStopsAtZeroExample(o: P.Obj)
    requires o.jar.Some? && o.flags == Some(P.CLEAN)
    ensures var items := [SweepItem(o, false), SweepItem(o, false), SweepItem(o, false)];
      SweepFrom(items, 0, 0, 0, 2, 0, {}) == Swept(2, 0, {0, 1})
    ensures !PC.Satisfied(0, 0, 0, 0)
  {
    var it := SweepItem(o, false);
    var items := [it, it, it];
    assert Ejects(it);
    assert {} + {0} == {0} && {0} + {1} == {0, 1};
    assert SweepFrom(items, 2, 0, 0, 0, 0, {0, 1}) == Swept(2, 0, {0, 1});
    assert SweepFrom(items, 1, 0, 0, 1, 0, {0}) == SweepFrom(items, 2, 0, 0, 0, 0, {0, 1});
  }

  /** The state of the object at position `x` of `objs0`. */
  ghost function StateAt(objs0: seq<Persistent>, x: nat): P.Obj
    requires x < |objs0|
    reads objs0[x]
  {
    objs0[x].Snap()
  }

  /**
   * The objects of the ring a sweep started from, `objs0` (described by
   * `items`): the first `i` have been visited and the rest are as they were.
   */
  ghost predicate Reached(objs0: seq<Persistent>, items: seq<SweepItem>, i: nat)
    reads objs0
  {
    |items| == |objs0| && i <= |objs0|
    && forall x {:trigger StateAt(objs0, x)} | 0 <= x < |objs0| :: StateAt(objs0, x) == if x < i then Visited(items[x]) else items[x].obj
  }

  /** Visiting the object at position `i`, and changing no other object of the ring, reaches one more object. */
  twostate lemma VisitedOneMore(t: (seq<Persistent>, seq<SweepItem>, nat))
    requires var (objs0, items, i) := t;
      && old(Reached(objs0, items, i)) && i < |objs0|
      && items[i].sweepable == objs0[i].sweepable
      && (forall x | 0 <= x < |objs0| && x != i :: unchanged(objs0[x]))
      && objs0[i].Snap() == Visited(SweepItem(old(objs0[i].Snap()), objs0[i].sweepable))
    ensures Reached(t.0, t.1, t.2 + 1)
  {
    var (objs0, items, i) := t;
    forall x | 0 <= x < |objs0|
      ensures StateAt(objs0, x) == if x < i + 1 then Visited(items[x]) else items[x].obj
    {
      assert old(StateAt(objs0, x)) == if x < i then Visited(items[x]) else items[x].obj;
    }
  }

  /**
   * The sweep's progress over the ring `objs0` (described by `items`): the
   * first `i` objects have been looked at, `toEject` holds the (position,
   * object) pairs recorded, in increasing position, their positions are
   * `idx` and form `E`, and sweeping on from here with the counters `count`
   * and `total` ends at `r0`.
   */
  ghost predicate SweepAt(objs0: seq<Persistent>, items: seq<SweepItem>, i: nat, idx: seq<nat>, E: set<nat>,
                          toEject: seq<(int, Persistent)>, target: int, bytes: int, count: int, total: int, r0: Swept)
  {
    && i <= |objs0| && |items| == |objs0|
    && (forall x | 0 <= x < |objs0| :: items[x].sweepable == objs0[x].sweepable)
    && |idx| == |toEject| && SetOf(idx) == E
    && (forall j | 0 <= j < |idx| :: idx[j] < i && toEject[j] == (idx[j] as int, objs0[idx[j]]))
    && (forall j, k | 0 <= j < k < |idx| :: idx[j] < idx[k])
    && SweepFrom(items, i, target, bytes, count, total, E) == r0
  }

  /** The `_p_oid`s of the kept objects are the kept `_p_oid`s. */
  lemma {:induction false} OidsKeep(s: seq<Persistent>, drop: set<int>)
    ensures LR.Oids(Keep(s, drop)) == Keep(LR.Oids(s), drop)
  {
    if s != [] {
      var n := |s| - 1;
      OidsKeep(s[..n], drop);
      assert LR.Oids(s)[..n] == LR.Oids(s[..n]);
      if n !in drop {
        LR.OidsAppend(Keep(s[..n], drop), s[n]);
      }
    }
  }

  /** The pairs a sweep recorded, as `delete_all` receives them. */
  lemma RecordedPairs(objs0: seq<Persistent>, idx: seq<nat>, toEject: seq<(int, Persistent)>)
    requires |idx| == |toEject|
    requires forall j | 0 <= j < |idx| :: idx[j] < |objs0| && toEject[j] == (idx[j] as int, objs0[idx[j]])
    requires forall j, k | 0 <= j < k < |idx| :: idx[j] < idx[k]
    ensures PyRing.IncreasingIndexes(LR.Keyed(toEject), |objs0|)
    ensures PyRing.IndexSet(LR.Keyed(toEject)) == SetOf(idx)
    ensures PyRing.ValueOids(LR.Keyed(toEject)) == AtPositions(LR.Oids(objs0), SetOf(idx))
    ensures |SetOf(idx)| == |idx|
  {
    var dels := LR.Keyed(toEject);
    var os := LR.Oids(objs0);
    assert forall j | 0 <= j < |idx| :: dels[j] == (idx[j] as int, os[idx[j]]);
    assert Distinct(idx);
    DistinctCard(idx);
    RecordedIndexes(os, idx, dels);
    RecordedOids(os, idx, dels);
  }

  lemma RecordedIndexes(os: seq<Option<Oid>>, idx: seq<nat>, dels: seq<(int, Option<Oid>)>)
    requires |idx| == |dels| && forall j | 0 <= j < |idx| :: idx[j] < |os| && dels[j] == (idx[j] as int, os[idx[j]])
    ensures PyRing.IndexSet(dels) == SetOf(idx)
  {
    forall x | x in PyRing.IndexSet(dels)
      ensures x in SetOf(idx)
    {
      var j :| 0 <= j < |dels| && dels[j].0 == x;
    }
    forall x | x in SetOf(idx)
      ensures x in PyRing.IndexSet(dels)
    {
      var j :| 0 <= j < |idx| && idx[j] == x;
    }
  }

  lemma RecordedOids(os: seq<Option<Oid>>, idx: seq<nat>, dels: seq<(int, Option<Oid>)>)
    requires |idx| == |dels| && forall j | 0 <= j < |idx| :: idx[j] < |os| && dels[j] == (idx[j] as int, os[idx[j]])
    ensures PyRing.ValueOids(dels) == AtPositions(os, SetOf(idx))
  {
    forall v | v in PyRing.ValueOids(dels)
      ensures v in AtPositions(os, SetOf(idx))
    {
      var j :| 0 <= j < |dels| && dels[j].1 == v;
      assert idx[j] in SetOf(idx);
    }
    forall v | v in AtPositions(os, SetOf(idx))
      ensures v in PyRing.ValueOids(dels)
    {
      var x :| x in SetOf(idx) && 0 <= x < |os| && os[x] == v;
      var j :| 0 <= j < |idx| && idx[j] == x;
      assert dels[j].1 == v;
    }
  }

  /** A ring without repeated oids, less some positions, has no repeats and the remaining oids. */
  lemma KeptRing(objs0: seq<Persistent>, E: set<int>)
    requires Distinct(LR.Oids(objs0))
    ensures Distinct(LR.Oids(Keep(objs0, E)))
    ensures SetOf(LR.Oids(Keep(objs0, E))) == SetOf(LR.Oids(objs0)) - AtPositions(LR.Oids(objs0), E)
  {
    OidsKeep(objs0, E);
    KeepDistinct(LR.Oids(objs0), E);
  }

  // ---------------------------------------------------------------- the cache

  /**
   * What `mru` does to the ring `before` for the stored object `p`: a member
   * moves to the most recently used end; a non-member is appended there
   * unless it is a ghost.
   */
  function Touched(before: seq<Persistent>, p: Persistent, ghosted: bool): (r: seq<Persistent>)
    ensures p in before || !ghosted ==> r != [] && r[|r| - 1] == p
    ensures p in before ==> |r| == |before|
    ensures p !in before ==> |r| == |before| + (if ghosted then 0 else 1)
    ensures forall i | 0 <= i < |before| :: before[i] in r
  {
    if p in before then
      var k := IndexOf(before, p);
      var r := RemoveAt(before, k) + [p];
      assert forall i | 0 <= i < |before| :: before[i] == if i < k then r[i] else if i == k then p else r[i - 1];
      r
    else if ghosted then before
    else before + [p]
  }

  /**
   * What `reify` and `invalidate` account for in a cache: every stored
   * object as it is, by oid; the ring; the non-ghost count; and which
   * object is stored under each oid.
   */
  datatype Tally = Tally(snaps: map<Oid, P.Obj>, objs: seq<Persistent>, count: int, stored: map<Oid, Persistent>)

  /** Objects not named among the first `n` of `oids`, or that were live in `s`, are as they were in `s`. */
  ghost predicate LiveKept(oids: seq<Oid>, n: nat, s: Tally, t: Tally)
    requires n <= |oids|
  {
    forall k | k in t.snaps && k in s.snaps && (k !in oids[..n] || P.State(s.snaps[k]) != P.GHOST) :: t.snaps[k] == s.snaps[k]
  }

  /** Each ghost of `s` named among the first `n` of `oids` that is live in `t` is in the ring. */
  ghost predicate RevivedInRing(oids: seq<Oid>, n: nat, s: Tally, t: Tally)
    requires n <= |oids|
  {
    forall k | k in PC.GhostsAmong(oids, n, s.snaps) && k in t.snaps && P.State(t.snaps[k]) != P.GHOST && k in s.stored ::
      s.stored[k] in t.objs
  }

  /**
   * What the first `n` oids of `reify` did to a cache that started as `s`
   * and is now `t`, with `acts` activations counted: no object changed that
   * none of them names, nor one that started live; the ring kept every
   * object it held, and its whole order while sweeping; unless sweeping,
   * every ghost named that is live now is in the ring; and the count grew
   * by `acts` and by what the ring gained, where `acts` is at least one per
   * ghost named and one per position naming a class that reads as a ghost.
   * (An activation can leave a ghost, when its loaded state sets no flags,
   * and the same oid is then counted again.)
   */
  ghost predicate ReifyTally(oids: seq<Oid>, n: nat, s: Tally, t: Tally, classes: map<Oid, PC.PClass>, sweeping: bool, acts: nat)
  {
    && n <= |oids| && t.snaps.Keys == s.snaps.Keys && t.stored == s.stored
    && LiveKept(oids, n, s, t)
    && (forall q | q in s.objs :: q in t.objs)
    && (sweeping ==> t.objs == s.objs)
    && (!sweeping ==> RevivedInRing(oids, n, s, t))
    && t.count == s.count + acts + (|t.objs| - |s.objs|)
    && |PC.GhostsAmong(oids, n, s.snaps)| + |PC.GhostClassAt(oids, n, classes)| <= acts
  }

  /**
   * What one `reify` step on `oid` does to the tally going from `a` to `b`:
   * only that oid's object changes, and only when it was a ghost; the count
   * grows by `act` and by what the ring gained; the ring keeps what it had
   * (and is left alone while sweeping); a ghost that came back to life is
   * in the ring.
   */
  ghost predicate TallyStep(oid: Oid, a: Tally, b: Tally, classes: map<Oid, PC.PClass>, sweeping: bool, passed: bool, act: nat)
  {
    && b.snaps.Keys == a.snaps.Keys && b.stored == a.stored && (oid in classes ==> oid !in a.snaps)
    && (forall k | k in a.snaps && k != oid :: b.snaps[k] == a.snaps[k])
    && (oid in a.snaps && P.State(a.snaps[oid]) != P.GHOST ==> b.snaps[oid] == a.snaps[oid])
    && b.count == a.count + act + (|b.objs| - |a.objs|)
    && act == (if (oid in a.snaps && P.State(a.snaps[oid]) == P.GHOST && passed)
                 || (oid in classes && classes[oid].state == Some(P.GHOST)) then 1 else 0)
    && (forall q | q in a.objs :: q in b.objs) && (sweeping ==> b.objs == a.objs)
    && (oid in a.snaps && P.State(a.snaps[oid]) == P.GHOST && passed && !sweeping && P.State(b.snaps[oid]) != P.GHOST ==>
         oid in a.stored && a.stored[oid] in b.objs)
  }

  /** `LiveKept` extends by one step. */
  lemma LiveKeptMore(oids: seq<Oid>, i: nat, s: Tally, a: Tally, b: Tally, classes: map<Oid, PC.PClass>, sweeping: bool, passed: bool, act: nat)
    requires i < |oids| && a.snaps.Keys == s.snaps.Keys && LiveKept(oids, i, s, a)
    requires TallyStep(oids[i], a, b, classes, sweeping, passed, act)
    ensures LiveKept(oids, i + 1, s, b)
  {
    PrefixMembers(oids, i);
    forall k | k in b.snaps && k in s.snaps && (k !in oids[..i + 1] || P.State(s.snaps[k]) != P.GHOST)
      ensures b.snaps[k] == s.snaps[k]
    {
      assert a.snaps[k] == s.snaps[k];
    }
  }

  /** `RevivedInRing` extends by one step that passed outside a sweep. */
  lemma RevivedMore(oids: seq<Oid>, i: nat, s: Tally, a: Tally, b: Tally, classes: map<Oid, PC.PClass>, act: nat)
    requires i < |oids| && a.snaps.Keys == s.snaps.Keys && a.stored == s.stored
    requires LiveKept(oids, i, s, a) && RevivedInRing(oids, i, s, a)
    requires TallyStep(oids[i], a, b, classes, false, true, act)
    ensures RevivedInRing(oids, i + 1, s, b)
  {
    var oid := oids[i];
    PC.AmongMore(oids, i, s.snaps);
    forall k | k in PC.GhostsAmong(oids, i + 1, s.snaps) && k in b.snaps && P.State(b.snaps[k]) != P.GHOST && k in s.stored
      ensures s.stored[k] in b.objs
    {
      if k == oid && P.State(a.snaps[k]) != P.GHOST && k !in PC.GhostsAmong(oids, i, s.snaps) {
        if k in oids[..i] {
          PC.AmongHas(oids, i, s.snaps, k);
        }
        assert false;
      }
    }
  }

  /**
   * The activations counted extend by one step that passed: a ghost named
   * for the first time is still the ghost it was, so its step counts it.
   */
  lemma ActsMore(oids: seq<Oid>, i: nat, s: Tally, a: Tally, b: Tally, classes: map<Oid, PC.PClass>, sweeping: bool, acts: nat, act: nat)
    requires i < |oids| && a.snaps.Keys == s.snaps.Keys && LiveKept(oids, i, s, a)
    requires |PC.GhostsAmong(oids, i, s.snaps)| + |PC.GhostClassAt(oids, i, classes)| <= acts
    requires TallyStep(oids[i], a, b, classes, sweeping, true, act)
    ensures |PC.GhostsAmong(oids, i + 1, s.snaps)| + |PC.GhostClassAt(oids, i + 1, classes)| <= acts + act
  {
    var oid := oids[i];
    var first := oid in s.snaps && P.State(s.snaps[oid]) == P.GHOST && oid !in oids[..i];
    PC.GhostsNext(oids, i, s.snaps, first, true);
    PC.GhostClassMore(oids, i, classes);
    if first {
      assert a.snaps[oid] == s.snaps[oid];
    }
  }

  /** `ReifyTally` survives one more oid whose step passed, from `a` to `b`. */
  lemma ReifyTallyMore(oids: seq<Oid>, i: nat, s: Tally, a: Tally, b: Tally, classes: map<Oid, PC.PClass>, sweeping: bool, acts: nat, act: nat)
    requires i < |oids| && ReifyTally(oids, i, s, a, classes, sweeping, acts)
    requires TallyStep(oids[i], a, b, classes, sweeping, true, act)
    ensures ReifyTally(oids, i + 1, s, b, classes, sweeping, acts + act)
  {
    LiveKeptMore(oids, i, s, a, b, classes, sweeping, true, act);
    if !sweeping {
      RevivedMore(oids, i, s, a, b, classes, act);
    }
    ActsMore(oids, i, s, a, b, classes, sweeping, acts, act);
  }

  /** `ReifyTally` holds before the first oid. */
  lemma ReifyTallyNone(oids: seq<Oid>, s: Tally, classes: map<Oid, PC.PClass>, sweeping: bool)
    ensures ReifyTally(oids, 0, s, s, classes, sweeping, 0)
  {
    PC.AmongNone(oids, s.snaps, classes);
  }

  /** Objects not named among the first `n` of `oids`, or that were ghosts in `s`, are as they were in `s`. */
  ghost predicate SnapsKept(oids: seq<Oid>, n: nat, s: Tally, t: Tally)
    requires n <= |oids|
  {
    forall k | k in t.snaps && k in s.snaps && (k !in oids[..n] || P.State(s.snaps[k]) == P.GHOST) :: t.snaps[k] == s.snaps[k]
  }

  /** Each object named among the first `n` of `oids` that was live in `s` has left the ring. */
  ghost predicate LiveGone(oids: seq<Oid>, n: nat, s: Tally, t: Tally)
    requires n <= |oids|
  {
    forall k | k in PC.LiveAmong(oids, n, s.snaps) && k in s.stored :: s.stored[k] !in t.objs
  }

  /** Each object named among the first `n` of `oids` that has a jar is a ghost. */
  ghost predicate JarGhosted(oids: seq<Oid>, n: nat, s: Tally, t: Tally)
    requires n <= |oids|
  {
    forall k | k in oids[..n] && k in s.snaps && s.snaps[k].jar.Some? :: k in t.snaps && P.State(t.snaps[k]) == P.GHOST
  }

  /** Every stored object named among the first `n` of `oids` has a jar. */
  ghost predicate AllJars(oids: seq<Oid>, n: nat, s: Tally)
    requires n <= |oids|
  {
    forall k | k in oids[..n] && k in s.snaps :: s.snaps[k].jar.Some?
  }

  /** Every object keeps its jar. */
  ghost predicate JarsKept(s: Tally, t: Tally)
  {
    forall k | k in t.snaps && k in s.snaps :: t.snaps[k].jar == s.snaps[k].jar
  }

  /**
   * What the first `n` steps of `invalidate(oids)` did to the tally going
   * from `s` to `t`, counting `dropped` objects out: only named objects
   * that were not ghosts changed; the ring gained nothing and lost each of
   * them; each named object with a jar is a ghost; and the count fell by
   * `dropped`, which is at least the number of different such objects, and
   * exactly that when every named object has a jar.
   */
  ghost predicate InvalidateTally(oids: seq<Oid>, n: nat, s: Tally, t: Tally, dropped: nat)
  {
    && n <= |oids| && t.snaps.Keys == s.snaps.Keys && s.stored.Keys == s.snaps.Keys && t.stored == s.stored
    && SnapsKept(oids, n, s, t) && JarsKept(s, t)
    && (forall q | q in t.objs :: q in s.objs)
    && LiveGone(oids, n, s, t)
    && JarGhosted(oids, n, s, t)
    && t.count == s.count - dropped
    && |PC.LiveAmong(oids, n, s.snaps)| <= dropped <= n
    && (AllJars(oids, n, s) ==> dropped == |PC.LiveAmong(oids, n, s.snaps)|)
  }

  /**
   * What one `_invalidate(oid)` does to the tally going from `a` to `b`:
   * a stored non-ghost object is counted out and leaves the ring, and ends
   * a ghost if it has a jar; anything else leaves the tally as it was; no
   * other object changes, and the ring gains nothing.
   */
  ghost predicate InvalidateStepped(oid: Oid, a: Tally, b: Tally)
  {
    && b.snaps.Keys == a.snaps.Keys && b.stored == a.stored
    && (forall k | k in a.snaps && k != oid :: b.snaps[k] == a.snaps[k])
    && (oid in a.snaps ==> b.snaps[oid].jar == a.snaps[oid].jar)
    && (forall q | q in b.objs :: q in a.objs)
    && if oid in a.snaps && P.State(a.snaps[oid]) != P.GHOST then
         && oid in a.stored && a.stored[oid] !in b.objs && b.count == a.count - 1
         && (a.snaps[oid].jar.Some? ==> P.State(b.snaps[oid]) == P.GHOST)
       else
         b.snaps == a.snaps && b.objs == a.objs && b.count == a.count
  }

  /** The object one more step touches was, before it, as in `s` unless the step names it again. */
  lemma StepSnap(oids: seq<Oid>, i: nat, s: Tally, a: Tally)
    requires i < |oids| && a.snaps.Keys == s.snaps.Keys && SnapsKept(oids, i, s, a) && oids[i] in s.snaps
    ensures oids[i] !in oids[..i] ==> a.snaps[oids[i]] == s.snaps[oids[i]]
    ensures P.State(s.snaps[oids[i]]) == P.GHOST ==> a.snaps[oids[i]] == s.snaps[oids[i]]
  {
  }

  /** `SnapsKept` extends by one step. */
  lemma SnapsKeptMore(oids: seq<Oid>, i: nat, s: Tally, a: Tally, b: Tally)
    requires i < |oids| && a.snaps.Keys == s.snaps.Keys && SnapsKept(oids, i, s, a) && InvalidateStepped(oids[i], a, b)
    ensures SnapsKept(oids, i + 1, s, b)
  {
    PrefixMembers(oids, i);
    forall k | k in b.snaps && k in s.snaps && (k !in oids[..i + 1] || P.State(s.snaps[k]) == P.GHOST)
      ensures b.snaps[k] == s.snaps[k]
    {
      assert a.snaps[k] == s.snaps[k];
    }
  }

  /** `LiveGone` extends by one step. */
  lemma LiveGoneMore(oids: seq<Oid>, i: nat, s: Tally, a: Tally, b: Tally)
    requires i < |oids| && a.snaps.Keys == s.snaps.Keys && SnapsKept(oids, i, s, a) && LiveGone(oids, i, s, a)
    requires InvalidateStepped(oids[i], a, b) && a.stored == s.stored
    ensures LiveGone(oids, i + 1, s, b)
  {
    var oid := oids[i];
    PC.AmongMore(oids, i, s.snaps);
    PC.LiveNext(oids, i, s.snaps);
    if oid in s.snaps {
      StepSnap(oids, i, s, a);
    }
    forall k | k in PC.LiveAmong(oids, i + 1, s.snaps) && k in s.stored
      ensures s.stored[k] !in b.objs
    {
      if k !in PC.LiveAmong(oids, i, s.snaps) {
        assert k == oid && a.snaps[oid] == s.snaps[oid];
      }
    }
  }

  /** `JarGhosted` extends by one step. */
  lemma JarGhostedMore(oids: seq<Oid>, i: nat, s: Tally, a: Tally, b: Tally)
    requires i < |oids| && a.snaps.Keys == s.snaps.Keys && SnapsKept(oids, i, s, a) && JarsKept(s, a) && JarGhosted(oids, i, s, a)
    requires InvalidateStepped(oids[i], a, b)
    ensures JarGhosted(oids, i + 1, s, b)
  {
    var oid := oids[i];
    PrefixMembers(oids, i);
    if oid in s.snaps {
      StepSnap(oids, i, s, a);
    }
    forall k | k in oids[..i + 1] && k in s.snaps && s.snaps[k].jar.Some?
      ensures k in b.snaps && P.State(b.snaps[k]) == P.GHOST
    {
      if k == oid && k in oids[..i] {
        assert P.State(a.snaps[k]) == P.GHOST;
      }
    }
  }

  /** The count and its bounds extend by one step. */
  lemma DroppedMore(oids: seq<Oid>, i: nat, s: Tally, a: Tally, b: Tally, dropped: nat, d: nat)
    requires i < |oids| && a.snaps.Keys == s.snaps.Keys
    requires SnapsKept(oids, i, s, a) && JarGhosted(oids, i, s, a) && InvalidateStepped(oids[i], a, b)
    requires a.count == s.count - dropped && |PC.LiveAmong(oids, i, s.snaps)| <= dropped <= i
    requires AllJars(oids, i, s) ==> dropped == |PC.LiveAmong(oids, i, s.snaps)|
    requires d == dropped + if oids[i] in a.snaps && P.State(a.snaps[oids[i]]) != P.GHOST then 1 else 0
    ensures b.count == s.count - d && |PC.LiveAmong(oids, i + 1, s.snaps)| <= d <= i + 1
    ensures AllJars(oids, i + 1, s) ==> d == |PC.LiveAmong(oids, i + 1, s.snaps)|
  {
    var oid := oids[i];
    PrefixMembers(oids, i);
    PC.LiveNext(oids, i, s.snaps);
    if oid in s.snaps {
      StepSnap(oids, i, s, a);
    }
    if AllJars(oids, i + 1, s) {
      assert AllJars(oids, i, s);
      if oid in oids[..i] && oid in s.snaps {
        assert s.snaps[oid].jar.Some?;
        assert P.State(a.snaps[oid]) == P.GHOST;
      }
    }
  }

  /** `JarsKept` extends by one step. */
  lemma JarsKeptMore(oid: Oid, s: Tally, a: Tally, b: Tally)
    requires a.snaps.Keys == s.snaps.Keys && JarsKept(s, a) && InvalidateStepped(oid, a, b)
    ensures JarsKept(s, b)
  {
  }

  /** `InvalidateTally` extends by one step. */
  lemma InvalidateTallyMore(oids: seq<Oid>, i: nat, s: Tally, a: Tally, b: Tally, dropped: nat, d: nat)
    requires i < |oids| && InvalidateTally(oids, i, s, a, dropped) && InvalidateStepped(oids[i], a, b)
    requires d == dropped + if oids[i] in a.snaps && P.State(a.snaps[oids[i]]) != P.GHOST then 1 else 0
    ensures InvalidateTally(oids, i + 1, s, b, d)
  {
    SnapsKeptMore(oids, i, s, a, b);
    JarsKeptMore(oids[i], s, a, b);
    LiveGoneMore(oids, i, s, a, b);
    JarGhostedMore(oids, i, s, a, b);
    DroppedMore(oids, i, s, a, b, dropped, d);
  }

  /** `InvalidateTally` holds before the first step. */
  lemma InvalidateTallyNone(oids: seq<Oid>, s: Tally)
    requires s.stored.Keys == s.snaps.Keys
    ensures InvalidateTally(oids, 0, s, s, 0)
  {
    PC.AmongNone(oids, s.snaps, map[]);
  }

  /**
   * Each tally in `hist` follows from the one before it by one step of
   * `invalidate`, the `j`th step handling `oids[j]`.
   */
  ghost predicate InvalidatedAlong(oids: seq<Oid>, hist: seq<Tally>)
    requires |hist| <= |oids| + 1
    decreases |hist|
  {
    |hist| <= 1 ||
      (InvalidatedAlong(oids, hist[..|hist| - 1]) && InvalidateStepped(oids[|hist| - 2], hist[|hist| - 2], hist[|hist| - 1]))
  }

  /** `InvalidatedAlong` extends by one step. */
  lemma AlongMore(oids: seq<Oid>, hist: seq<Tally>, after: Tally)
    requires 1 <= |hist| <= |oids| && InvalidatedAlong(oids, hist)
    requires InvalidateStepped(oids[|hist| - 1], hist[|hist| - 1], after)
    ensures InvalidatedAlong(oids, hist + [after])
  {
    var h := hist + [after];
    assert h[..|h| - 1] == hist;
    assert InvalidatedAlong(oids, h[..|h| - 1]);
  }

  /** The steps along `hist` add up to `InvalidateTally`, `dropped` objects counted out. */
  lemma InvalidateAlong(oids: seq<Oid>, hist: seq<Tally>) returns (dropped: nat)
    requires 1 <= |hist| <= |oids| + 1 && InvalidatedAlong(oids, hist) && hist[0].stored.Keys == hist[0].snaps.Keys
    ensures InvalidateTally(oids, |hist| - 1, hist[0], hist[|hist| - 1], dropped)
    decreases |hist|
  {
    var n := |hist| - 1;
    if n == 0 {
      InvalidateTallyNone(oids, hist[0]);
      dropped := 0;
    } else {
      var h := hist[..n];
      assert |h| == n && h[0] == hist[0] && h[n - 1] == hist[n - 1];
      var before := InvalidateAlong(oids, h);
      dropped := before;
      if oids[n - 1] in hist[n - 1].snaps && P.State(hist[n - 1].snaps[oids[n - 1]]) != P.GHOST {
        dropped := dropped + 1;
      }
      InvalidateTallyMore(oids, n - 1, hist[0], hist[n - 1], hist[n], before, dropped);
    }
  }

  class Cache {
    /** The data manager; `__init__` makes this cache its `_cache`. */
    const jar: Jar
    var cacheSize: int
    var drainResistance: int
    var nonGhostCount: int
    var totalEstimatedSize: int
    var cacheSizeBytes: int
    /** `_is_sweeping_ring`, the pseudo-lock that `mru` respects. */
    var sweeping: bool
    /** `_persistent_deactivate_ran`. */
    var deactivateRan: bool
    /** `persistent_classes`. */
    var classes: map<Oid, PC.PClass>
    /** `data`, seen as a plain map (the objects are not collected). */
    var data: map<Oid, Persistent>
    const ring: LR.DequeRing

    /** Each object is stored under its own oid, each class too and apart from the objects. */
    ghost predicate Keyed()
      reads this`data, this`classes, data.Values`oid
    {
      && (forall k | k in data :: data[k].oid == Some(k))
      && (forall k | k in classes :: classes[k].oid == Some(k) && k !in data)
    }

    /** Every object of the ring is stored. */
    ghost predicate RingStored()
      reads this`data, ring`ring
    {
      AllStored(ring.ring, data)
    }

    ghost predicate Valid()
      reads this`data, this`classes, ring, ring.ring`oid, data.Values`oid
    {
      ring.Valid() && Keyed() && RingStored()
    }

    /** What `Valid` depends on is all that it depends on. */
    twostate lemma ValidKept()
      requires old(Valid())
      requires unchanged(this`data, this`classes, ring)
      requires unchanged(ring.ring`oid) && unchanged(data.Values`oid)
      ensures Valid()
    {
    }

    /** A stored object is found under its oid. */
    lemma KeyOf(p: Persistent)
      requires Keyed() && p in data.Values
      ensures p.oid.Some? && p.oid.value in data && data[p.oid.value] == p
    {
      var k :| k in data && data[k] == p;
    }

    /** For a stored object, the ring's membership test by oid is membership of the object itself. */
    lemma ContainsStored(p: Persistent)
      requires Valid() && p in data.Values
      ensures ring.Contains(p) <==> p in ring.ring
    {
      ring.ContainsByOid(p);
      if ring.Contains(p) {
        var i :| 0 <= i < |ring.ring| && ring.ring[i].oid == p.oid;
        var q := ring.ring[i];
        assert q in data.Values;
        KeyOf(q);
        KeyOf(p);
      }
    }

    constructor (jar: Jar, targetSize: int, cacheSizeBytes: int)
      ensures Valid() && fresh(ring)
      ensures this.jar == jar && cacheSize == targetSize && this.cacheSizeBytes == cacheSizeBytes && drainResistance == 0
      ensures nonGhostCount == 0 && totalEstimatedSize == 0 && !sweeping && !deactivateRan
      ensures classes == map[] && data == map[] && ring.ring == []
    {
      this.jar := jar;
      cacheSize := targetSize;
      drainResistance := 0;
      nonGhostCount := 0;
      totalEstimatedSize := 0;
      this.cacheSizeBytes := cacheSizeBytes;
      sweeping := false;
      deactivateRan := false;
      classes := map[];
      data := map[];
      ring := new LR.DequeRing();
    }

    /** `get(oid)`: the object stored under `oid`, else the class, else nothing. */
    function Get(oid: Oid): (r: Option<Value>)
      reads this
      ensures r.None? <==> oid !in data && oid !in classes
      ensures r.Some? ==> !r.value.Uncacheable?
    {
      if oid in data then Some(Instance(data[oid]))
      else if oid in classes then Some(Klass(classes[oid]))
      else None
    }

    /** `__len__`: classes and objects together. */
    function Len(): nat
      reads this
    {
      |classes| + |data|
    }

    /** Every oid is counted once, whether it names a class or an object. */
    lemma LenCountsOids()
      requires Valid()
      ensures Len() == |classes.Keys + data.Keys|
    {
      assert classes.Keys * data.Keys == {};
    }

    /** `__getitem__`: as `get`, but a missing oid is a KeyError. */
    function GetItem(oid: Oid): (r: Result<Value>)
      reads this
      ensures r.Err? <==> Get(oid).None?
      ensures r.Err? ==> r.error == KeyError
      ensures r.Ok? ==> Get(oid) == Some(r.value)
    {
      match Get(oid)
      case Some(v) => Ok(v)
      case None => Err(KeyError)
    }

    /**
     * The change `update_object_size_estimation(oid, new_size)` makes to the
     * byte total: none for an oid not stored, else the difference between the
     * new size in 64-byte units (plus one) and the object's stored units.
     */
    function SizeDelta(oid: Option<Oid>, newSize: int): (d: int)
      reads this, data.Values`size
      ensures oid.None? || oid.value !in data ==> d == 0
      ensures d % 64 == 0
      ensures oid.Some? && oid.value in data && newSize == -1 ==> d == -(data[oid.value].size * 64)
      ensures oid.Some? && oid.value in data && 0 <= newSize <= 1073741696 ==>
        newSize < data[oid.value].size * 64 + d <= newSize + 64
    {
      if oid.Some? && oid.value in data then
        (P.EstimatedSizeIn24Bits(newSize) - data[oid.value].size) * 64
      else 0
    }

    /** `update_object_size_estimation`. */
    method UpdateObjectSizeEstimation(oid: Option<Oid>, newSize: int)
      modifies this`totalEstimatedSize
      ensures totalEstimatedSize == old(totalEstimatedSize) + SizeDelta(oid, newSize)
    {
      if oid.Some? && oid.value in data {
        var value := data[oid.value];
        var newSizeIn24 := P.EstimatedSizeIn24Bits(newSize);
        totalEstimatedSize := totalEstimatedSize + (newSizeIn24 - value.size) * 64;
      }
    }

    /** `ringlen`: the number of objects in the ring, each with its own oid. */
    function RingLen(): (n: nat)
      reads this, ring, ring.ring`oid
      ensures Valid() ==> n == |ring.ringOids| && n == |ring.ring|
    {
      ring.Len()
    }

    /**
     * Whether `__setitem__(key, value)` accepts, in the order it checks: a
     * persistent value or a class, a bytes key and oid, the same oid, no
     * other value under it, a jar unless the value is a class, and no other
     * cache of that jar holding the oid (`elsewhere` says whether the jar's
     * `_cache` holds it; that cache is this one exactly when the jar is this
     * cache's jar).
     */
    function SetItemOutcome(key: BytesArg, value: Value, elsewhere: bool): (r: Outcome)
      reads this, ValueObjects(value)
      ensures r == Fail(TypeError) <==> value.Uncacheable? || key.NotBytes? || OidOf(value).None?
      ensures r.Pass? <==>
        && !value.Uncacheable? && key.BytesValue? && OidOf(value) == Some(key.b)
        && (Get(key.b).None? || Get(key.b) == Some(value))
        && (JarOf(value).Some? || value.Klass?)
        && !(elsewhere && JarOf(value).Some? && JarOf(value) != Some(jar))
      ensures value.Klass? && JarOf(value).None? && key.BytesValue? && OidOf(value) == Some(key.b) && Get(key.b).None? ==> r.Pass?
      ensures r.Fail? ==> r.error in {TypeError, ValueError}
    {
      if value.Uncacheable? then Fail(TypeError)
      else if key.NotBytes? || OidOf(value).None? then Fail(TypeError)
      else if OidOf(value).value != key.b then Fail(ValueError)
      else if Get(key.b).Some? && Get(key.b).value != value then Fail(ValueError)
      else if JarOf(value).None? && !value.Klass? then Fail(ValueError)
      else if elsewhere && JarOf(value).Some? && JarOf(value).value != jar then Fail(ValueError)
      else Pass
    }

    /**
     * `__setitem__`: store a class, or store an object and add it to the
     * ring when it is not a ghost and its oid is not in the ring yet.
     */
    method SetItem(key: BytesArg, value: Value, elsewhere: bool) returns (outcome: Outcome)
      requires Valid()
      modifies this`classes, this`data, this`nonGhostCount, ring
      ensures Valid()
      ensures outcome == old(SetItemOutcome(key, value, elsewhere))
      ensures outcome.Fail? ==> data == old(data) && classes == old(classes) && ring.ring == old(ring.ring)
      ensures outcome.Pass? ==> Get(key.b) == Some(value)
      ensures outcome.Pass? && value.Klass? ==> classes == old(classes)[key.b := value.c] && data == old(data)
      ensures outcome.Pass? && value.Instance? ==> data == old(data)[key.b := value.p] && classes == old(classes)
      ensures outcome.Pass? && value.Instance? ==>
        ring.ring == old(if P.State(value.p.Snap()) != P.GHOST && value.p !in ring.ring then ring.ring + [value.p] else ring.ring)
      ensures !(outcome.Pass? && value.Instance?) ==> ring.ring == old(ring.ring)
      ensures nonGhostCount - old(nonGhostCount) == |ring.ring| - |old(ring.ring)|
    {
      if value.Uncacheable? {
        return Fail(TypeError);
      }
      var valueOid := OidOf(value);
      if key.NotBytes? || valueOid.None? {
        return Fail(TypeError);
      }
      var oid := key.b;
      if valueOid.value != oid {
        return Fail(ValueError);
      }
      if oid in classes || oid in data {
        var existing := Get(oid);
        if existing.Some? && existing.value != value {
          return Fail(ValueError);
        }
      }
      var valueJar := JarOf(value);
      if valueJar.None? && !value.Klass? {
        return Fail(ValueError);
      }
      if elsewhere && valueJar.Some? && valueJar.value != jar {
        return Fail(ValueError);
      }
      outcome := Pass;
      if value.Klass? {
        classes := classes[oid := value.c];
      } else {
        StoreObject(oid, value.p);
      }
    }

    /** The object part of `__setitem__`, once every check has passed. */
    method StoreObject(oid: Oid, p: Persistent)
      requires Valid() && p.oid == Some(oid) && oid !in classes && (oid in data ==> data[oid] == p)
      modifies this`data, this`nonGhostCount, ring
      ensures Valid() && data == old(data)[oid := p] && classes == old(classes)
      ensures ring.ring == old(if P.State(p.Snap()) != P.GHOST && p !in ring.ring then ring.ring + [p] else ring.ring)
      ensures nonGhostCount - old(nonGhostCount) == |ring.ring| - |old(ring.ring)|
    {
      Put(oid, p);
      ContainsStored(p);
      if P.State(p.Snap()) != P.GHOST && !ring.Contains(p) {
        AddStored(p);
      }
    }

    /** `self.data[oid] = value`. */
    method Put(oid: Oid, p: Persistent)
      requires Valid() && p.oid == Some(oid) && oid !in classes && (oid in data ==> data[oid] == p)
      modifies this`data
      ensures Valid() && data == old(data)[oid := p] && p in data.Values
    {
      data := data[oid := p];
      StoredAfterPut(ring.ring, old(data), oid, p);
      assert data[oid] == p;
    }

    /** `ring.add(value)` and one more non-ghost, for a stored object whose oid is not in the ring. */
    method AddStored(p: Persistent)
      requires Valid() && p in data.Values && !ring.Contains(p)
      modifies this`nonGhostCount, ring
      ensures Valid() && data == old(data) && classes == old(classes)
      ensures ring.ring == old(ring.ring) + [p] && nonGhostCount == old(nonGhostCount) + 1
    {
      Link(p);
      CountOne();
    }

    /** `ring.add(value)` for a stored object whose oid is not in the ring. */
    method Link(p: Persistent)
      requires Valid() && p in data.Values && !ring.Contains(p)
      modifies ring
      ensures Valid() && ring.ring == old(ring.ring) + [p]
    {
      StoredAfterAppend(ring.ring, data, p);
      ring.Add(p);
    }

    /** `self.non_ghost_count += 1`. */
    method CountOne()
      requires Valid()
      modifies this`nonGhostCount
      ensures Valid() && nonGhostCount == old(nonGhostCount) + 1
    {
      nonGhostCount := nonGhostCount + 1;
    }

    /** `ring.move_to_head(value)` for a stored object of the ring. */
    method MoveStored(p: Persistent)
      requires Valid() && p in data.Values && p in ring.ring
      modifies ring
      ensures Valid() && data == old(data) && classes == old(classes)
      ensures ring.ring == RemoveAt(old(ring.ring), IndexOf(old(ring.ring), p)) + [p]
    {
      ring.MoveToHead(p);
      StoredAfterMove(old(ring.ring), data, IndexOf(old(ring.ring), p));
    }

    /**
     * `mru(oid)`: skipped (the `False` marker) while the ring is being swept;
     * a KeyError for an oid not stored; otherwise the object moves to, or
     * unless it is a ghost enters, the most recently used end of the ring.
     */
    method Mru(oid: Oid) returns (outcome: Outcome, skipped: bool)
      requires Valid()
      modifies this`nonGhostCount, ring
      ensures Valid() && data == old(data) && classes == old(classes)
      ensures skipped <==> old(sweeping)
      ensures outcome.Fail? <==> !old(sweeping) && oid !in data
      ensures outcome.Fail? ==> outcome.error == KeyError
      ensures outcome.Fail? || skipped ==> ring.ring == old(ring.ring)
      ensures outcome.Pass? && !skipped ==> ring.ring == Touched(old(ring.ring), data[oid], old(P.State(data[oid].Snap())) == P.GHOST)
      ensures nonGhostCount - old(nonGhostCount) == |ring.ring| - |old(ring.ring)|
    {
      skipped := sweeping;
      if sweeping {
        return Pass, true;
      }
      if oid !in data {
        return Fail(KeyError), false;
      }
      outcome := Pass;
      Touch(data[oid]);
    }

    /** The part of `mru` after the lookup: move the object, or add it when it is not a ghost. */
    method Touch(p: Persistent)
      requires Valid() && p in data.Values
      modifies this`nonGhostCount, ring
      ensures Valid() && data == old(data) && classes == old(classes)
      ensures ring.ring == Touched(old(ring.ring), p, old(P.State(p.Snap())) == P.GHOST)
      ensures nonGhostCount - old(nonGhostCount) == |ring.ring| - |old(ring.ring)|
    {
      ContainsStored(p);
      if !ring.Contains(p) {
        if P.State(p.Snap()) != P.GHOST {
          AddStored(p);
        }
      } else {
        MoveStored(p);
      }
    }

    /** `ring.delete(pobj)` for a stored object: afterwards it is not in the ring. */
    method Unlink(p: Persistent)
      requires Valid() && p in data.Values
      modifies ring
      ensures Valid() && data == old(data) && classes == old(classes) && p !in ring.ring
      ensures ring.ring == if old(p in ring.ring) then old(RemoveAt(ring.ring, IndexOf(ring.ring, p))) else old(ring.ring)
      ensures forall q | q in ring.ring :: q in old(ring.ring)
    {
      ghost var o := ring.ring;
      LR.OidsDistinctObjects(o);
      var found := ring.Delete(p);
      if found {
        StoredAfterRemove(o, data, IndexOf(o, p));
        DistinctRemoved(o, IndexOf(o, p));
        RemoveAtWithin(o, IndexOf(o, p));
      }
    }

    /**
     * `__delitem__`: a non-bytes oid is a TypeError; a class is dropped; an
     * object is popped (a KeyError when absent) and deleted from the ring.
     * The non-ghost count is left as it was.
     */
    method DelItem(key: BytesArg) returns (outcome: Outcome)
      requires Valid()
      modifies this`classes, this`data, ring
      ensures Valid() && nonGhostCount == old(nonGhostCount)
      ensures outcome == Fail(TypeError) <==> key.NotBytes?
      ensures outcome == Fail(KeyError) <==> key.BytesValue? && key.b !in old(classes) && key.b !in old(data)
      ensures outcome.Fail? ==> data == old(data) && classes == old(classes) && ring.ring == old(ring.ring)
      ensures outcome.Pass? ==> Get(key.b).None?
      ensures outcome.Pass? && key.b in old(classes) ==>
        classes == old(classes) - {key.b} && data == old(data) && ring.ring == old(ring.ring)
      ensures outcome.Pass? && key.b !in old(classes) ==>
        && data == old(data) - {key.b} && classes == old(classes) && old(data[key.b]) !in ring.ring
        && ring.ring == if old(data[key.b] in ring.ring) then old(RemoveAt(ring.ring, IndexOf(ring.ring, data[key.b]))) else old(ring.ring)
    {
      if key.NotBytes? {
        return Fail(TypeError);
      }
      var oid := key.b;
      if oid in classes {
        classes := classes - {oid};
        return Pass;
      }
      if oid !in data {
        return Fail(KeyError);
      }
      Forget(oid);
      outcome := Pass;
    }

    /** `value = self.data.pop(oid); self.ring.delete(value)`. */
    method Forget(oid: Oid)
      requires Valid() && oid in data
      modifies this`data, ring
      ensures Valid() && data == old(data) - {oid} && classes == old(classes) && old(data[oid]) !in ring.ring
      ensures ring.ring == if old(data[oid] in ring.ring) then old(RemoveAt(ring.ring, IndexOf(ring.ring, data[oid]))) else old(ring.ring)
    {
      var value := data[oid];
      Unlink(value);
      StoredAfterDelete(ring.ring, data, oid);
      data := data - {oid};
    }

    // ------------------------------------------------------------ sweeping

    /** The objects of the ring, as a set (what a sweep may deactivate). */
    ghost function RingSet(): set<Persistent>
      reads ring
    {
      set x | x in ring.ring
    }

    /** What the sweep consults about each of `objs`. */
    ghost function Items(objs: seq<Persistent>): (items: seq<SweepItem>)
      reads objs
      ensures |items| == |objs|
      ensures forall i | 0 <= i < |objs| :: items[i] == SweepItem(objs[i].Snap(), objs[i].sweepable)
    {
      seq(|objs|, i requires 0 <= i < |objs| reads objs => SweepItem(objs[i].Snap(), objs[i].sweepable))
    }

    /** The sweep of the ring as it stands, with the counters as they stand. */
    ghost function SweepNow(target: int, bytes: int): Swept
      reads this`nonGhostCount, this`totalEstimatedSize, ring, ring.ring
    {
      SweepFrom(Items(ring.ring), 0, target, bytes, nonGhostCount, totalEstimatedSize, {})
    }

    /**
     * The loop body of `_sweep` for one object: an up-to-date object is
     * deactivated, with `_persistent_deactivate_ran` cleared first, and
     * recorded (one non-ghost fewer) when the flag is set or its class is
     * not sweepable.
     */
    method Visit(value: Persistent) returns (recorded: bool)
      requires Valid()
      modifies this`deactivateRan, this`nonGhostCount, value`flags, value`dict
      ensures Valid()
      ensures var it := SweepItem(old(value.Snap()), value.sweepable);
        value.Snap() == Visited(it) && (recorded <==> Ejects(it))
      ensures nonGhostCount == old(nonGhostCount) - if recorded then 1 else 0
    {
      recorded := false;
      if P.State(value.Snap()) == P.UPTODATE {
        deactivateRan := false;
        value.Deactivate();
        if deactivateRan || !value.sweepable {
          recorded := true;
          nonGhostCount := nonGhostCount - 1;
        }
      }
      ValidKept();
    }

    /** One turn of `_sweep`'s loop once the budgets are found unmet: look at position `i` and record it or not. */
    method SweepStep(ghost objs0: seq<Persistent>, ghost items: seq<SweepItem>, i: nat, ghost idx: seq<nat>, ghost E: set<nat>,
                     toEject: seq<(int, Persistent)>, target: int, bytes: int, ghost r0: Swept)
      returns (toEject': seq<(int, Persistent)>, ghost idx': seq<nat>, ghost E': set<nat>)
      requires Valid() && ring.ring == objs0 && i < |objs0| && Distinct(objs0)
      requires SweepAt(objs0, items, i, idx, E, toEject, target, bytes, nonGhostCount, totalEstimatedSize, r0)
      requires Reached(objs0, items, i)
      requires !Satisfied(target, bytes, nonGhostCount, totalEstimatedSize)
      modifies this`deactivateRan, this`nonGhostCount, {objs0[i]}`flags, {objs0[i]}`dict
      ensures Valid()
      ensures SweepAt(objs0, items, i + 1, idx', E', toEject', target, bytes, nonGhostCount, totalEstimatedSize, r0)
      ensures Reached(objs0, items, i + 1)
    {
      var value := ring.ring[i];
      assert StateAt(objs0, i) == items[i].obj;
      assert items[i] == SweepItem(value.Snap(), value.sweepable);
      var recorded := Visit(value);
      assert forall x | 0 <= x < |objs0| && x != i :: objs0[x] != value;
      VisitedOneMore((objs0, items, i));
      if recorded {
        toEject', idx', E' := toEject + [(i, value)], idx + [i], E + {i};
        assert SetOf(idx') == E';
        assert SweepFrom(items, i + 1, target, bytes, nonGhostCount, totalEstimatedSize, E') == r0;
      } else {
        toEject', idx', E' := toEject, idx, E;
        assert SweepFrom(items, i + 1, target, bytes, nonGhostCount, totalEstimatedSize, E') == r0;
      }
    }

    /**
     * `_sweep`'s loop over the ring `objs0`, which it does not change: from
     * the least recently used end, until the budgets are met.
     */
    method SweepLoop(ghost objs0: seq<Persistent>, ghost items: seq<SweepItem>, target: int, bytes: int, ghost r0: Swept)
      returns (toEject: seq<(int, Persistent)>, ghost idx: seq<nat>, ghost E: set<nat>)
      requires Valid() && ring.ring == objs0 && Distinct(objs0) && Reached(objs0, items, 0)
      requires SweepAt(objs0, items, 0, [], {}, [], target, bytes, nonGhostCount, totalEstimatedSize, r0)
      modifies this`deactivateRan, this`nonGhostCount, RingSet()`flags, RingSet()`dict
      ensures Valid()
      ensures SweepAt(objs0, items, r0.stop, idx, E, toEject, target, bytes, nonGhostCount, totalEstimatedSize, r0)
      ensures r0 == Swept(r0.stop, nonGhostCount, E) && Reached(objs0, items, r0.stop)
    {
      var i := 0;
      toEject, idx, E := [], [], {};
      while i < |ring.ring|
        invariant Valid() && ring.ring == objs0
        invariant SweepAt(objs0, items, i, idx, E, toEject, target, bytes, nonGhostCount, totalEstimatedSize, r0)
        invariant Reached(objs0, items, i)
        decreases |objs0| - i
      {
        if Satisfied(target, bytes, nonGhostCount, totalEstimatedSize) {
          break;
        }
        toEject, idx, E := SweepStep(objs0, items, i, idx, E, toEject, target, bytes, r0);
        i := i + 1;
      }
      assert i == |items| || Satisfied(target, bytes, nonGhostCount, totalEstimatedSize);
      assert r0 == Swept(i, nonGhostCount, E);
    }

    /** `ring.delete_all(to_eject)` when anything was recorded: the ring keeps the positions not recorded. */
    method EjectRecorded(ghost objs0: seq<Persistent>, toEject: seq<(int, Persistent)>, ghost idx: seq<nat>)
      requires Valid() && ring.ring == objs0 && |idx| == |toEject|
      requires forall j | 0 <= j < |idx| :: idx[j] < |objs0| && toEject[j] == (idx[j] as int, objs0[idx[j]])
      requires forall j, k | 0 <= j < k < |idx| :: idx[j] < idx[k]
      modifies ring
      ensures Valid() && ring.ring == Keep(objs0, SetOf(idx)) && |SetOf(idx)| == |toEject|
    {
      ghost var dels := LR.Keyed(toEject);
      RecordedPairs(objs0, idx, toEject);
      KeptRing(objs0, SetOf(idx));
      StoredAfterKeep(objs0, data, SetOf(idx));
      DeleteRecorded(toEject, dels);
    }

    /** `if ejected: self.ring.delete_all(to_eject)`, for pairs in increasing position. */
    method DeleteRecorded(toEject: seq<(int, Persistent)>, ghost dels: seq<(int, Option<Oid>)>)
      requires dels == LR.Keyed(toEject) && PyRing.IncreasingIndexes(dels, |ring.ring|)
      modifies ring
      ensures ring.ring == Keep(old(ring.ring), PyRing.IndexSet(dels))
      ensures ring.ringOids == old(ring.ringOids) - PyRing.ValueOids(dels)
    {
      PyRing.DeleteAllRemovesIndexes(ring.State(), dels);
      if |toEject| > 0 {
        var _ := ring.DeleteAll(toEject);
      } else {
        assert dels == [];
      }
    }

    /**
     * `_sweep(target, target_size_bytes)`, under the `_sweeping_ring` guard:
     * walk the ring, deactivating the up-to-date objects until the budgets
     * are met, then delete the recorded ones from the ring at once. The
     * ring keeps the objects not recorded, in order; the objects reached
     * were deactivated and the others are untouched.
     */
    method Sweep(target: int, bytes: int) returns (ejected: nat)
      requires Valid()
      modifies this`sweeping, this`deactivateRan, this`nonGhostCount, ring, RingSet()`flags, RingSet()`dict
      ensures Valid() && data == old(data) && classes == old(classes) && !sweeping
      ensures totalEstimatedSize == old(totalEstimatedSize)
      ensures var r := old(SweepNow(target, bytes));
        && ejected == |r.ejected| && nonGhostCount == r.count
        && ring.ring == Keep(old(ring.ring), r.ejected)
        && Reached(old(ring.ring), old(Items(ring.ring)), r.stop)
    {
      ghost var objs0 := ring.ring;
      ghost var items, r0 := SweepBegins(target, bytes);
      SetSweeping(true, objs0, items, 0);
      ejected := SweepRing(objs0, items, target, bytes, r0);
      SetSweeping(false, objs0, items, r0.stop);
    }

    /** A sweep starts at the ring's first object, with nothing reached and nothing recorded. */
    lemma SweepBegins(target: int, bytes: int) returns (items: seq<SweepItem>, r0: Swept)
      requires Valid()
      ensures items == Items(ring.ring) && r0 == SweepNow(target, bytes)
      ensures Distinct(ring.ring) && Reached(ring.ring, items, 0)
      ensures SweepAt(ring.ring, items, 0, [], {}, [], target, bytes, nonGhostCount, totalEstimatedSize, r0)
    {
      var objs0 := ring.ring;
      items := Items(objs0);
      r0 := SweepNow(target, bytes);
      LR.OidsDistinctObjects(objs0);
      assert Reached(objs0, items, 0) by {
        forall x | 0 <= x < |objs0|
          ensures StateAt(objs0, x) == items[x].obj
        {
        }
      }
    }

    /** The guarded part of `_sweep`: the loop, then the deletion of the recorded objects from the ring. */
    method SweepRing(ghost objs0: seq<Persistent>, ghost items: seq<SweepItem>, target: int, bytes: int, ghost r0: Swept)
      returns (ejected: nat)
      requires Valid() && ring.ring == objs0 && Distinct(objs0) && Reached(objs0, items, 0)
      requires SweepAt(objs0, items, 0, [], {}, [], target, bytes, nonGhostCount, totalEstimatedSize, r0)
      modifies this`deactivateRan, this`nonGhostCount, ring, RingSet()`flags, RingSet()`dict
      ensures Valid() && ejected == |r0.ejected| && nonGhostCount == r0.count
      ensures ring.ring == Keep(objs0, r0.ejected) && Reached(objs0, items, r0.stop)
      ensures data == old(data) && classes == old(classes) && totalEstimatedSize == old(totalEstimatedSize)
    {
      var toEject, idx, E := SweepLoop(objs0, items, target, bytes, r0);
      EjectRecorded(objs0, toEject, idx);
      ejected := |toEject|;
    }

    /** Set the `_sweeping_ring` guard; no object and nothing the cache's invariant is about changes. */
    method SetSweeping(b: bool, ghost objs0: seq<Persistent>, ghost items: seq<SweepItem>, ghost i: nat)
      requires Valid() && Reached(objs0, items, i)
      modifies this`sweeping
      ensures sweeping == b && Valid() && Reached(objs0, items, i)
      ensures data == old(data) && classes == old(classes) && totalEstimatedSize == old(totalEstimatedSize)
    {
      sweeping := b;
    }

    /** `incrgc`: sweep down to the current cache's target within the byte budget `cache_size_bytes`. */
    method IncrGc() returns (ejected: nat)
      requires Valid()
      modifies this`sweeping, this`deactivateRan, this`nonGhostCount, ring, RingSet()`flags, RingSet()`dict
      ensures Valid() && data == old(data) && classes == old(classes) && !sweeping
      ensures var r := old(SweepNow(PC.IncrGcTarget(cacheSize, drainResistance, nonGhostCount), cacheSizeBytes));
        && ejected == |r.ejected| && nonGhostCount == r.count
        && ring.ring == Keep(old(ring.ring), r.ejected)
    {
      var target := PC.IncrGcTarget(cacheSize, drainResistance, nonGhostCount);
      ejected := Sweep(target, cacheSizeBytes);
    }

    /**
     * `full_sweep` (which `minimize` is bound to): a sweep with target 0 and
     * no byte budget. When the non-ghost count is at least the number of
     * objects it may record, it records them all.
     */
    method FullSweep() returns (ejected: nat)
      requires Valid()
      modifies this`sweeping, this`deactivateRan, this`nonGhostCount, ring, RingSet()`flags, RingSet()`dict
      ensures Valid() && data == old(data) && classes == old(classes) && !sweeping
      ensures var r := old(SweepNow(0, 0));
        && ejected == |r.ejected| && nonGhostCount == old(nonGhostCount) - ejected
        && ring.ring == Keep(old(ring.ring), r.ejected)
      ensures var E := old(EjectableFrom(Items(ring.ring), 0));
        old(nonGhostCount) >= |E| ==> ring.ring == Keep(old(ring.ring), E) && ejected == |E|
    {
      ghost var items := Items(ring.ring);
      SweepCount(items, 0, 0, 0, nonGhostCount, totalEstimatedSize, {});
      if nonGhostCount >= |EjectableFrom(items, 0)| {
        FullSweepEjectsAll(items, 0, nonGhostCount, totalEstimatedSize, {});
      }
      ejected := Sweep(0, 0);
    }

    // ------------------------------------------------------------ ghosts, reify, invalidate

    /** The object stored under `oid`, if any, as a set. */
    ghost function StoredAt(oid: Oid): set<Persistent>
      reads this`data
    {
      if oid in data then {data[oid]} else {}
    }

    /** An object without an oid is not stored. */
    lemma NotStored(p: Persistent)
      requires Keyed() && p.oid.None?
      ensures p !in data.Values
    {
      forall k | k in data
        ensures data[k] != p
      {
      }
    }

    /**
     * `new_ghost(oid, obj)`: a value with no `_p_oid` slot raises
     * AttributeError; one that already has an oid or a jar is a ValueError,
     * and an oid already cached a KeyError. Otherwise the value is given the
     * oid and this cache's jar. A class is then stored. An instance is now
     * up to date and is sent to `_p_invalidate_deactivate_helper`, which the
     * legacy `Persistent` does not define: AttributeError, with the oid and
     * jar left set and nothing stored.
     */
    method NewGhost(oid: Oid, value: Value) returns (outcome: Outcome)
      requires Valid()
      modifies this`classes, this`data, this`nonGhostCount, ring
      modifies ValueObjects(value)`oid, ValueObjects(value)`jar, ValueObjects(value)`flags
      ensures Valid() && ring.ring == old(ring.ring) && nonGhostCount == old(nonGhostCount) && data == old(data)
      ensures outcome == Fail(ValueError) <==> !value.Uncacheable? && (old(OidOf(value)).Some? || old(JarOf(value)).Some?)
      ensures outcome == Fail(KeyError) <==>
        !value.Uncacheable? && old(OidOf(value)).None? && old(JarOf(value)).None? && (oid in old(data) || oid in old(classes))
      ensures outcome == Fail(AttributeError) <==>
        (value.Uncacheable? ||
         (value.Instance? && old(OidOf(value)).None? && old(JarOf(value)).None? && oid !in old(data) && oid !in old(classes)))
      ensures outcome.Pass? ==> value.Klass? && classes == old(classes)[oid := value.c.(oid := Some(oid), jar := Some(jar))]
      ensures outcome.Fail? ==> classes == old(classes)
      ensures value.Instance? && outcome == Fail(AttributeError) ==>
        value.p.Snap() == old(value.p.Snap()).(oid := Some(oid), jar := Some(jar), flags := Some(P.CLEAN))
      ensures value.Instance? && outcome != Fail(AttributeError) ==> value.p.Snap() == old(value.p.Snap())
    {
      if value.Uncacheable? {
        return Fail(AttributeError);
      }
      if OidOf(value).Some? || JarOf(value).Some? {
        return Fail(ValueError);
      }
      if oid in classes || oid in data {
        return Fail(KeyError);
      }
      if value.Klass? {
        var c := value.c.(oid := Some(oid), jar := Some(jar));
        outcome := SetItem(BytesValue(oid), Klass(c), false);
        return;
      }
      AssignIds(oid, value.p);
      assert P.State(value.p.Snap()) != P.GHOST;
      outcome := Fail(AttributeError);
    }

    /** `obj._p_oid = oid; obj._p_jar = self.jar` for an object not stored here: it is now up to date. */
    method AssignIds(oid: Oid, p: Persistent)
      requires Valid() && p.oid.None? && p.jar.None?
      modifies p`oid, p`jar, p`flags
      ensures Valid() && p.Snap() == old(p.Snap()).(oid := Some(oid), jar := Some(jar), flags := Some(P.CLEAN))
    {
      NotStored(p);
      var _ := p.SetOid(OidBytes(oid));
      var _ := p.SetJar(Some(jar));
      ValidKept();
    }

    /**
     * One oid of `reify`: `self[oid]`, a KeyError for an oid not cached; a
     * ghost object is activated with the state its jar loads (`load`),
     * counted as a non-ghost, and passed to `mru`. Any other object is left
     * alone; a class goes to `ReifyClass`. `act` is the count of activations
     * (0 or 1).
     */
    method ReifyOne(oid: Oid, load: P.Load) returns (outcome: Outcome, ghost act: nat)
      requires Valid()
      modifies this`nonGhostCount, ring, StoredAt(oid)`flags, StoredAt(oid)`dict
      ensures Valid() && data == old(data) && classes == old(classes) && sweeping == old(sweeping)
      ensures outcome == Fail(KeyError) <==>
        (oid !in data && oid !in classes) || (oid in classes && classes[oid].state == Some(P.GHOST) && !sweeping)
      ensures outcome == Fail(AttributeError) <==> oid in classes && classes[oid].state.None?
      ensures outcome.Fail? ==> outcome.error in {KeyError, CallbackError, AttributeError} && ring.ring == old(ring.ring)
      ensures nonGhostCount == old(nonGhostCount) + act + (|ring.ring| - |old(ring.ring)|)
      ensures act == (if (oid in data && old(P.State(data[oid].Snap())) == P.GHOST && outcome.Pass?)
                         || (oid in classes && classes[oid].state == Some(P.GHOST)) then 1 else 0)
      ensures oid in data && old(P.State(data[oid].Snap())) != P.GHOST ==>
        && data[oid].Snap() == old(data[oid].Snap()) && outcome.Pass?
        && ring.ring == old(ring.ring) && nonGhostCount == old(nonGhostCount)
      ensures oid in data && old(P.State(data[oid].Snap())) == P.GHOST ==>
        var a := ActivateStep(old(data[oid].Snap()), load);
        && data[oid].Snap() == a.obj && outcome == a.outcome
        && (outcome.Pass? && !sweeping ==>
             ring.ring == Touched(old(ring.ring), data[oid], P.State(data[oid].Snap()) == P.GHOST))
      ensures oid !in data ==> ring.ring == old(ring.ring)
      ensures sweeping ==> ring.ring == old(ring.ring)
      ensures forall q | q in old(ring.ring) :: q in ring.ring
      ensures oid in data && old(P.State(data[oid].Snap())) == P.GHOST && outcome.Pass? && !sweeping && P.State(data[oid].Snap()) != P.GHOST ==>
        data[oid] in ring.ring
      ensures forall k | k in data && k != oid :: data[k].Snap() == old(data[k].Snap())
    {
      act := 0;
      if oid !in data && oid !in classes {
        outcome := Fail(KeyError);
      } else if oid in classes {
        outcome, act := ReifyClass(classes[oid]);
      } else if P.State(data[oid].Snap()) == P.GHOST {
        outcome := ReifyGhost(oid, load);
        act := if outcome.Pass? then 1 else 0;
        OthersKept(oid);
        return;
      } else {
        outcome := Pass;
      }
      OthersKept(oid);
    }

    /** `ReifyOne` on the ghost stored under `oid`: activated, counted, and passed to `mru`. */
    method ReifyGhost(oid: Oid, load: P.Load) returns (outcome: Outcome)
      requires Valid() && oid in data && P.State(data[oid].Snap()) == P.GHOST
      modifies this`nonGhostCount, ring, StoredAt(oid)`flags, StoredAt(oid)`dict
      ensures Valid() && data == old(data) && classes == old(classes) && sweeping == old(sweeping)
      ensures data[oid].Snap() == ActivateStep(old(data[oid].Snap()), load).obj
      ensures outcome == ActivateStep(old(data[oid].Snap()), load).outcome
      ensures outcome.Fail? ==> outcome.error == CallbackError && ring.ring == old(ring.ring) && nonGhostCount == old(nonGhostCount)
      ensures outcome.Pass? ==> nonGhostCount == old(nonGhostCount) + 1 + (|ring.ring| - |old(ring.ring)|)
      ensures outcome.Pass? && !sweeping ==> ring.ring == Touched(old(ring.ring), data[oid], P.State(data[oid].Snap()) == P.GHOST)
      ensures sweeping ==> ring.ring == old(ring.ring)
    {
      var value := data[oid];
      var _, activated := value.Activate(load);
      ValidKept();
      outcome := activated;
      if outcome.Fail? {
        return;
      }
      nonGhostCount := nonGhostCount + 1;
      var _, _ := Mru(oid);
    }

    /**
     * `reify` on a class: reading `_p_state` is an AttributeError when the
     * class has none; a class that reads as a ghost has its own
     * `_p_activate` called (taken to return and to change nothing this cache
     * holds), is counted as a non-ghost, and is refused by `mru` with a
     * KeyError, since `data` does not hold it, unless the ring is being
     * swept. Any other class is left alone.
     */
    method ReifyClass(c: PC.PClass) returns (outcome: Outcome, ghost act: nat)
      modifies this`nonGhostCount
      ensures outcome == Fail(AttributeError) <==> c.state.None?
      ensures outcome == Fail(KeyError) <==> c.state == Some(P.GHOST) && !sweeping
      ensures outcome.Fail? ==> outcome.error in {KeyError, AttributeError}
      ensures act == (if c.state == Some(P.GHOST) then 1 else 0) && nonGhostCount == old(nonGhostCount) + act
    {
      act := 0;
      if c.state.None? {
        return Fail(AttributeError), act;
      }
      outcome := Pass;
      if c.state.value == P.GHOST {
        nonGhostCount := nonGhostCount + 1;
        act := 1;
        if !sweeping {
          outcome := Fail(KeyError);
        }
      }
    }

    /** After a step that changed at most the object under `oid`, every other object is as it was. */
    twostate lemma OthersKept(oid: Oid)
      requires Keyed() && data == old(data)
      requires forall q | q in data.Values && q !in StoredAt(oid) :: unchanged(q)
      ensures forall k | k in data && k != oid :: data[k].Snap() == old(data[k].Snap())
    {
      forall k | k in data && k != oid
        ensures unchanged(data[k])
      {
        assert data[k] !in StoredAt(oid);
      }
    }

    /** The first `n` oids of `oids` are cached. */
    ghost predicate Reified(oids: seq<Oid>, n: nat)
      reads this`data, this`classes
    {
      n <= |oids| && forall x | 0 <= x < n :: oids[x] in data || oids[x] in classes
    }

    /** The part of the cache that `reify` and `invalidate` account for. */
    ghost function Tallied(): Tally
      reads this, ring, data.Values
    {
      Tally((map k | k in data :: data[k].Snap()), ring.ring, nonGhostCount, data)
    }

    /** The tally records an object under each oid that stores one. */
    lemma TalliedKeys()
      ensures Tallied().snaps.Keys == Tallied().stored.Keys == data.Keys
    {
    }

    /** Restates one `reify` step of `ReifyOne` on the tally. */
    twostate lemma TallyKept(t: (Oid, bool, nat))
      requires var (oid, passed, act) := t;
        && Keyed() && data == old(data) && classes == old(classes)
        && (forall k | k in data && k != oid :: data[k].Snap() == old(data[k].Snap()))
        && (oid in data && old(P.State(data[oid].Snap())) != P.GHOST ==> data[oid].Snap() == old(data[oid].Snap()))
        && nonGhostCount == old(nonGhostCount) + act + (|ring.ring| - |old(ring.ring)|)
        && act == (if (oid in data && old(P.State(data[oid].Snap())) == P.GHOST && passed)
                     || (oid in classes && classes[oid].state == Some(P.GHOST)) then 1 else 0)
        && (forall q | q in old(ring.ring) :: q in ring.ring) && (sweeping ==> ring.ring == old(ring.ring))
        && (oid in data && old(P.State(data[oid].Snap())) == P.GHOST && passed && !sweeping && P.State(data[oid].Snap()) != P.GHOST ==>
             data[oid] in ring.ring)
      ensures TallyStep(t.0, old(Tallied()), Tallied(), classes, sweeping, t.1, t.2)
    {
    }

    /** One pass of `reify`'s loop: `ReifyOne` on the `i`th oid. */
    method ReifyStep(oids: seq<Oid>, loads: seq<P.Load>, i: nat) returns (outcome: Outcome, ghost act: nat)
      requires Valid() && i < |oids| == |loads| && Reified(oids, i)
      modifies this`nonGhostCount, ring, StoredAt(oids[i])`flags, StoredAt(oids[i])`dict
      ensures Valid() && data == old(data) && classes == old(classes) && sweeping == old(sweeping)
      ensures outcome == Fail(KeyError) <==>
        (oids[i] !in data && oids[i] !in classes) || (oids[i] in classes && classes[oids[i]].state == Some(P.GHOST) && !sweeping)
      ensures outcome == Fail(AttributeError) <==> oids[i] in classes && classes[oids[i]].state.None?
      ensures outcome.Fail? ==> outcome.error in {KeyError, CallbackError, AttributeError}
      ensures outcome.Pass? ==> Reified(oids, i + 1)
      ensures TallyStep(oids[i], old(Tallied()), Tallied(), classes, sweeping, outcome.Pass?, act)
    {
      outcome, act := ReifyOne(oids[i], loads[i]);
      TallyKept((oids[i], outcome.Pass?, act));
    }

    /**
     * Where `reify`'s loop stands after `i` oids, from the tally `s` with
     * `acts` activations counted: the cache is valid, the oids so far are
     * cached, and `ReifyTally` relates `s` to the cache as it is now.
     */
    ghost predicate Reifying(oids: seq<Oid>, i: nat, s: Tally, acts: nat)
      reads this, ring, ring.ring, data.Values
    {
      Valid() && Reified(oids, i) && ReifyTally(oids, i, s, Tallied(), classes, sweeping, acts)
    }

    /** One pass of `reify`'s loop, carrying `Reifying` on when it passes. */
    method ReifyNext(oids: seq<Oid>, loads: seq<P.Load>, i: nat, ghost s: Tally, ghost acts: nat) returns (outcome: Outcome, ghost act: nat)
      requires i < |oids| == |loads| && Reifying(oids, i, s, acts)
      modifies this`nonGhostCount, ring, data.Values`flags, data.Values`dict
      ensures Valid() && data == old(data) && classes == old(classes) && sweeping == old(sweeping)
      ensures outcome == Fail(KeyError) <==>
        (oids[i] !in data && oids[i] !in classes) || (oids[i] in classes && classes[oids[i]].state == Some(P.GHOST) && !sweeping)
      ensures outcome == Fail(AttributeError) <==> oids[i] in classes && classes[oids[i]].state.None?
      ensures outcome.Fail? ==> outcome.error in {KeyError, CallbackError, AttributeError}
      ensures outcome.Pass? ==> Reifying(oids, i + 1, s, acts + act)
      ensures outcome.Fail? ==> TallyStep(oids[i], old(Tallied()), Tallied(), classes, sweeping, false, act)
    {
      ghost var a := Tallied();
      outcome, act := ReifyStep(oids, loads, i);
      if outcome.Pass? {
        ReifyTallyMore(oids, i, s, a, Tallied(), classes, sweeping, acts, act);
      }
    }

    /**
     * `reify(oids)` (a single bytes oid is the one-element case): each oid in
     * turn, `loads` giving what its jar loads, until the first error. `done`
     * oids went through, with `acts` activations counted, and `ReifyTally`
     * says what changed: only those objects, the ring gaining the ones that
     * came back to life, and the count.
     */
    method Reify(oids: seq<Oid>, loads: seq<P.Load>) returns (outcome: Outcome, ghost done: nat, ghost acts: nat, ghost act: nat,
                                                            ghost start: Tally, ghost before: Tally, ghost finish: Tally)
      requires Valid() && |loads| == |oids|
      modifies this`nonGhostCount, ring, data.Values`flags, data.Values`dict
      ensures start == old(Tallied()) && finish == Tallied()
      ensures Valid() && data == old(data) && classes == old(classes)
      ensures done <= |oids| && (outcome.Pass? <==> done == |oids|)
      ensures outcome.Fail? ==>
        && outcome.error in {KeyError, CallbackError, AttributeError}
        && (outcome.error == KeyError <==>
             (oids[done] !in data && oids[done] !in classes) || (oids[done] in classes && classes[oids[done]].state == Some(P.GHOST) && !sweeping))
        && (outcome.error == AttributeError <==> oids[done] in classes && classes[oids[done]].state.None?)
      ensures forall x | 0 <= x < done :: oids[x] in data || oids[x] in classes
      ensures ReifyTally(oids, done, start, before, classes, sweeping, acts)
      ensures outcome.Pass? ==> finish == before
      ensures outcome.Fail? ==> TallyStep(oids[done], before, finish, classes, sweeping, false, act)
    {
      start, acts, act := Tallied(), 0, 0;
      ghost var s := start;
      ReifyTallyNone(oids, s, classes, sweeping);
      var i := 0;
      outcome := Pass;
      while i < |oids|
        invariant Reifying(oids, i, s, acts) && data == old(data) && classes == old(classes) && outcome.Pass?
      {
        ghost var a := Tallied();
        outcome, act := ReifyNext(oids, loads, i, s, acts);
        if outcome.Fail? {
          done, before, finish := i, a, Tallied();
          return;
        }
        acts := acts + act;
        i := i + 1;
      }
      done := i;
      before, finish := Tallied(), Tallied();
    }

    /**
     * `_invalidate(oid)`, under the `_sweeping_ring` guard: a non-ghost
     * object is invalidated, deleted from the ring and counted out (even
     * when it was not in the ring); a class is dropped, and `classHook` says
     * whether it defines a `_p_invalidate` to call; an unknown oid, or a
     * ghost, changes nothing.
     */
    method InvalidateOne(oid: Oid) returns (classHook: bool)
      requires Valid()
      modifies this`sweeping, this`nonGhostCount, this`classes, ring, StoredAt(oid)`flags, StoredAt(oid)`dict
      ensures Valid() && data == old(data) && classes == old(classes) - {oid} && !sweeping
      ensures classHook <==> oid in old(classes) && old(classes[oid].hasInvalidate)
      ensures forall q | q in ring.ring :: q in old(ring.ring)
      ensures oid in data && old(P.State(data[oid].Snap())) != P.GHOST ==>
        var p := data[oid];
        && p.Snap() == InvalidateStep(old(p.Snap())).obj
        && p !in ring.ring
        && ring.ring == (if old(p in ring.ring) then old(RemoveAt(ring.ring, IndexOf(ring.ring, p))) else old(ring.ring))
        && nonGhostCount == old(nonGhostCount) - 1
      ensures !(oid in data && old(P.State(data[oid].Snap())) != P.GHOST) ==>
        && ring.ring == old(ring.ring) && nonGhostCount == old(nonGhostCount)
        && (oid in data ==> data[oid].Snap() == old(data[oid].Snap()))
    {
      Guard(true);
      classHook := false;
      if oid in data && P.State(data[oid].Snap()) != P.GHOST {
        assert oid !in classes && classes - {oid} == classes;
        InvalidateStored(data[oid]);
      } else if oid in classes {
        classHook := DropClass(oid);
      } else {
        assert classes - {oid} == classes;
      }
      Guard(false);
    }

    /** Set or clear `_is_sweeping_ring` and nothing else. */
    method Guard(b: bool)
      requires Valid()
      modifies this`sweeping
      ensures Valid() && sweeping == b
    {
      sweeping := b;
    }

    /** `self.persistent_classes.pop(oid)`, answering whether the class defines `_p_invalidate`. */
    method DropClass(oid: Oid) returns (hasInvalidate: bool)
      requires Valid() && oid in classes
      modifies this`classes
      ensures Valid() && classes == old(classes) - {oid}
      ensures hasInvalidate == old(classes[oid].hasInvalidate)
    {
      var c := classes[oid];
      classes := classes - {oid};
      hasInvalidate := c.hasInvalidate;
    }

    /** The object branch of `_invalidate`: `value._p_invalidate()`, `ring.delete(value)`, one non-ghost fewer. */
    method InvalidateStored(p: Persistent)
      requires Valid() && p in data.Values
      modifies this`nonGhostCount, ring, p`flags, p`dict
      ensures Valid() && data == old(data) && classes == old(classes)
      ensures p.Snap() == InvalidateStep(old(p.Snap())).obj
      ensures p !in ring.ring && forall q | q in ring.ring :: q in old(ring.ring)
      ensures ring.ring == if old(p in ring.ring) then old(RemoveAt(ring.ring, IndexOf(ring.ring, p))) else old(ring.ring)
      ensures nonGhostCount == old(nonGhostCount) - 1
    {
      p.Invalidate();
      ValidKept();
      Unlink(p);
      nonGhostCount := nonGhostCount - 1;
    }

    /** Restates one `_invalidate(oid)` of `InvalidateOne` on the tally. */
    twostate lemma InvalidateKept(oid: Oid)
      requires Keyed() && data == old(data)
      requires forall q | q in data.Values && q !in StoredAt(oid) :: unchanged(q)
      requires forall q | q in ring.ring :: q in old(ring.ring)
      requires oid in data ==> data[oid].jar == old(data[oid].jar)
      requires oid in data && old(P.State(data[oid].Snap())) != P.GHOST ==>
        && data[oid] !in ring.ring && nonGhostCount == old(nonGhostCount) - 1
        && (old(data[oid].jar).Some? ==> P.State(data[oid].Snap()) == P.GHOST)
      requires !(oid in data && old(P.State(data[oid].Snap())) != P.GHOST) ==>
        && ring.ring == old(ring.ring) && nonGhostCount == old(nonGhostCount)
        && (oid in data ==> data[oid].Snap() == old(data[oid].Snap()))
      ensures InvalidateStepped(oid, old(Tallied()), Tallied())
    {
      forall k | k in data && k != oid
        ensures data[k].Snap() == old(data[k].Snap())
      {
        assert data[k] !in StoredAt(oid);
        assert unchanged(data[k]);
      }
    }

    /**
     * Where `invalidate`'s loop stands after `i` oids: the cache is valid,
     * the classes named so far are dropped, and `hist` holds the tallies
     * gone through, the last one the cache as it is now.
     */
    ghost predicate Invalidating(oids: seq<Oid>, i: nat, classes0: map<Oid, PC.PClass>, hist: seq<Tally>)
      reads this, ring, ring.ring, data.Values
    {
      && Valid() && i <= |oids| && classes == classes0 - SetOf(oids[..i]) && (0 < i ==> !sweeping)
      && |hist| == i + 1 && hist[i] == Tallied() && InvalidatedAlong(oids, hist)
    }

    /** One pass of `invalidate`'s loop: `_invalidate` the `i`th oid, one more tally in `hist`. */
    method InvalidateNext(oids: seq<Oid>, i: nat, ghost classes0: map<Oid, PC.PClass>, ghost hist: seq<Tally>) returns (ghost hist': seq<Tally>)
      requires i < |oids| && Invalidating(oids, i, classes0, hist)
      modifies this`sweeping, this`nonGhostCount, this`classes, ring, data.Values`flags, data.Values`dict
      ensures Invalidating(oids, i + 1, classes0, hist') && hist'[0] == hist[0] && data == old(data)
    {
      var _ := InvalidateOne(oids[i]);
      InvalidateKept(oids[i]);
      ghost var after := Tallied();
      AlongMore(oids, hist, after);
      hist' := hist + [after];
      SetOfPrefix(oids, i);
      MapRemoveMore(classes0, SetOf(oids[..i]), oids[i]);
    }

    /**
     * `invalidate(oids)` (a single bytes oid is the one-element case):
     * `_invalidate` each in turn. Every class named is dropped, and every
     * object named that has a jar ends a ghost; `InvalidateTally` says what
     * else changed: only the named objects that were not ghosts, each of
     * which left the ring, and the count, which fell by `dropped`.
     */
    method Invalidate(oids: seq<Oid>) returns (ghost dropped: nat, ghost start: Tally, ghost finish: Tally)
      requires Valid()
      modifies this`sweeping, this`nonGhostCount, this`classes, ring, data.Values`flags, data.Values`dict
      ensures start == old(Tallied()) && finish == Tallied()
      ensures Valid() && data == old(data) && sweeping == (old(sweeping) && |oids| == 0)
      ensures classes == old(classes) - SetOf(oids)
      ensures forall x | 0 <= x < |oids| && oids[x] in data && data[oids[x]].jar.Some? :: P.State(data[oids[x]].Snap()) == P.GHOST
      ensures InvalidateTally(oids, |oids|, start, finish, dropped)
    {
      ghost var data0, classes0 := data, classes;
      start, dropped := Tallied(), 0;
      TalliedKeys();
      ghost var hist := [start];
      var i := 0;
      assert oids[..0] == [];
      if |oids| == 0 {
        InvalidateTallyNone(oids, start);
        finish := start;
        return;
      }
      while i < |oids|
        invariant Invalidating(oids, i, classes0, hist) && hist[0] == start && data == data0
      {
        hist := InvalidateNext(oids, i, classes0, hist);
        i := i + 1;
      }
      assert oids[..i] == oids;
      dropped := InvalidateAlong(oids, hist);
      finish := hist[i];
      JarGhosts(oids, start, dropped);
    }

    /** What `InvalidateTally` says of the named objects with a jar, said of the cache. */
    lemma JarGhosts(oids: seq<Oid>, s: Tally, dropped: nat)
      requires InvalidateTally(oids, |oids|, s, Tallied(), dropped)
      ensures forall x | 0 <= x < |oids| && oids[x] in data && data[oids[x]].jar.Some? :: P.State(data[oids[x]].Snap()) == P.GHOST
    {
      assert oids[..|oids|] == oids;
      forall x | 0 <= x < |oids| && oids[x] in data && data[oids[x]].jar.Some?
        ensures P.State(data[oids[x]].Snap()) == P.GHOST
      {
        assert s.snaps[oids[x]].jar == data[oids[x]].jar;
      }
    }
  }
}
