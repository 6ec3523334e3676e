/**
 * The pure-Python pickle cache (src/persistent/picklecache.py): a map from
 * oids to the persistent objects of one jar, persistent classes kept apart,
 * and the LRU ring of the non-ghost objects, least recently used first.
 *
 * Sweeping the ring is specified by the pure function `SweepFrom` over a
 * snapshot of the ring's objects; the `Cache.Sweep` method walks the ring
 * with the node ring's `iteritems` steps, deleting the node it has just been
 * given, and is proved to end where `SweepFrom` does.
 *
 * An object's calls on "its jar's `_cache`" reach this cache when the
 * object's jar is this cache's jar (the cache's constructor attaches itself
 * to the jar); calls addressed to another jar's cache are not modelled.
 */
module PickleCache {
  import opened Common
  import opened Persistence
  import opened PyRing
  import LinkedRing

  // ---------------------------------------------------------------- values

  /**
   * A persistent class: its identity, `_p_oid`, `_p_jar`, whether it defines
   * `_p_invalidate`, and what reading `_p_state` on it gives (nothing when it
   * has no such attribute).
   */
  datatype PClass = PClass(id: nat, oid: Option<Oid>, jar: Option<Jar>, hasInvalidate: bool, state: Option<int>)

  /** What a caller hands the cache: a persistent instance, a persistent class, or anything else. */
  datatype Value = Instance(p: Persistent) | Klass(c: PClass) | Uncacheable

  function ValueObjects(v: Value): set<Persistent>
  {
    if v.Instance? then {v.p} else {}
  }

  /** `value._p_oid` (nothing for a value that has none). */
  function OidOf(v: Value): Option<Oid>
    reads ValueObjects(v)
  {
    match v
    case Instance(p) => p.oid
    case Klass(c) => c.oid
    case Uncacheable => None
  }

  /** `value._p_jar` (nothing for a value that has none). */
  function JarOf(v: Value): Option<Jar>
    reads ValueObjects(v)
  {
    match v
    case Instance(p) => p.jar
    case Klass(c) => c.jar
    case Uncacheable => None
  }

  // ---------------------------------------------------------------- sweeping, as a function

  /** What `_sweep` consults about a ring object: its slots, its `_p_deactivate`, and whether its jar is the cache's. */
  datatype SweepItem = SweepItem(obj: Obj, hook: DeactivateHook, ours: bool)

  /** Where a sweep stopped, the counters it left and the positions it ejected. */
  datatype Swept = Swept(stop: nat, count: int, total: int, ejected: set<nat>)

  /**
   * The test at the top of `_sweep`'s loop: some budget is set, the object
   * count is within the target (if one is set) and the byte total within the
   * byte budget (if one is set).
   */
  predicate Satisfied(target: int, bytes: int, count: int, total: int)
  {
    (target != 0 || bytes != 0) && (target == 0 || count <= target) && (total <= bytes || bytes == 0)
  }

  /**
   * The sweep ejects an up-to-date object whose base `_p_deactivate` runs and
   * tells this cache so (which only an object of this cache's jar does).
   */
  predicate Ejects(it: SweepItem)
  {
    State(it.obj) == UPTODATE && it.hook == BaseDeactivate && it.ours && it.obj.jar.Some?
  }

  /** How an object of the given jar sees this cache when it deactivates. */
  function ViewOf(ours: bool): CacheView
  {
    if ours then Cache(Self) else NoCache
  }

  /** The object after the sweep has looked at it: up-to-date objects are asked to deactivate. */
  function Visited(it: SweepItem): (r: Obj)
    ensures r.jar == it.obj.jar && r.oid == it.obj.oid && r.serial == it.obj.serial && r.size == it.obj.size
    ensures Ejects(it) ==> State(r) == GHOST && r.dict == map[]
    ensures State(it.obj) == UPTODATE && it.hook == BaseDeactivate && it.obj.jar.Some? ==> State(r) == GHOST
    ensures State(it.obj) != UPTODATE || it.hook == OverrideSkipsBase ==> r == it.obj
  {
    if State(it.obj) == UPTODATE then DispatchDeactivateStep(it.obj, it.hook, ViewOf(it.ours)).obj else it.obj
  }

  /**
   * `_sweep` from position `i` of the ring on, with the non-ghost count and
   * the estimated byte total as they stand and the positions ejected so far:
   * stop at the end or as soon as the budgets are met; eject an object
   * (one fewer non-ghost, its bytes no longer counted) or pass over it.
   */
  function SweepFrom(items: seq<SweepItem>, i: nat, target: int, bytes: int, count: int, total: int, ejected: set<nat>): (r: Swept)
    requires i <= |items|
    ensures i <= r.stop <= |items| && ejected <= r.ejected
    ensures r.stop == |items| || Satisfied(target, bytes, r.count, r.total)
    ensures i < |items| && !Satisfied(target, bytes, count, total) ==> i < r.stop
    ensures r.count <= count && r.total <= total
    decreases |items| - i
  {
    if i == |items| || Satisfied(target, bytes, count, total) then Swept(i, count, total, ejected)
    else if Ejects(items[i]) then
      SweepFrom(items, i + 1, target, bytes, count - 1,
                total + (EstimatedSizeIn24Bits(-1) - items[i].obj.size) * 64, ejected + {i})
    else SweepFrom(items, i + 1, target, bytes, count, total, ejected)
  }

  /** The ejected positions are exactly the ones reached before the stop whose object the sweep may eject. */
  lemma {:induction false} SweepEjected(items: seq<SweepItem>, i: nat, target: int, bytes: int,
                                        count: int, total: int, ejected: set<nat>)
    requires i <= |items| && forall x | x in ejected :: x < i
    ensures var r := SweepFrom(items, i, target, bytes, count, total, ejected);
      forall x: nat :: x in r.ejected <==> x in ejected || (i <= x < r.stop && Ejects(items[x]))
    decreases |items| - i
  {
    if i < |items| && !Satisfied(target, bytes, count, total) {
      if Ejects(items[i]) {
        SweepEjected(items, i + 1, target, bytes, count - 1,
                     total + (EstimatedSizeIn24Bits(-1) - items[i].obj.size) * 64, ejected + {i});
      } else {
        SweepEjected(items, i + 1, target, bytes, count, total, ejected);
      }
    }
  }

  /** Each ejection takes exactly one from the non-ghost count. */
  lemma {:induction false} SweepCount(items: seq<SweepItem>, i: nat, target: int, bytes: int,
                                      count: int, total: int, ejected: set<nat>)
    requires i <= |items| && forall x | x in ejected :: x < i
    ensures var r := SweepFrom(items, i, target, bytes, count, total, ejected);
      r.count + |r.ejected| == count + |ejected|
    decreases |items| - i
  {
    if i < |items| && !Satisfied(target, bytes, count, total) {
      if Ejects(items[i]) {
        assert i !in ejected;
        SweepCount(items, i + 1, target, bytes, count - 1,
                   total + (EstimatedSizeIn24Bits(-1) - items[i].obj.size) * 64, ejected + {i});
      } else {
        SweepCount(items, i + 1, target, bytes, count, total, ejected);
      }
    }
  }

  /** With neither budget set (`full_sweep`, `minimize`) the sweep never stops early. */
  lemma {:induction false} FullSweepReachesEnd(items: seq<SweepItem>, i: nat, count: int, total: int, ejected: set<nat>)
    requires i <= |items|
    ensures SweepFrom(items, i, 0, 0, count, total, ejected).stop == |items|
    decreases |items| - i
  {
    if i < |items| {
      if Ejects(items[i]) {
        FullSweepReachesEnd(items, i + 1, count - 1,
                            total + (EstimatedSizeIn24Bits(-1) - items[i].obj.size) * 64, ejected + {i});
      } else {
        FullSweepReachesEnd(items, i + 1, count, total, ejected);
      }
    }
  }

  /** The positions a full sweep ejects: every up-to-date object of this jar whose base `_p_deactivate` runs. */
  function Ejectable(items: seq<SweepItem>): set<nat>
  {
    set x: nat | x < |items| && Ejects(items[x])
  }

  lemma FullSweepEjects(items: seq<SweepItem>, count: int, total: int)
    ensures SweepFrom(items, 0, 0, 0, count, total, {}).ejected == Ejectable(items)
  {
    FullSweepReachesEnd(items, 0, count, total, {});
    SweepEjected(items, 0, 0, 0, count, total, {});
  }

  /** No sweep ejects a changed, sticky or ghost object, one of another jar, or one whose `_p_deactivate` skips the base. */
  lemma SweepSpares(items: seq<SweepItem>, target: int, bytes: int, count: int, total: int, x: nat)
    requires x < |items| && !Ejects(items[x])
    ensures x !in SweepFrom(items, 0, target, bytes, count, total, {}).ejected
  {
    SweepEjected(items, 0, target, bytes, count, total, {});
  }

  /** Ejection goes in ring order: a position passed over is never needed while a later one is ejected. */
  lemma SweepEjectsOldestFirst(items: seq<SweepItem>, target: int, bytes: int, count: int, total: int, x: nat, y: nat)
    requires x < y < |items| && Ejects(items[x])
    requires y in SweepFrom(items, 0, target, bytes, count, total, {}).ejected
    ensures x in SweepFrom(items, 0, target, bytes, count, total, {}).ejected
  {
    SweepEjected(items, 0, target, bytes, count, total, {});
  }

  /** Four up-to-date objects of this jar against a target of two: the two least recently used go. */
  lemma SweepToTargetExample(o: Obj)
    requires o.jar.Some? && o.flags == Some(CLEAN) && o.size == 1
    ensures var items := [SweepItem(o, BaseDeactivate, true), SweepItem(o, BaseDeactivate, true),
                          SweepItem(o, BaseDeactivate, true), SweepItem(o, BaseDeactivate, true)];
      SweepFrom(items, 0, 2, 0, 4, 256, {}) == Swept(2, 2, 128, {0, 1})
  {
    var it := SweepItem(o, BaseDeactivate, true);
    var items := [it, it, it, it];
    assert Ejects(it);
    assert {} + {0} == {0} && {0} + {1} == {0, 1};
    assert SweepFrom(items, 2, 2, 0, 2, 128, {0, 1}) == Swept(2, 2, 128, {0, 1});
    assert SweepFrom(items, 1, 2, 0, 3, 192, {0}) == SweepFrom(items, 2, 2, 0, 2, 128, {0, 1});
    assert SweepFrom(items, 0, 2, 0, 4, 256, {}) == SweepFrom(items, 1, 2, 0, 3, 192, {0});
  }

  /** `incrgc`'s target: the cache size, lowered to `size - 1 - size // drain_resistance` when a drain resistance is set. */
  function IncrGcTarget(cacheSize: int, drainResistance: int, nonGhost: int): (t: int)
    ensures t <= cacheSize
    ensures drainResistance >= 1 ==> t <= nonGhost - 1 - nonGhost / drainResistance
    ensures t == cacheSize || (drainResistance >= 1 && t == nonGhost - 1 - nonGhost / drainResistance)
  {
    if drainResistance >= 1 && nonGhost - 1 - nonGhost / drainResistance < cacheSize then
      nonGhost - 1 - nonGhost / drainResistance
    else cacheSize
  }

  /**
   * With a drain resistance of 2 and a hundred non-ghosts, a cache of size 90
   * sweeps down to 49, while one of size 10 keeps its own size as the target.
   */
  lemma IncrGcTargetExample()
    ensures IncrGcTarget(90, 2, 100) == 49 && IncrGcTarget(10, 2, 100) == 10
  {
  }

  /** The calls `_p_invalidate_deactivate_helper` makes, as `_p_deactivate` and `_p_invalidate` reach it. */
  lemma DeactivateCalls(o: Obj, hook: DeactivateHook, view: CacheView)
    ensures var c := DispatchDeactivateStep(o, hook, view).calls;
      (c == [] || c == [SizeUpdate(o.oid, -1), DeactivateRan]) &&
      (c != [] <==> hook == BaseDeactivate && o.flags == Some(CLEAN) && o.jar.Some? && view.Cache?)
  {
  }

  /**
   * The part of a sweep's progress that is about values: `objs0` (whose
   * positions `pos` gives, described by `items` for a cache of jar `jar`) has been walked
   * up to position `i`, `E` are the positions ejected, the ring now holds
   * `objs` (all but those, so the `j` kept and then those not reached), and sweeping on from
   * here with the counters `count` and `total` ends at `r0`.
   */
  ghost predicate SweepAt(objs0: seq<Persistent>, pos: map<Persistent, nat>, items: seq<SweepItem>, jar: Jar, i: nat, j: nat, E: set<nat>,
                          objs: seq<Persistent>, target: int, bytes: int, count: int, total: int, r0: Swept)
  {
    && PositionedBy(objs0, pos) && i <= |objs0| && |items| == |objs0| && (forall x | x in E :: x < i)
    && (forall x | 0 <= x < |objs0| :: items[x].hook == objs0[x].hook && (items[x].ours <==> items[x].obj.jar == Some(jar)))
    && objs == Keep(objs0, E) && j + |E| == i
    && SweepFrom(items, i, target, bytes, count, total, E) == r0
  }

  /** The state of the object at position `x` of `objs0`. */
  ghost function StateAt(objs0: seq<Persistent>, x: nat): Obj
    requires x < |objs0|
    reads objs0[x]
  {
    objs0[x].Snap()
  }

  /**
   * The objects of the ring a sweep started from, `objs0` (described by
   * `items`): the first `i` have been visited and the rest are as they were.
   */
  ghost predicate Reached(objs0: seq<Persistent>, items: seq<SweepItem>, i: nat)
    reads objs0
  {
    |items| == |objs0| && i <= |objs0|
    && forall x {:trigger StateAt(objs0, x)} | 0 <= x < |objs0| :: StateAt(objs0, x) == if x < i then Visited(items[x]) else items[x].obj
  }

  /**
   * Visiting the object at position `i`, and changing no other object of
   * the ring, reaches one more object.
   */
  twostate lemma VisitedOneMore(t: (seq<Persistent>, seq<SweepItem>, Jar, nat))
    requires var (objs0, items, jar, i) := t;
      && old(Reached(objs0, items, i)) && i < |objs0|
      && items[i].hook == objs0[i].hook && (items[i].ours <==> items[i].obj.jar == Some(jar))
      && (forall x | 0 <= x < |objs0| && x != i :: unchanged(objs0[x]))
      && objs0[i].Snap() == Visited(SweepItem(old(objs0[i].Snap()), objs0[i].hook, objs0[i].jar == Some(jar)))
    ensures Reached(t.0, t.1, t.3 + 1)
  {
    var (objs0, items, jar, i) := t;
    forall x | 0 <= x < |objs0|
      ensures StateAt(objs0, x) == if x < i + 1 then Visited(items[x]) else items[x].obj
    {
      assert old(StateAt(objs0, x)) == if x < i then Visited(items[x]) else items[x].obj;
    }
  }

  /** The ring holds `j` kept objects and then those not reached; the next one to reach is at position `j`. */
  lemma SweepAtHere(objs0: seq<Persistent>, pos: map<Persistent, nat>, items: seq<SweepItem>, jar: Jar, i: nat, j: nat, E: set<nat>,
                    objs: seq<Persistent>, target: int, bytes: int, count: int, total: int, r0: Swept)
    requires SweepAt(objs0, pos, items, jar, i, j, E, objs, target, bytes, count, total, r0)
    ensures |objs| == j + |objs0| - i
    ensures i < |objs0| ==> j < |objs| && objs[j] == objs0[i]
  {
    KeepKept(objs0, E, i);
  }

  /** With every dropped position before `i`, `Keep` is what was kept of the first `i` and then the rest. */
  lemma KeepKept(objs0: seq<Persistent>, E: set<nat>, i: nat)
    requires i <= |objs0| && forall x | x in E :: x < i
    ensures Keep(objs0, E) == Keep(objs0[..i], E) + objs0[i..]
    ensures |Keep(objs0[..i], E)| == i - |E|
  {
    KeepTail(objs0, E, i);
    KeepLength(objs0[..i], E);
  }

  /** A sweep of a ring without repeats, described by `items`, starts with nothing reached. */
  lemma SweepAtStart(objs0: seq<Persistent>, pos: map<Persistent, nat>, items: seq<SweepItem>, jar: Jar,
                     target: int, bytes: int, count: int, total: int)
    requires PositionedBy(objs0, pos) && |items| == |objs0|
    requires forall x | 0 <= x < |objs0| :: items[x].hook == objs0[x].hook && (items[x].ours <==> items[x].obj.jar == Some(jar))
    ensures SweepAt(objs0, pos, items, jar, 0, 0, {}, objs0, target, bytes, count, total, SweepFrom(items, 0, target, bytes, count, total, {}))
  {
    KeepNone(objs0);
  }

  /**
   * A sweep that has met its budgets or has kept every object it has
   * reached (`j` is the ring's length) is where `r0` says it stops, and the
   * ring holds exactly the objects not ejected.
   */
  lemma SweepAtEnd(objs0: seq<Persistent>, pos: map<Persistent, nat>, items: seq<SweepItem>, jar: Jar, i: nat, j: nat, E: set<nat>,
                   objs: seq<Persistent>, target: int, bytes: int, count: int, total: int, r0: Swept)
    requires SweepAt(objs0, pos, items, jar, i, j, E, objs, target, bytes, count, total, r0)
    requires j == |objs| || Satisfied(target, bytes, count, total)
    ensures r0 == Swept(i, count, total, E) && objs == Keep(objs0, E)
  {
    SweepAtHere(objs0, pos, items, jar, i, j, E, objs, target, bytes, count, total, r0);
  }

  /**
   * Visiting position `i` moves the sweep on: an ejected object leaves the
   * ring at position `j` and the counters drop as `SweepFrom` says; an
   * object passed over stays and the cursor goes past it.
   */
  lemma SweepAtNext(objs0: seq<Persistent>, pos: map<Persistent, nat>, items: seq<SweepItem>, jar: Jar, i: nat, j: nat, E: set<nat>,
                    objs: seq<Persistent>, target: int, bytes: int, count: int, total: int, r0: Swept,
                    ejected: bool, objs': seq<Persistent>, count': int, total': int)
    requires SweepAt(objs0, pos, items, jar, i, j, E, objs, target, bytes, count, total, r0)
    requires i < |objs0| && !Satisfied(target, bytes, count, total)
    requires ejected <==> Ejects(items[i])
    requires ejected ==> && j < |objs| && objs' == RemoveAt(objs, j) && count' == count - 1
                         && total' == total + (EstimatedSizeIn24Bits(-1) - items[i].obj.size) * 64
    requires !ejected ==> objs' == objs && count' == count && total' == total
    ensures SweepAt(objs0, pos, items, jar, i + 1, if ejected then j else j + 1, if ejected then E + {i} else E,
                    objs', target, bytes, count', total', r0)
  {
    if ejected {
      KeepDropNext(objs0, E, i, j);
      assert SweepFrom(items, i + 1, target, bytes, count', total', E + {i}) == r0;
    } else {
      assert SweepFrom(items, i + 1, target, bytes, count', total', E) == r0;
    }
  }

  // ---------------------------------------------------------------- the cache

  /**
   * What `mru` does to the ring order `before` for the object `p`: when its
   * node was not `linked`, it is appended unless it was a ghost (`ghosted`);
   * otherwise the object at the node's position `k` (`p` itself when `p` was
   * held) moves to the most recently used end.
   */
  ghost predicate Touched(before: seq<Persistent>, after: seq<Persistent>, p: Persistent, linked: bool, ghosted: bool, k: nat)
  {
    if !linked then after == (if ghosted then before else before + [p])
    else
      && k < |before|
      && after == RemoveAt(before, k) + [before[k]]
      && (p in before ==> k == IndexOf(before, p))
  }

  /** `mru` keeps every object the ring held. */
  lemma TouchedKeeps(before: seq<Persistent>, after: seq<Persistent>, p: Persistent, linked: bool, ghosted: bool, k: nat)
    requires Touched(before, after, p, linked, ghosted, k)
    ensures forall q | q in before :: q in after
  {
    if linked {
      RemoveAtWithin(before, k);
    }
  }

  /** The oids among the first `n` of `oids` whose object `snaps` records as a ghost. */
  ghost function GhostsAmong(oids: seq<Oid>, n: nat, snaps: map<Oid, Obj>): set<Oid>
    requires n <= |oids|
  {
    set x | 0 <= x < n && oids[x] in snaps && State(snaps[oids[x]]) == GHOST :: oids[x]
  }

  /** The oids among the first `n` of `oids` whose object `snaps` records as live. */
  ghost function LiveAmong(oids: seq<Oid>, n: nat, snaps: map<Oid, Obj>): set<Oid>
    requires n <= |oids|
  {
    set x | 0 <= x < n && oids[x] in snaps && State(snaps[oids[x]]) != GHOST :: oids[x]
  }

  /** The positions among the first `n` of `oids` that name a class whose `_p_state` reads as a ghost. */
  ghost function GhostClassAt(oids: seq<Oid>, n: nat, classes: map<Oid, PClass>): set<int>
    requires n <= |oids|
  {
    set x | 0 <= x < n && oids[x] in classes && classes[oids[x]].state == Some(GHOST)
  }

  /** One more oid adds itself to whichever of the three it belongs to. */
  lemma AmongMore(oids: seq<Oid>, n: nat, snaps: map<Oid, Obj>)
    requires n < |oids|
    ensures GhostsAmong(oids, n + 1, snaps) ==
      GhostsAmong(oids, n, snaps) + (if oids[n] in snaps && State(snaps[oids[n]]) == GHOST then {oids[n]} else {})
    ensures LiveAmong(oids, n + 1, snaps) ==
      LiveAmong(oids, n, snaps) + (if oids[n] in snaps && State(snaps[oids[n]]) != GHOST then {oids[n]} else {})
  {
  }

  /** One more oid adds one class hit when it names a class that reads as a ghost. */
  lemma GhostClassMore(oids: seq<Oid>, n: nat, classes: map<Oid, PClass>)
    requires n < |oids|
    ensures |GhostClassAt(oids, n + 1, classes)| ==
      |GhostClassAt(oids, n, classes)| + (if oids[n] in classes && classes[oids[n]].state == Some(GHOST) then 1 else 0)
  {
    var hit := oids[n] in classes && classes[oids[n]].state == Some(GHOST);
    assert GhostClassAt(oids, n + 1, classes) == GhostClassAt(oids, n, classes) + (if hit then {n} else {});
  }

  /** Nothing is among no oids. */
  lemma AmongNone(oids: seq<Oid>, snaps: map<Oid, Obj>, classes: map<Oid, PClass>)
    ensures GhostsAmong(oids, 0, snaps) == {} && LiveAmong(oids, 0, snaps) == {} && GhostClassAt(oids, 0, classes) == {}
  {
  }

  /** An oid among the first `n` that `snaps` records as a ghost, or as live, is found by `GhostsAmong` or `LiveAmong`. */
  lemma AmongHas(oids: seq<Oid>, n: nat, snaps: map<Oid, Obj>, k: Oid)
    requires n <= |oids| && k in oids[..n] && k in snaps
    ensures State(snaps[k]) == GHOST ==> k in GhostsAmong(oids, n, snaps)
    ensures State(snaps[k]) != GHOST ==> k in LiveAmong(oids, n, snaps)
  {
    var x :| 0 <= x < n && oids[..n][x] == k;
    assert oids[x] == k;
  }

  /** An oid found by `GhostsAmong` or `LiveAmong` is among the first `n`. */
  lemma AmongWithin(oids: seq<Oid>, n: nat, snaps: map<Oid, Obj>, k: Oid)
    requires n <= |oids| && (k in GhostsAmong(oids, n, snaps) || k in LiveAmong(oids, n, snaps))
    ensures k in oids[..n] && k in snaps
  {
    var x :| 0 <= x < n && oids[x] == k;
    assert oids[..n][x] == k;
  }

  /**
   * One more oid changes `GhostsAmong` only by itself, and only when it
   * is named here for the `first` time as a ghost and reified (`passed`).
   */
  lemma GhostsNext(oids: seq<Oid>, i: nat, snaps: map<Oid, Obj>, first: bool, passed: bool)
    requires i < |oids|
    requires first ==> oids[i] in snaps && State(snaps[oids[i]]) == GHOST && oids[i] !in oids[..i]
    requires !first && oids[i] in snaps && State(snaps[oids[i]]) == GHOST ==> oids[i] in oids[..i]
    ensures GhostsAmong(oids, if passed then i + 1 else i, snaps) ==
      GhostsAmong(oids, i, snaps) + (if first && passed then {oids[i]} else {})
    ensures first ==> oids[i] !in GhostsAmong(oids, i, snaps)
    ensures |GhostsAmong(oids, if passed then i + 1 else i, snaps)| ==
      |GhostsAmong(oids, i, snaps)| + (if first && passed then 1 else 0)
  {
    AmongMore(oids, i, snaps);
    if first && oids[i] in GhostsAmong(oids, i, snaps) {
      AmongWithin(oids, i, snaps, oids[i]);
    }
    if !first && oids[i] in snaps && State(snaps[oids[i]]) == GHOST {
      AmongHas(oids, i, snaps, oids[i]);
    }
  }

  /** One more oid adds one live object to those named when it names one not named before. */
  lemma LiveNext(oids: seq<Oid>, i: nat, snaps: map<Oid, Obj>)
    requires i < |oids|
    ensures oids[i] !in oids[..i] ==> oids[i] !in LiveAmong(oids, i, snaps)
    ensures oids[i] in oids[..i] && oids[i] in snaps && State(snaps[oids[i]]) != GHOST ==> oids[i] in LiveAmong(oids, i, snaps)
    ensures |LiveAmong(oids, i + 1, snaps)| ==
      |LiveAmong(oids, i, snaps)| + if oids[i] in snaps && State(snaps[oids[i]]) != GHOST && oids[i] !in oids[..i] then 1 else 0
  {
    AmongMore(oids, i, snaps);
    var live := LiveAmong(oids, i, snaps);
    if oids[i] in live {
      AmongWithin(oids, i, snaps, oids[i]);
    }
    if oids[i] in oids[..i] && oids[i] in snaps {
      AmongHas(oids, i, snaps, oids[i]);
      if State(snaps[oids[i]]) != GHOST {
        assert live + {oids[i]} == live;
      }
    }
    if oids[i] in snaps && State(snaps[oids[i]]) != GHOST && oids[i] !in oids[..i] {
      assert live * {oids[i]} == {};
      assert |live + {oids[i]}| == |live| + 1;
    }
  }

  /**
   * What `reify` and `invalidate` account for in a cache: every stored
   * object as it is, by oid; the ring order; the oids whose object is
   * linked into the ring; the non-ghost count; and which object is stored
   * under each oid.
   */
  datatype Tally = Tally(snaps: map<Oid, Obj>, objs: seq<Persistent>, linked: set<Oid>, count: int, stored: map<Oid, Persistent>)

  /** Objects not named among the first `m` of `oids`, or that were live in `s`, are as they were in `s`. */
  ghost predicate LiveKept(oids: seq<Oid>, m: nat, s: Tally, t: Tally)
    requires m <= |oids|
  {
    forall k | k in t.snaps && k in s.snaps && (k !in oids[..m] || State(s.snaps[k]) != GHOST) :: t.snaps[k] == s.snaps[k]
  }

  /**
   * What `reify` has done by the `n`th oid to a cache that started as `s`
   * and is now `t`: no object changed that none of the first `m` oids names,
   * nor one that started live; the ring kept every object it held, and its
   * whole order while sweeping; unless sweeping, every ghost named among the
   * first `n` is now linked into the ring; and the count grew by one per
   * such ghost, one per position among the first `m` naming a class that
   * reads as a ghost, and one per object the ring gained.
   */
  ghost predicate ReifyTally(oids: seq<Oid>, n: nat, m: nat, s: Tally, t: Tally, classes: map<Oid, PClass>, sweeping: bool)
  {
    && n <= m <= |oids| && t.snaps.Keys == s.snaps.Keys
    && LiveKept(oids, m, s, t)
    && (forall q | q in s.objs :: q in t.objs)
    && (sweeping ==> t.objs == s.objs)
    && (!sweeping ==> GhostsAmong(oids, n, s.snaps) <= t.linked)
    && t.count == s.count + |GhostsAmong(oids, n, s.snaps)| + |GhostClassAt(oids, m, classes)| + (|t.objs| - |s.objs|)
  }

  /**
   * What one `reify` step on `oid` does to the tally going from `a` to `b`:
   * only that oid's object changes, and only when it was a ghost; the count
   * grows by `act` and by what the ring gained; the ring keeps what it had
   * (and is left alone while sweeping); a ghost that came back is linked.
   */
  ghost predicate TallyStep(oid: Oid, a: Tally, b: Tally, classes: map<Oid, PClass>, sweeping: bool, passed: bool, act: nat)
  {
    && b.snaps.Keys == a.snaps.Keys && (oid in classes ==> oid !in a.snaps)
    && (forall k | k in a.snaps && k != oid :: b.snaps[k] == a.snaps[k])
    && (oid in a.snaps && State(a.snaps[oid]) != GHOST ==> b.snaps[oid] == a.snaps[oid])
    && b.count == a.count + act + (|b.objs| - |a.objs|)
    && act == (if (oid in a.snaps && State(a.snaps[oid]) == GHOST && passed)
                 || (oid in classes && classes[oid].state == Some(GHOST)) then 1 else 0)
    && (forall q | q in a.objs :: q in b.objs) && (sweeping ==> b.objs == a.objs)
    && a.linked <= b.linked
    && (oid in a.snaps && State(a.snaps[oid]) == GHOST && passed && !sweeping ==> oid in b.linked)
  }

  /** `LiveKept` extends by one step. */
  lemma LiveKeptMore(oids: seq<Oid>, i: nat, s: Tally, a: Tally, b: Tally, classes: map<Oid, PClass>, sweeping: bool, passed: bool, act: nat)
    requires i < |oids| && a.snaps.Keys == s.snaps.Keys && LiveKept(oids, i, s, a)
    requires TallyStep(oids[i], a, b, classes, sweeping, passed, act)
    ensures LiveKept(oids, i + 1, s, b)
  {
    PrefixMembers(oids, i);
    forall k | k in b.snaps && k in s.snaps && (k !in oids[..i + 1] || State(s.snaps[k]) != GHOST)
      ensures b.snaps[k] == s.snaps[k]
    {
      assert a.snaps[k] == s.snaps[k];
    }
  }

  /**
   * `ReifyTally` survives one more oid, from `a` to `b`, given what one
   * step of `reify` promises; only a step that passed counts its oid as
   * reified.
   */
  lemma ReifyTallyMore(oids: seq<Oid>, i: nat, n: nat, s: Tally, a: Tally, b: Tally, classes: map<Oid, PClass>, sweeping: bool, passed: bool, act: nat)
    requires i < |oids| && ReifyTally(oids, i, i, s, a, classes, sweeping) && n == if passed then i + 1 else i
    requires forall x | 0 <= x < i && oids[x] in a.snaps :: State(a.snaps[oids[x]]) != GHOST
    requires TallyStep(oids[i], a, b, classes, sweeping, passed, act)
    ensures ReifyTally(oids, n, i + 1, s, b, classes, sweeping)
  {
    var oid := oids[i];
    var first := oid in a.snaps && State(a.snaps[oid]) == GHOST;
    if first {
      forall x | 0 <= x < i
        ensures oids[..i][x] != oid
      {
        assert oids[..i][x] == oids[x];
      }
    }
    GhostsNext(oids, i, s.snaps, first, passed);
    GhostClassMore(oids, i, classes);
    LiveKeptMore(oids, i, s, a, b, classes, sweeping, passed, act);
    assert !sweeping ==> GhostsAmong(oids, n, s.snaps) <= b.linked;
    var hit := oid in classes && classes[oid].state == Some(GHOST);
    assert act == (if first && passed then 1 else 0) + (if hit then 1 else 0);
  }

  /** The object stored under `k` runs the base deactivation and, as the tally has it, has a jar. */
  ghost predicate BaseWithJar(s: Tally, k: Oid)
    requires k in s.stored && k in s.snaps
  {
    s.stored[k].hook == BaseDeactivate && s.snaps[k].jar.Some?
  }

  /** Objects not named among the first `n` of `oids`, or that were ghosts in `s`, are as they were in `s`. */
  ghost predicate SnapsKept(oids: seq<Oid>, n: nat, s: Tally, t: Tally)
    requires n <= |oids|
  {
    forall k | k in t.snaps && k in s.snaps && (k !in oids[..n] || State(s.snaps[k]) == GHOST) :: t.snaps[k] == s.snaps[k]
  }

  /** Each object named among the first `n` of `oids` that was live in `s` has left the ring. */
  ghost predicate LiveGone(oids: seq<Oid>, n: nat, s: Tally, t: Tally)
    requires n <= |oids|
  {
    forall k | k in LiveAmong(oids, n, s.snaps) && k in s.stored :: s.stored[k] !in t.objs
  }

  /** Each object named among the first `n` of `oids` that runs the base deactivation with a jar is a ghost. */
  ghost predicate BaseGhosted(oids: seq<Oid>, n: nat, s: Tally, t: Tally)
    requires n <= |oids|
  {
    forall k | k in oids[..n] && k in s.stored && k in s.snaps && BaseWithJar(s, k) :: k in t.snaps && State(t.snaps[k]) == GHOST
  }

  /** Every stored object named among the first `n` of `oids` runs the base deactivation with a jar. */
  ghost predicate AllBase(oids: seq<Oid>, n: nat, s: Tally)
    requires n <= |oids|
  {
    forall k | k in oids[..n] && k in s.stored && k in s.snaps :: BaseWithJar(s, k)
  }

  /** Every object keeps its jar. */
  ghost predicate JarsKept(s: Tally, t: Tally)
  {
    forall k | k in t.snaps && k in s.snaps :: t.snaps[k].jar == s.snaps[k].jar
  }

  /**
   * What the first `n` steps of `invalidate(oids)` did to the tally going
   * from `s` to `t`, counting `dropped` objects out: only named objects
   * that were not ghosts changed; the ring gained nothing and lost each of
   * them; each named object that runs the base deactivation with a jar is
   * a ghost; and the count fell by `dropped`, which is at least the number
   * of different such objects, and exactly that when every named object
   * runs the base deactivation with a jar.
   */
  ghost predicate InvalidateTally(oids: seq<Oid>, n: nat, s: Tally, t: Tally, dropped: nat)
  {
    && n <= |oids| && t.snaps.Keys == s.snaps.Keys && s.stored.Keys == s.snaps.Keys && t.stored == s.stored
    && SnapsKept(oids, n, s, t) && JarsKept(s, t)
    && (forall q | q in t.objs :: q in s.objs)
    && LiveGone(oids, n, s, t)
    && BaseGhosted(oids, n, s, t)
    && t.count == s.count - dropped
    && |LiveAmong(oids, n, s.snaps)| <= dropped <= n
    && (AllBase(oids, n, s) ==> dropped == |LiveAmong(oids, n, s.snaps)|)
  }

  /**
   * What one `_invalidate(oid)` does to the tally going from `a` to `b`:
   * a stored non-ghost object is counted out and leaves the ring, and ends
   * a ghost if it runs the base deactivation with a jar; anything else
   * leaves the tally as it was; no other object changes, and the ring
   * gains nothing.
   */
  ghost predicate InvalidateStepped(oid: Oid, a: Tally, b: Tally)
  {
    && b.snaps.Keys == a.snaps.Keys && b.stored == a.stored
    && (forall k | k in a.snaps && k != oid :: b.snaps[k] == a.snaps[k])
    && (oid in a.snaps ==> b.snaps[oid].jar == a.snaps[oid].jar)
    && (forall q | q in b.objs :: q in a.objs)
    && if oid in a.snaps && State(a.snaps[oid]) != GHOST then
         && oid in a.stored && a.stored[oid] !in b.objs && b.count == a.count - 1
         && (a.stored[oid].hook == BaseDeactivate && a.snaps[oid].jar.Some? ==> State(b.snaps[oid]) == GHOST)
       else
         b.snaps == a.snaps && b.objs == a.objs && b.count == a.count
  }

  /** The object one more step touches was, before it, as in `s` unless the step names it again. */
  lemma StepSnap(oids: seq<Oid>, i: nat, s: Tally, a: Tally)
    requires i < |oids| && a.snaps.Keys == s.snaps.Keys && SnapsKept(oids, i, s, a) && oids[i] in s.snaps
    ensures oids[i] !in oids[..i] ==> a.snaps[oids[i]] == s.snaps[oids[i]]
    ensures State(s.snaps[oids[i]]) == GHOST ==> a.snaps[oids[i]] == s.snaps[oids[i]]
  {
  }

  /** `SnapsKept` extends by one step. */
  lemma SnapsKeptMore(oids: seq<Oid>, i: nat, s: Tally, a: Tally, b: Tally)
    requires i < |oids| && a.snaps.Keys == s.snaps.Keys && SnapsKept(oids, i, s, a) && InvalidateStepped(oids[i], a, b)
    ensures SnapsKept(oids, i + 1, s, b)
  {
    PrefixMembers(oids, i);
    forall k | k in b.snaps && k in s.snaps && (k !in oids[..i + 1] || State(s.snaps[k]) == GHOST)
      ensures b.snaps[k] == s.snaps[k]
    {
      assert a.snaps[k] == s.snaps[k];
    }
  }

  /** `LiveGone` extends by one step. */
  lemma LiveGoneMore(oids: seq<Oid>, i: nat, s: Tally, a: Tally, b: Tally)
    requires i < |oids| && a.snaps.Keys == s.snaps.Keys && SnapsKept(oids, i, s, a) && LiveGone(oids, i, s, a)
    requires InvalidateStepped(oids[i], a, b) && a.stored == s.stored
    ensures LiveGone(oids, i + 1, s, b)
  {
    var oid := oids[i];
    AmongMore(oids, i, s.snaps);
    LiveNext(oids, i, s.snaps);
    if oid in s.snaps {
      StepSnap(oids, i, s, a);
    }
    forall k | k in LiveAmong(oids, i + 1, s.snaps) && k in s.stored
      ensures s.stored[k] !in b.objs
    {
      if k !in LiveAmong(oids, i, s.snaps) {
        assert k == oid && a.snaps[oid] == s.snaps[oid];
      }
    }
  }

  /** `BaseGhosted` extends by one step. */
  lemma BaseGhostedMore(oids: seq<Oid>, i: nat, s: Tally, a: Tally, b: Tally)
    requires i < |oids| && a.snaps.Keys == s.snaps.Keys && SnapsKept(oids, i, s, a) && BaseGhosted(oids, i, s, a)
    requires InvalidateStepped(oids[i], a, b) && a.stored == s.stored
    ensures BaseGhosted(oids, i + 1, s, b)
  {
    var oid := oids[i];
    PrefixMembers(oids, i);
    if oid in s.snaps {
      StepSnap(oids, i, s, a);
    }
    forall k | k in oids[..i + 1] && k in s.stored && k in s.snaps && BaseWithJar(s, k)
      ensures k in b.snaps && State(b.snaps[k]) == GHOST
    {
      if k == oid && k in oids[..i] {
        assert State(a.snaps[k]) == GHOST;
      }
    }
  }

  /** The count and its bounds extend by one step. */
  lemma DroppedMore(oids: seq<Oid>, i: nat, s: Tally, a: Tally, b: Tally, dropped: nat, d: nat)
    requires i < |oids| && a.snaps.Keys == s.snaps.Keys && s.stored.Keys == s.snaps.Keys && a.stored == s.stored
    requires SnapsKept(oids, i, s, a) && BaseGhosted(oids, i, s, a) && InvalidateStepped(oids[i], a, b)
    requires a.count == s.count - dropped && |LiveAmong(oids, i, s.snaps)| <= dropped <= i
    requires AllBase(oids, i, s) ==> dropped == |LiveAmong(oids, i, s.snaps)|
    requires d == dropped + if oids[i] in a.snaps && State(a.snaps[oids[i]]) != GHOST then 1 else 0
    ensures b.count == s.count - d && |LiveAmong(oids, i + 1, s.snaps)| <= d <= i + 1
    ensures AllBase(oids, i + 1, s) ==> d == |LiveAmong(oids, i + 1, s.snaps)|
  {
    var oid := oids[i];
    PrefixMembers(oids, i);
    LiveNext(oids, i, s.snaps);
    if oid in s.snaps {
      StepSnap(oids, i, s, a);
    }
    if AllBase(oids, i + 1, s) {
      assert AllBase(oids, i, s);
      if oid in oids[..i] && oid in s.stored {
        assert BaseWithJar(s, oid);
        assert State(a.snaps[oid]) == GHOST;
      }
    }
  }

  /** `InvalidateTally` holds before the first step. */
  lemma InvalidateTallyNone(oids: seq<Oid>, s: Tally)
    requires s.stored.Keys == s.snaps.Keys
    ensures InvalidateTally(oids, 0, s, s, 0)
  {
    AmongNone(oids, s.snaps, map[]);
  }

  /**
   * Each tally in `hist` follows from the one before it by one step of
   * `invalidate`, the `j`th step handling `oids[j]`.
   */
  ghost predicate InvalidatedAlong(oids: seq<Oid>, hist: seq<Tally>)
    requires |hist| <= |oids| + 1
    decreases |hist|
  {
    |hist| <= 1 ||
      (InvalidatedAlong(oids, hist[..|hist| - 1]) && InvalidateStepped(oids[|hist| - 2], hist[|hist| - 2], hist[|hist| - 1]))
  }

  /** `InvalidatedAlong` extends by one step. */
  lemma AlongMore(oids: seq<Oid>, hist: seq<Tally>, after: Tally)
    requires 1 <= |hist| <= |oids| && InvalidatedAlong(oids, hist)
    requires InvalidateStepped(oids[|hist| - 1], hist[|hist| - 1], after)
    ensures InvalidatedAlong(oids, hist + [after])
  {
    var h := hist + [after];
    assert |h| == |hist| + 1 && h[..|hist|] == hist && h[|hist| - 1] == hist[|hist| - 1] && h[|hist|] == after;
  }

  /** The steps along `hist` add up to `InvalidateTally`, `dropped` objects counted out. */
  lemma InvalidateAlong(oids: seq<Oid>, hist: seq<Tally>) returns (dropped: nat)
    requires 1 <= |hist| <= |oids| + 1 && InvalidatedAlong(oids, hist) && hist[0].stored.Keys == hist[0].snaps.Keys
    ensures InvalidateTally(oids, |hist| - 1, hist[0], hist[|hist| - 1], dropped)
    decreases |hist|
  {
    var n := |hist| - 1;
    if n == 0 {
      InvalidateTallyNone(oids, hist[0]);
      dropped := 0;
    } else {
      var h := hist[..n];
      assert |h| == n && h[0] == hist[0] && h[n - 1] == hist[n - 1];
      var before := InvalidateAlong(oids, h);
      dropped := InvalidateCounted(oids, n - 1, hist[0], hist[n - 1], hist[n], before);
    }
  }

  /** One more step of `invalidate` on top of `InvalidateTally`, counting its object out if it was live. */
  lemma InvalidateCounted(oids: seq<Oid>, i: nat, s: Tally, a: Tally, b: Tally, before: nat) returns (dropped: nat)
    requires i < |oids| && InvalidateTally(oids, i, s, a, before) && InvalidateStepped(oids[i], a, b)
    ensures InvalidateTally(oids, i + 1, s, b, dropped)
  {
    dropped := before + if oids[i] in a.snaps && State(a.snaps[oids[i]]) != GHOST then 1 else 0;
    InvalidateTallyMore(oids, i, s, a, b, before, dropped);
  }

  /** `JarsKept` extends by one step. */
  lemma JarsKeptMore(oid: Oid, s: Tally, a: Tally, b: Tally)
    requires a.snaps.Keys == s.snaps.Keys && JarsKept(s, a) && InvalidateStepped(oid, a, b)
    ensures JarsKept(s, b)
  {
  }

  /** `InvalidateTally` extends by one step. */
  lemma InvalidateTallyMore(oids: seq<Oid>, i: nat, s: Tally, a: Tally, b: Tally, dropped: nat, d: nat)
    requires i < |oids| && InvalidateTally(oids, i, s, a, dropped) && InvalidateStepped(oids[i], a, b)
    requires d == dropped + if oids[i] in a.snaps && State(a.snaps[oids[i]]) != GHOST then 1 else 0
    ensures InvalidateTally(oids, i + 1, s, b, d)
  {
    SnapsKeptMore(oids, i, s, a, b);
    JarsKeptMore(oids[i], s, a, b);
    LiveGoneMore(oids, i, s, a, b);
    BaseGhostedMore(oids, i, s, a, b);
    DroppedMore(oids, i, s, a, b, dropped, d);
  }

  class Cache {
    /** The data manager; `__init__` makes this cache its `_cache`. */
    const jar: Jar
    /** `data.cleanup_hook` is set (CPython), so ghosts get a ring node too. */
    const cleanupHook: bool
    var cacheSize: int
    var drainResistance: int
    var nonGhostCount: int
    var totalEstimatedSize: int
    var cacheSizeBytes: int
    /** `_is_sweeping_ring`, the pseudo-lock that `mru` respects. */
    var sweeping: bool
    /** `_persistent_deactivate_ran`. */
    var deactivateRan: bool
    /** `persistent_classes`. */
    var classes: map<Oid, PClass>
    /** `data`, seen as a plain map (the objects are not collected). */
    var data: map<Oid, Persistent>
    const ring: CffiRing

    /** Each object is stored under its own oid, each class too and apart from the objects. */
    ghost predicate Keyed()
      reads this`data, this`classes, data.Values`oid
    {
      && (forall k | k in data :: data[k].oid == Some(k))
      && (forall k | k in classes :: classes[k].oid == Some(k) && k !in data)
    }

    /** Every object of the ring is stored. */
    ghost predicate RingStored()
      reads this`data, ring`objs
    {
      AllStored(ring.objs, data)
    }

    /** A stored object is found under its oid. */
    lemma KeyOf(p: Persistent)
      requires Keyed() && p in data.Values
      ensures p.oid.Some? && p.oid.value in data && data[p.oid.value] == p
    {
      var k :| k in data && data[k] == p;
    }

    ghost predicate Valid()
      reads this`data, this`classes, ring, ring.links, ring.ringToObj.Values`ring, data.Values`oid
    {
      ring.Valid() && Keyed() && RingStored()
    }

    /** What `Valid` depends on is all that it depends on. */
    twostate lemma ValidKept()
      requires old(Valid())
      requires unchanged(this`data, this`classes, ring, ring.links)
      requires unchanged(ring.ringToObj.Values`ring) && unchanged(data.Values`oid)
      ensures Valid()
    {
    }

    /** The non-ghost count is the length of the ring (the operations that keep it so say so). */
    ghost predicate Balanced()
      reads this, ring
    {
      nonGhostCount == |ring.objs|
    }

    constructor (jar: Jar, targetSize: int, cacheSizeBytes: int, cleanupHook: bool)
      ensures Valid() && Balanced() && fresh(ring) && fresh(ring.links)
      ensures this.jar == jar && this.cleanupHook == cleanupHook
      ensures cacheSize == targetSize && this.cacheSizeBytes == cacheSizeBytes && drainResistance == 0
      ensures nonGhostCount == 0 && totalEstimatedSize == 0 && !sweeping && !deactivateRan
      ensures classes == map[] && data == map[] && ring.objs == []
    {
      this.jar := jar;
      this.cleanupHook := cleanupHook;
      cacheSize := targetSize;
      drainResistance := 0;
      nonGhostCount := 0;
      totalEstimatedSize := 0;
      this.cacheSizeBytes := cacheSizeBytes;
      sweeping := false;
      deactivateRan := false;
      classes := map[];
      data := map[];
      ring := new CffiRing();
    }

    /** `__len__`: classes and objects together. */
    function Len(): nat
      reads this
    {
      |classes| + |data|
    }

    /** Every oid is counted once, whether it names a class or an object. */
    lemma LenCountsOids()
      requires Valid()
      ensures Len() == |classes.Keys + data.Keys|
    {
      assert classes.Keys * data.Keys == {};
    }

    /** `get(oid)`: the object stored under `oid`, else the class, else nothing. */
    function Get(oid: Oid): (r: Option<Value>)
      reads this
      ensures r.None? <==> oid !in data && oid !in classes
      ensures r.Some? ==> !r.value.Uncacheable?
    {
      if oid in data then Some(Instance(data[oid]))
      else if oid in classes then Some(Klass(classes[oid]))
      else None
    }

    /** `__getitem__`: as `get`, but a missing oid is a KeyError. */
    function GetItem(oid: Oid): (r: Result<Value>)
      reads this
      ensures r.Err? <==> Get(oid).None?
      ensures r.Err? ==> r.error == KeyError
      ensures r.Ok? ==> Get(oid) == Some(r.value)
    {
      match Get(oid)
      case Some(v) => Ok(v)
      case None => Err(KeyError)
    }

    /** `ringlen`. */
    function RingLen(): (n: nat)
      reads this, ring, ring.links, ring.ringToObj.Values`ring
      ensures Valid() ==> n == |ring.objs|
    {
      ring.Len()
    }

    /** What `jar._cache.get(oid)` answers an object of this jar. */
    function EntryOf(p: Persistent): Entry
      reads this, p`oid
    {
      if p.oid.None? then Absent
      else match Get(p.oid.value)
        case None => Absent
        case Some(v) => if v == Instance(p) then Self else Other
    }

    /** The `_cache` an object's own code reaches: this cache for an object of this jar. */
    function ViewFor(p: Persistent): CacheView
      reads this, p`oid, p`jar
    {
      if p.jar == Some(jar) then Cache(EntryOf(p)) else NoCache
    }

    /**
     * The change `update_object_size_estimation(oid, new_size)` makes to the
     * byte total: none for an oid not stored, else the difference between the
     * new size in 64-byte units (plus one) and the object's stored units.
     */
    function SizeDelta(oid: Option<Oid>, newSize: int): (d: int)
      reads this, data.Values`size
      ensures oid.None? || oid.value !in data ==> d == 0
      ensures d % 64 == 0
      ensures oid.Some? && oid.value in data && newSize == -1 ==> d == -(data[oid.value].size * 64)
      ensures oid.Some? && oid.value in data && 0 <= newSize <= 1073741696 ==>
        newSize < data[oid.value].size * 64 + d <= newSize + 64
    {
      if oid.Some? && oid.value in data then
        (EstimatedSizeIn24Bits(newSize) - data[oid.value].size) * 64
      else 0
    }

    /** `update_object_size_estimation`. */
    method UpdateObjectSizeEstimation(oid: Option<Oid>, newSize: int)
      modifies this`totalEstimatedSize
      ensures totalEstimatedSize == old(totalEstimatedSize) + SizeDelta(oid, newSize)
    {
      if oid.Some? && oid.value in data {
        var value := data[oid.value];
        var newSizeIn24 := EstimatedSizeIn24Bits(newSize);
        totalEstimatedSize := totalEstimatedSize + (newSizeIn24 - value.size) * 64;
      }
    }

    /** The calls an object's deactivation makes on this cache: the size update, then the flag. */
    method Deliver(calls: seq<Call>)
      requires calls == [] || (|calls| == 2 && calls[0].SizeUpdate? && calls[1] == DeactivateRan)
      modifies this`totalEstimatedSize, this`deactivateRan
      ensures calls == [] ==> totalEstimatedSize == old(totalEstimatedSize) && deactivateRan == old(deactivateRan)
      ensures calls != [] ==> totalEstimatedSize == old(totalEstimatedSize) + SizeDelta(calls[0].oid, calls[0].n) && deactivateRan
    {
      if calls != [] {
        UpdateObjectSizeEstimation(calls[0].oid, calls[0].n);
        deactivateRan := true;
      }
    }

    /**
     * Whether `__setitem__(key, value)` accepts, in the order it checks: a
     * persistent value, a bytes key and oid, the same oid, no other value
     * under it, a jar, and no other cache of that jar holding the oid
     * (`elsewhere` says whether the jar's cache holds it; that cache is this
     * one exactly when the jar is this cache's jar).
     */
    function SetItemOutcome(key: BytesArg, value: Value, elsewhere: bool): (r: Outcome)
      reads this, ValueObjects(value)
      ensures r == Fail(TypeError) <==> value.Uncacheable? || key.NotBytes? || OidOf(value).None?
      ensures r.Pass? <==>
        && !value.Uncacheable? && key.BytesValue? && OidOf(value) == Some(key.b)
        && (Get(key.b).None? || Get(key.b) == Some(value))
        && JarOf(value).Some? && !(elsewhere && JarOf(value) != Some(jar))
      ensures r.Fail? ==> r.error in {TypeError, ValueError}
    {
      if value.Uncacheable? then Fail(TypeError)
      else if key.NotBytes? || OidOf(value).None? then Fail(TypeError)
      else if OidOf(value).value != key.b then Fail(ValueError)
      else if Get(key.b).Some? && Get(key.b).value != value then Fail(ValueError)
      else if JarOf(value).None? then Fail(ValueError)
      else if elsewhere && JarOf(value).value != jar then Fail(ValueError)
      else Pass
    }

    /** The object part of `__setitem__`, once every check has passed. */
    method StoreObject(oid: Oid, p: Persistent)
      requires Valid() && p.oid == Some(oid) && oid !in classes && (oid in data ==> data[oid] == p)
      modifies this`data, this`nonGhostCount, ring, ring.links, p`ring
      ensures Valid() && data == old(data)[oid := p] && classes == old(classes)
      ensures ring.objs == old(if State(p.Snap()) != GHOST && !ring.Contains(p) then ring.objs + [p] else ring.objs)
      ensures nonGhostCount - old(nonGhostCount) == |ring.objs| - |old(ring.objs)|
    {
      Put(oid, p);
      Track(p);
    }

    /** `self.data[oid] = value`. */
    method Put(oid: Oid, p: Persistent)
      requires Valid() && p.oid == Some(oid) && oid !in classes && (oid in data ==> data[oid] == p)
      modifies this`data
      ensures Valid() && data == old(data)[oid := p] && p in data.Values
    {
      data := data[oid := p];
      StoredAfterPut(ring.objs, old(data), oid, p);
      assert data[oid] == p;
    }

    /** Link a stored non-ghost object that is not in the ring yet; otherwise, on CPython, give it a node. */
    method Track(p: Persistent)
      requires Valid() && p in data.Values
      modifies this`nonGhostCount, ring, ring.links, p`ring
      ensures Valid()
      ensures ring.objs == old(if State(p.Snap()) != GHOST && !ring.Contains(p) then ring.objs + [p] else ring.objs)
      ensures nonGhostCount - old(nonGhostCount) == |ring.objs| - |old(ring.objs)|
    {
      if State(p.Snap()) != GHOST && !ring.Contains(p) {
        AddStored(p);
      } else if cleanupHook {
        GiveNode(p);
      }
    }

    /** `ring.add(value)` and one more non-ghost, for a stored object. */
    method AddStored(p: Persistent)
      requires Valid() && p in data.Values && !ring.Contains(p)
      modifies this`nonGhostCount, ring, ring.links, p`ring
      ensures Valid() && data == old(data) && classes == old(classes)
      ensures ring.objs == old(ring.objs) + [p] && nonGhostCount == old(nonGhostCount) + 1
      ensures ring.Contains(p) && old(ring.ringToObj).Keys <= ring.ringToObj.Keys
    {
      ring.Add(p);
      StoredAfterAppend(old(ring.objs), data, p);
      nonGhostCount := nonGhostCount + 1;
    }

    /** `ring.ring_node_for(value)`: a node for the object, which stays out of the ring. */
    method GiveNode(p: Persistent)
      requires Valid()
      modifies p`ring
      ensures Valid() && p.ring.Some?
    {
      var _ := ring.RingNodeFor(p, true);
    }

    /** `ring.move_to_head(value)` for an object whose node is linked. */
    method MoveStored(p: Persistent) returns (ghost k: nat)
      requires Valid() && ring.Contains(p)
      modifies ring, ring.links
      ensures Valid() && data == old(data) && classes == old(classes) && ring.ringToObj == old(ring.ringToObj)
      ensures k < |old(ring.objs)| && old(ring.objs)[k].ring == p.ring
      ensures ring.objs == RemoveAt(old(ring.objs), k) + [old(ring.objs)[k]]
      ensures old(p in ring.objs) ==> k == IndexOf(old(ring.objs), p)
    {
      k := ring.MoveToHead(p);
      StoredAfterMove(old(ring.objs), data, k);
    }

    /**
     * `mru(oid)`: skipped (the `False` marker) while the ring is being swept;
     * a KeyError for an oid not stored; otherwise an object not in the ring
     * is linked at the most recently used end unless it is a ghost, and one
     * in the ring has its node moved there. `k` is the position that moved.
     */
    method Mru(oid: Oid) returns (outcome: Outcome, skipped: bool, ghost k: nat)
      requires Valid()
      modifies this`nonGhostCount, ring, ring.links, data.Values`ring
      ensures Valid() && data == old(data) && classes == old(classes)
      ensures skipped <==> old(sweeping)
      ensures outcome.Fail? <==> !old(sweeping) && oid !in data
      ensures outcome.Fail? ==> outcome.error == KeyError
      ensures outcome.Fail? || skipped ==> ring.objs == old(ring.objs)
      ensures outcome.Pass? && !skipped ==>
        Touched(old(ring.objs), ring.objs, data[oid], old(ring.Contains(data[oid])), old(State(data[oid].Snap()) == GHOST), k)
      ensures nonGhostCount - old(nonGhostCount) == |ring.objs| - |old(ring.objs)|
    {
      k := 0;
      skipped := sweeping;
      if sweeping {
        outcome := Pass;
      } else if oid !in data {
        outcome := Fail(KeyError);
      } else {
        outcome := Pass;
        k := Touch(data[oid]);
      }
    }

    /** The part of `mru` after the lookup: link the object or move its node. */
    method Touch(p: Persistent) returns (ghost k: nat)
      requires Valid() && p in data.Values
      modifies this`nonGhostCount, ring, ring.links, p`ring
      ensures Valid() && data == old(data) && classes == old(classes)
      ensures Touched(old(ring.objs), ring.objs, p, old(ring.Contains(p)), old(State(p.Snap()) == GHOST), k)
      ensures nonGhostCount - old(nonGhostCount) == |ring.objs| - |old(ring.objs)|
      ensures old(ring.ringToObj).Keys <= ring.ringToObj.Keys
      ensures old(ring.Contains(p)) || old(State(p.Snap())) != GHOST ==> ring.Contains(p)
      ensures forall q | q in old(ring.objs) :: q in ring.objs
    {
      k := 0;
      if !ring.Contains(p) {
        if State(p.Snap()) != GHOST {
          AddStored(p);
        }
      } else {
        k := MoveStored(p);
        RemoveAtWithin(old(ring.objs), k);
      }
    }

    /** `ring.delete(pobj)` for a stored object: afterwards it is not in the ring. */
    method Unlink(p: Persistent) returns (found: bool, ghost k: nat)
      requires Valid() && p in data.Values
      modifies ring, ring.links
      ensures Valid() && data == old(data) && classes == old(classes) && p !in ring.objs
      ensures found <==> old(ring.Contains(p))
      ensures found ==> k < |old(ring.objs)| && old(ring.objs)[k].ring == p.ring && ring.objs == RemoveAt(old(ring.objs), k)
      ensures old(p in ring.objs) ==> found && k == IndexOf(old(ring.objs), p)
      ensures !found ==> ring.objs == old(ring.objs)
      ensures forall q | q in ring.objs :: q in old(ring.objs)
    {
      ghost var o := ring.objs;
      ring.ObjsDistinct();
      ring.ContainsByNode(p);
      found, k := ring.Delete(p);
      if found {
        RemoveAtWithin(o, k);
        StoredAfterRemove(o, data, k);
        if p in o {
          DistinctRemoved(o, k);
        } else {
          RemoveAtSubset(o, k, p);
        }
      }
    }

    /**
     * `__delitem__`: a non-bytes oid is a TypeError; a class is dropped; an
     * object is popped (a KeyError when absent) and deleted from the ring.
     * The non-ghost count is left as it was, even for an object that was in
     * the ring.
     */
    method DelItem(key: BytesArg) returns (outcome: Outcome)
      requires Valid()
      modifies this`classes, this`data, ring, ring.links
      ensures Valid()
      ensures outcome == Fail(TypeError) <==> key.NotBytes?
      ensures outcome == Fail(KeyError) <==> key.BytesValue? && key.b !in old(classes) && key.b !in old(data)
      ensures outcome.Fail? ==> data == old(data) && classes == old(classes) && ring.objs == old(ring.objs)
      ensures outcome.Pass? ==> Get(key.b).None?
      ensures outcome.Pass? && key.b in old(classes) ==>
        classes == old(classes) - {key.b} && data == old(data) && ring.objs == old(ring.objs)
      ensures outcome.Pass? && key.b !in old(classes) ==>
        && data == old(data) - {key.b} && classes == old(classes) && old(data[key.b]) !in ring.objs
        && (old(data[key.b] in ring.objs) ==> ring.objs == old(RemoveAt(ring.objs, IndexOf(ring.objs, data[key.b]))))
        && (!old(ring.Contains(data[key.b])) ==> ring.objs == old(ring.objs))
      ensures old(Balanced()) && outcome.Pass? && old(key.b !in classes && data[key.b] in ring.objs) ==>
        nonGhostCount == |ring.objs| + 1
    {
      if key.NotBytes? {
        return Fail(TypeError);
      }
      var oid := key.b;
      if oid in classes {
        classes := classes - {oid};
        return Pass;
      }
      if oid !in data {
        return Fail(KeyError);
      }
      Forget(oid);
      outcome := Pass;
    }

    /** `pobj = self.data.pop(oid); self.ring.delete(pobj)`. */
    method Forget(oid: Oid)
      requires Valid() && oid in data
      modifies this`data, ring, ring.links
      ensures Valid() && data == old(data) - {oid} && classes == old(classes) && old(data[oid]) !in ring.objs
      ensures old(data[oid] in ring.objs) ==> ring.objs == old(RemoveAt(ring.objs, IndexOf(ring.objs, data[oid])))
      ensures !old(ring.Contains(data[oid])) ==> ring.objs == old(ring.objs)
    {
      var pobj := data[oid];
      var _, _ := Unlink(pobj);
      StoredAfterDelete(ring.objs, data, oid);
      data := data - {oid};
    }

    // ------------------------------------------------------------ sweeping

    /** The objects of the ring, as a set (what a sweep may deactivate). */
    ghost function RingSet(): set<Persistent>
      reads ring
    {
      set x | x in ring.objs
    }

    /** What the sweep consults about each of `objs`. */
    ghost function Items(objs: seq<Persistent>): (items: seq<SweepItem>)
      reads objs
      ensures |items| == |objs|
      ensures forall i | 0 <= i < |objs| :: items[i] == SweepItem(objs[i].Snap(), objs[i].hook, objs[i].jar == Some(jar))
    {
      seq(|objs|, i requires 0 <= i < |objs| reads objs => SweepItem(objs[i].Snap(), objs[i].hook, objs[i].jar == Some(jar)))
    }

    /** The sweep of the ring as it stands, with the counters as they stand. */
    ghost function SweepNow(target: int, bytes: int): Swept
      reads this`nonGhostCount, this`totalEstimatedSize, ring, ring.objs
    {
      SweepFrom(Items(ring.objs), 0, target, bytes, nonGhostCount, totalEstimatedSize, {})
    }

    /**
     * The middle of `_sweep`'s loop body for an up-to-date object: clear
     * `_persistent_deactivate_ran`, call `_p_deactivate` and let the object's
     * calls reach this cache; `ran` is the flag afterwards.
     */
    method Ask(value: Persistent) returns (ran: bool)
      requires Valid() && value in data.Values && State(value.Snap()) == UPTODATE
      modifies this`deactivateRan, this`totalEstimatedSize, value`flags, value`dict
      ensures Valid() && data == old(data) && classes == old(classes) && sweeping == old(sweeping)
      ensures var it := SweepItem(old(value.Snap()), value.hook, value.jar == Some(jar));
        value.Snap() == Visited(it) && (ran <==> Ejects(it))
      ensures totalEstimatedSize == old(totalEstimatedSize) + if ran then (EstimatedSizeIn24Bits(-1) - value.size) * 64 else 0
    {
      KeyOf(value);
      ghost var o := value.Snap();
      var view := ViewFor(value);
      DeactivateCalls(o, value.hook, view);
      deactivateRan := false;
      var calls := value.DispatchDeactivate(view);
      Deliver(calls);
      ran := deactivateRan;
      ValidKept();
    }

    /** `ring.delete_node(node)` and one non-ghost fewer. */
    method Eject(node: LinkedRing.RingNode, ghost j: nat)
      requires Valid() && node in ring.ringToObj && ring.SlotIndex(node) == j
      modifies this`nonGhostCount, ring, ring.links
      ensures Valid() && data == old(data) && classes == old(classes) && sweeping == old(sweeping)
      ensures ring.objs == RemoveAt(old(ring.objs), j) && ring.links.Order() == RemoveAt(old(ring.links.Order()), j)
      ensures nonGhostCount == old(nonGhostCount) - 1
    {
      var _, k := ring.DeleteNode(node);
      StoredAfterRemove(old(ring.objs), data, k);
      nonGhostCount := nonGhostCount - 1;
    }

    /**
     * One pass of `_sweep`'s loop body over the object `value` at node `node`,
     * position `j` of the ring: only an up-to-date object is asked to
     * deactivate, and its node is deleted when the base deactivation ran.
     */
    method SweepVisit(node: LinkedRing.RingNode, value: Persistent, ghost j: nat) returns (ejectedHere: bool)
      requires Valid() && j < |ring.objs| && ring.objs[j] == value
      requires value.ring == Some(node) && node in ring.ringToObj && ring.SlotIndex(node) == j
      modifies this`deactivateRan, this`totalEstimatedSize, this`nonGhostCount, value`flags, value`dict, ring, ring.links
      ensures Valid() && data == old(data) && classes == old(classes) && sweeping == old(sweeping)
      ensures var it := SweepItem(old(value.Snap()), value.hook, value.jar == Some(jar));
        value.Snap() == Visited(it) && (ejectedHere <==> Ejects(it))
      ensures ejectedHere ==>
        && ring.objs == RemoveAt(old(ring.objs), j) && ring.links.Order() == RemoveAt(old(ring.links.Order()), j)
        && nonGhostCount == old(nonGhostCount) - 1
        && totalEstimatedSize == old(totalEstimatedSize) + (EstimatedSizeIn24Bits(-1) - value.size) * 64
      ensures !ejectedHere ==>
        && ring.objs == old(ring.objs) && ring.links.Order() == old(ring.links.Order())
        && nonGhostCount == old(nonGhostCount) && totalEstimatedSize == old(totalEstimatedSize)
    {
      ejectedHere := false;
      if State(value.Snap()) == UPTODATE {
        assert value in data.Values by {
          assert AllStored(ring.objs, data);
        }
        var ran := Ask(value);
        if ran {
          Eject(node, j);
          ejectedHere := true;
        }
      }
    }

    /**
     * Where `_sweep` stands after the first `i` objects of the ring it
     * started from, `objs0` (described by `items`): the ring and the counters
     * are as `SweepAt` says, `iteritems`' cursor `here` is past the first `j`
     * linked nodes, and the objects reached have been asked to deactivate
     * while the others are as they were.
     */
    ghost predicate Sweeping(objs0: seq<Persistent>, pos: map<Persistent, nat>, items: seq<SweepItem>, i: nat, j: nat, E: set<nat>,
                             here: Slot, target: int, bytes: int, r0: Swept)
      reads this, ring, ring.links, ring.ringToObj.Values`ring, data.Values`oid
    {
      && Valid() && sweeping
      && SweepAt(objs0, pos, items, jar, i, j, E, ring.objs, target, bytes, nonGhostCount, totalEstimatedSize, r0)
      && ring.CursorAt(here, j)
    }

    /**
     * Take the (node, object) pair at `iteritems`' cursor, past the first
     * `j` linked nodes, and visit the object: the cursor moves past the node
     * (or, when the node is deleted, stays before the next one), and no
     * object of `others`, a set without this one, changes.
     */
    method VisitNext(here: Slot, ghost j: nat, ghost objs0: seq<Persistent>, ghost i: nat) returns (next: Slot, value: Persistent, ejectedHere: bool)
      requires Valid() && here != Home && ring.CursorAt(here, j)
      requires j < |ring.objs| && i < |objs0| && ring.objs[j] == objs0[i]
      requires forall x | 0 <= x < |objs0| && x != i :: objs0[x] != objs0[i]
      modifies this`deactivateRan, this`totalEstimatedSize, this`nonGhostCount, {ring.objs[j]}`flags, {ring.objs[j]}`dict, ring, ring.links
      ensures Valid() && data == old(data) && classes == old(classes) && sweeping == old(sweeping) && value == old(ring.objs[j])
      ensures var it := SweepItem(old(value.Snap()), value.hook, value.jar == Some(jar));
        value.Snap() == Visited(it) && (ejectedHere <==> Ejects(it))
      ensures ejectedHere ==>
        && ring.objs == RemoveAt(old(ring.objs), j) && nonGhostCount == old(nonGhostCount) - 1
        && totalEstimatedSize == old(totalEstimatedSize) + (EstimatedSizeIn24Bits(-1) - value.size) * 64
      ensures !ejectedHere ==>
        ring.objs == old(ring.objs) && nonGhostCount == old(nonGhostCount) && totalEstimatedSize == old(totalEstimatedSize)
      ensures ring.CursorAt(next, if ejectedHere then j else j + 1)
    {
      ring.StepAt(here, j);
      var node := here.node;
      next, value := ring.links.next[here], ring.ringToObj[node];
      SlotAfterRemove(ring.links.Order(), j);
      ejectedHere := SweepVisit(node, value, j);
    }

    method FramedVisit(here: Slot, ghost j: nat, ghost objs0: seq<Persistent>, ghost items: seq<SweepItem>, ghost i: nat)
      returns (next: Slot, value: Persistent, ejectedHere: bool)
      requires Valid() && here != Home && ring.CursorAt(here, j)
      requires j < |ring.objs| && i < |objs0| && ring.objs[j] == objs0[i]
      requires forall x | 0 <= x < |objs0| && x != i :: objs0[x] != objs0[i]
      requires Reached(objs0, items, i) && items[i].hook == objs0[i].hook && (items[i].ours <==> items[i].obj.jar == Some(jar))
      modifies this`deactivateRan, this`totalEstimatedSize, this`nonGhostCount, {ring.objs[j]}`flags, {ring.objs[j]}`dict, ring, ring.links
      ensures Valid() && data == old(data) && classes == old(classes) && sweeping == old(sweeping) && value == old(ring.objs[j])
      ensures var it := SweepItem(old(value.Snap()), value.hook, value.jar == Some(jar));
        value.Snap() == Visited(it) && (ejectedHere <==> Ejects(it))
      ensures ejectedHere ==>
        && ring.objs == RemoveAt(old(ring.objs), j) && nonGhostCount == old(nonGhostCount) - 1
        && totalEstimatedSize == old(totalEstimatedSize) + (EstimatedSizeIn24Bits(-1) - value.size) * 64
      ensures !ejectedHere ==>
        ring.objs == old(ring.objs) && nonGhostCount == old(nonGhostCount) && totalEstimatedSize == old(totalEstimatedSize)
      ensures ring.CursorAt(next, if ejectedHere then j else j + 1)
      ensures Reached(objs0, items, i + 1)
    {
      next, value, ejectedHere := VisitNext(here, j, objs0, i);
      VisitedOneMore((objs0, items, jar, i));
    }

    /** One turn of `_sweep`'s loop once the budgets are found unmet, the sweep's ghost progress moved on with it. */
    method SweepStep(here: Slot, ghost objs0: seq<Persistent>, ghost pos: map<Persistent, nat>, ghost items: seq<SweepItem>, ghost i: nat, ghost j: nat,
                     ghost E: set<nat>, target: int, bytes: int, ghost r0: Swept, ejected: nat)
      returns (next: Slot, ejected': nat, ghost i': nat, ghost j': nat, ghost E': set<nat>)
      requires i < |objs0| && here != Home && ejected == |E|
      requires Sweeping(objs0, pos, items, i, j, E, here, target, bytes, r0) && Reached(objs0, items, i)
      requires !Satisfied(target, bytes, nonGhostCount, totalEstimatedSize)
      modifies this`deactivateRan, this`totalEstimatedSize, this`nonGhostCount, ring, ring.links, {objs0[i]}`flags, {objs0[i]}`dict
      ensures data == old(data) && classes == old(classes)
      ensures Sweeping(objs0, pos, items, i', j', E', next, target, bytes, r0) && Reached(objs0, items, i')
      ensures i' == i + 1 && ejected' == |E'|
    {
      SweepAtHere(objs0, pos, items, jar, i, j, E, ring.objs, target, bytes, nonGhostCount, totalEstimatedSize, r0);
      assert StateAt(objs0, i) == items[i].obj;
      ghost var it := SweepItem(objs0[i].Snap(), objs0[i].hook, objs0[i].jar == Some(jar));
      assert it == items[i];
      var value, ejectedHere;
      next, value, ejectedHere := FramedVisit(here, j, objs0, items, i);
      assert value == objs0[i];
      assert ejectedHere <==> Ejects(it);
      SweepAtNext(objs0, pos, items, jar, i, j, E, old(ring.objs), target, bytes, old(nonGhostCount), old(totalEstimatedSize), r0,
                  ejectedHere, ring.objs, nonGhostCount, totalEstimatedSize);
      assert i !in E;
      E', ejected', j' := if ejectedHere then E + {i} else E, if ejectedHere then ejected + 1 else ejected, if ejectedHere then j else j + 1;
      i' := i + 1;
    }

    /**
     * `_sweep(target, target_size_bytes)`, under the `_sweeping_ring` guard:
     * walk the ring from the least recently used end with `iteritems`,
     * stopping once the budgets are met, and eject what `SweepFrom` ejects.
     * The ring keeps the objects not ejected, in order; the objects reached
     * have been asked to deactivate and the others are untouched.
     */
    method Sweep(target: int, bytes: int) returns (ejected: nat)
      requires Valid()
      modifies this`sweeping, this`deactivateRan, this`totalEstimatedSize, this`nonGhostCount
      modifies ring, ring.links, RingSet()`flags, RingSet()`dict
      ensures Valid() && data == old(data) && classes == old(classes) && !sweeping
      ensures var r := old(SweepNow(target, bytes));
        && ejected == |r.ejected| && nonGhostCount == r.count && totalEstimatedSize == r.total
        && ring.objs == Keep(old(ring.objs), r.ejected)
        && Reached(old(ring.objs), old(Items(ring.objs)), r.stop)
    {
      ghost var objs0 := ring.objs;
      ghost var pos, items, r0 := SweepBegins(target, bytes);
      SetSweeping(true, objs0, items, 0);
      ghost var i, j, E;
      ejected, i, j, E := SweepLoop(objs0, pos, items, target, bytes, r0);
      SetSweeping(false, objs0, items, i);
    }

    /** Set the `_sweeping_ring` guard; no object and nothing the cache's invariant is about changes. */
    method SetSweeping(b: bool, ghost objs0: seq<Persistent>, ghost items: seq<SweepItem>, ghost i: nat)
      requires Valid() && Reached(objs0, items, i)
      modifies this`sweeping
      ensures sweeping == b && Valid() && Reached(objs0, items, i)
    {
      sweeping := b;
    }

    /** A sweep starts at the ring's first object, with nothing reached and nothing ejected. */
    lemma SweepBegins(target: int, bytes: int) returns (pos: map<Persistent, nat>, items: seq<SweepItem>, r0: Swept)
      requires Valid()
      ensures items == Items(ring.objs) && r0 == SweepNow(target, bytes) && Reached(ring.objs, items, 0)
      ensures SweepAt(ring.objs, pos, items, jar, 0, 0, {}, ring.objs, target, bytes, nonGhostCount, totalEstimatedSize, r0)
    {
      var objs0 := ring.objs;
      items := Items(objs0);
      r0 := SweepFrom(items, 0, target, bytes, nonGhostCount, totalEstimatedSize, {});
      pos := ring.ObjsPositions();
      SweepAtStart(objs0, pos, items, jar, target, bytes, nonGhostCount, totalEstimatedSize);
      assert Reached(objs0, items, 0) by {
        forall x | 0 <= x < |objs0|
          ensures StateAt(objs0, x) == items[x].obj
        {
        }
      }
    }

    /** `_sweep`'s loop, from the start of the ring `objs0` to where `r0` says the sweep stops. */
    method SweepLoop(ghost objs0: seq<Persistent>, ghost pos: map<Persistent, nat>, ghost items: seq<SweepItem>,
                     target: int, bytes: int, ghost r0: Swept) returns (ejected: nat, ghost i: nat, ghost j: nat, ghost E: set<nat>)
      requires Valid() && sweeping && ring.objs == objs0 && Reached(objs0, items, 0)
      requires SweepAt(objs0, pos, items, jar, 0, 0, {}, objs0, target, bytes, nonGhostCount, totalEstimatedSize, r0)
      modifies this`deactivateRan, this`totalEstimatedSize, this`nonGhostCount
      modifies ring, ring.links, RingSet()`flags, RingSet()`dict
      ensures Valid() && sweeping && data == old(data) && classes == old(classes)
      ensures r0 == Swept(i, nonGhostCount, totalEstimatedSize, E) && ring.objs == Keep(objs0, E)
      ensures ejected == |E| && Reached(objs0, items, i)
    {
      E, i, j := {}, 0, 0;
      ejected := 0;
      var here := ring.IterStart();
      while here != Home
        invariant Sweeping(objs0, pos, items, i, j, E, here, target, bytes, r0) && Reached(objs0, items, i)
        invariant data == old(data) && classes == old(classes)
        invariant ejected == |E|
        decreases |objs0| - i
      {
        if Satisfied(target, bytes, nonGhostCount, totalEstimatedSize) {
          break;
        }
        ring.CursorAtEnd(here, j);
        SweepAtHere(objs0, pos, items, jar, i, j, E, ring.objs, target, bytes, nonGhostCount, totalEstimatedSize, r0);
        here, ejected, i, j, E := SweepStep(here, objs0, pos, items, i, j, E, target, bytes, r0, ejected);
      }
      ring.CursorAtEnd(here, j);
      SweepAtEnd(objs0, pos, items, jar, i, j, E, ring.objs, target, bytes, nonGhostCount, totalEstimatedSize, r0);
    }

    /**
     * `__setitem__`: store a class, or store an object and link it at the
     * most recently used end when it is not a ghost and not yet in the ring.
     */
    method SetItem(key: BytesArg, value: Value, elsewhere: bool) returns (outcome: Outcome)
      requires Valid()
      modifies this`classes, this`data, this`nonGhostCount, ring, ring.links, ValueObjects(value)`ring
      ensures Valid()
      ensures outcome == old(SetItemOutcome(key, value, elsewhere))
      ensures outcome.Fail? ==> data == old(data) && classes == old(classes) && ring.objs == old(ring.objs)
      ensures outcome.Pass? ==> Get(key.b) == Some(value)
      ensures outcome.Pass? && value.Klass? ==> classes == old(classes)[key.b := value.c] && data == old(data)
      ensures outcome.Pass? && value.Instance? ==> data == old(data)[key.b := value.p] && classes == old(classes)
      ensures outcome.Pass? && value.Instance? ==>
        ring.objs == old(if State(value.p.Snap()) != GHOST && !ring.Contains(value.p) then ring.objs + [value.p] else ring.objs)
      ensures !(outcome.Pass? && value.Instance?) ==> ring.objs == old(ring.objs)
      ensures nonGhostCount - old(nonGhostCount) == |ring.objs| - |old(ring.objs)|
    {
      if value.Uncacheable? {
        return Fail(TypeError);
      }
      var valueOid := OidOf(value);
      if key.NotBytes? || valueOid.None? {
        return Fail(TypeError);
      }
      var oid := key.b;
      if valueOid.value != oid {
        return Fail(ValueError);
      }
      if oid in classes || oid in data {
        var existing := Get(oid);
        if existing.Some? && existing.value != value {
          return Fail(ValueError);
        }
      }
      var valueJar := JarOf(value);
      if valueJar.None? {
        return Fail(ValueError);
      }
      if elsewhere && valueJar.value != jar {
        return Fail(ValueError);
      }
      outcome := Pass;
      if value.Klass? {
        classes := classes[oid := value.c];
      } else {
        StoreObject(oid, value.p);
      }
    }

    // ------------------------------------------------------------ the public sweeps

    /** `incrgc`: sweep down to `IncrGcTarget` objects within the byte budget `cache_size_bytes`. */
    method IncrGc() returns (ejected: nat)
      requires Valid()
      modifies this`sweeping, this`deactivateRan, this`totalEstimatedSize, this`nonGhostCount
      modifies ring, ring.links, RingSet()`flags, RingSet()`dict
      ensures Valid() && data == old(data) && classes == old(classes) && !sweeping
      ensures var r := old(SweepNow(IncrGcTarget(cacheSize, drainResistance, nonGhostCount), cacheSizeBytes));
        && ejected == |r.ejected| && nonGhostCount == r.count && totalEstimatedSize == r.total
        && ring.objs == Keep(old(ring.objs), r.ejected)
    {
      var target := IncrGcTarget(cacheSize, drainResistance, nonGhostCount);
      ejected := Sweep(target, cacheSizeBytes);
    }

    /**
     * `full_sweep` (which `minimize` is bound to): a sweep with no budget,
     * which ejects every up-to-date object of this jar whose base
     * `_p_deactivate` runs, and keeps the rest in order.
     */
    method FullSweep() returns (ejected: nat)
      requires Valid()
      modifies this`sweeping, this`deactivateRan, this`totalEstimatedSize, this`nonGhostCount
      modifies ring, ring.links, RingSet()`flags, RingSet()`dict
      ensures Valid() && data == old(data) && classes == old(classes) && !sweeping
      ensures var E := old(Ejectable(Items(ring.objs)));
        && ejected == |E| && nonGhostCount == old(nonGhostCount) - |E|
        && ring.objs == Keep(old(ring.objs), E)
    {
      ghost var items := Items(ring.objs);
      FullSweepEjects(items, nonGhostCount, totalEstimatedSize);
      SweepCount(items, 0, 0, 0, nonGhostCount, totalEstimatedSize, {});
      ejected := Sweep(0, 0);
    }

    // ------------------------------------------------------------ ghosts, reify, invalidate

    /** The object stored under `oid`, if any, as a set. */
    ghost function StoredAt(oid: Oid): set<Persistent>
      reads this`data
    {
      if oid in data then {data[oid]} else {}
    }

    /** An object without an oid is not stored. */
    lemma NotStored(p: Persistent)
      requires Keyed() && p.oid.None?
      ensures p !in data.Values
    {
      forall k | k in data
        ensures data[k] != p
      {
      }
    }

    /**
     * `new_ghost(oid, obj)`: a value with no `_p_oid` slot raises
     * AttributeError; one that already has an oid or a jar is a ValueError,
     * and an oid already cached a KeyError. Otherwise the value is given the
     * oid and this cache's jar, an instance is made a ghost without clearing
     * its attributes, and the value is stored as `__setitem__` stores it; a
     * ghost does not enter the ring.
     */
    method NewGhost(oid: Oid, value: Value) returns (outcome: Outcome)
      requires Valid()
      modifies this`classes, this`data, this`deactivateRan, this`totalEstimatedSize, this`nonGhostCount, ring, ring.links
      modifies ValueObjects(value)`oid, ValueObjects(value)`jar, ValueObjects(value)`flags, ValueObjects(value)`dict
      modifies ValueObjects(value)`ring
      ensures Valid() && ring.objs == old(ring.objs)
      ensures nonGhostCount == old(nonGhostCount) && totalEstimatedSize == old(totalEstimatedSize)
      ensures outcome == Fail(AttributeError) <==> value.Uncacheable?
      ensures outcome == Fail(ValueError) <==> !value.Uncacheable? && (old(OidOf(value)).Some? || old(JarOf(value)).Some?)
      ensures outcome == Fail(KeyError) <==>
        !value.Uncacheable? && old(OidOf(value)).None? && old(JarOf(value)).None? && (oid in old(data) || oid in old(classes))
      ensures outcome.Fail? ==> data == old(data) && classes == old(classes) && (value.Instance? ==> value.p.Snap() == old(value.p.Snap()))
      ensures outcome.Pass? && value.Klass? ==>
        classes == old(classes)[oid := value.c.(oid := Some(oid), jar := Some(jar))] && data == old(data)
      ensures outcome.Pass? && value.Instance? ==>
        && data == old(data)[oid := value.p] && classes == old(classes)
        && value.p.Snap() == old(value.p.Snap()).(oid := Some(oid), jar := Some(jar), flags := None)
        && State(value.p.Snap()) == GHOST
    {
      if value.Uncacheable? {
        return Fail(AttributeError);
      }
      if OidOf(value).Some? || JarOf(value).Some? {
        return Fail(ValueError);
      }
      if oid in classes || oid in data {
        return Fail(KeyError);
      }
      if value.Klass? {
        var c := value.c.(oid := Some(oid), jar := Some(jar));
        outcome := SetItem(BytesValue(oid), Klass(c), false);
        return;
      }
      outcome := StoreGhost(oid, value.p);
    }

    /** The instance part of `new_ghost`, once every check has passed: made a ghost and stored. */
    method StoreGhost(oid: Oid, p: Persistent) returns (outcome: Outcome)
      requires Valid() && p.oid.None? && p.jar.None? && oid !in data && oid !in classes
      modifies this`classes, this`data, this`deactivateRan, this`totalEstimatedSize, this`nonGhostCount, ring, ring.links
      modifies p`oid, p`jar, p`flags, p`dict, p`ring
      ensures Valid() && ring.objs == old(ring.objs) && outcome == Pass
      ensures nonGhostCount == old(nonGhostCount) && totalEstimatedSize == old(totalEstimatedSize)
      ensures data == old(data)[oid := p] && classes == old(classes)
      ensures p.Snap() == old(p.Snap()).(oid := Some(oid), jar := Some(jar), flags := None) && State(p.Snap()) == GHOST
    {
      MakeGhost(oid, p);
      outcome := SetItem(BytesValue(oid), Instance(p), false);
    }

    /**
     * The object part of `new_ghost` before it is stored: `_p_oid`, then
     * `_p_jar` (which marks the object up to date), then the deactivation
     * helper, whose size update finds nothing stored under the oid.
     */
    method MakeGhost(oid: Oid, p: Persistent)
      requires Valid() && p.oid.None? && p.jar.None? && oid !in data && oid !in classes
      modifies this`deactivateRan, this`totalEstimatedSize, p`oid, p`jar, p`flags, p`dict
      ensures Valid() && data == old(data) && classes == old(classes) && ring.objs == old(ring.objs)
      ensures totalEstimatedSize == old(totalEstimatedSize)
      ensures p.Snap() == old(p.Snap()).(oid := Some(oid), jar := Some(jar), flags := None) && State(p.Snap()) == GHOST
    {
      NotStored(p);
      AssignIds(oid, p);
      if State(p.Snap()) != GHOST {
        var calls := p.InvalidateDeactivateHelper(false, ViewFor(p));
        assert calls == [SizeUpdate(Some(oid), -1), DeactivateRan];
        Deliver(calls);
      }
      ValidKept();
    }

    /** `obj._p_oid = oid; obj._p_jar = self.jar` for an object not stored here: it is now up to date. */
    method AssignIds(oid: Oid, p: Persistent)
      requires Valid() && p.oid.None? && p.jar.None? && p !in data.Values
      modifies p`oid, p`jar, p`flags
      ensures Valid() && p.Snap() == old(p.Snap()).(oid := Some(oid), jar := Some(jar), flags := Some(CLEAN))
    {
      var _ := p.SetOid(Some(oid), ViewFor(p));
      var _ := p.SetJar(Some(jar), ViewFor(p));
      ValidKept();
    }

    /**
     * One oid of `reify`: a KeyError for an oid not cached; a ghost object is
     * activated with the state its jar loads (`load`), counted as a non-ghost,
     * and passed to `mru` (written out: skipped while sweeping, else the
     * object is linked or moved), which counts it once more when it links it
     * into the ring. Any other object is left alone; a class goes to
     * `ReifyClass`. `k` is the ring position `mru` moved, `act` the count of
     * activations (0 or 1).
     */
    method ReifyOne(oid: Oid, load: Load) returns (outcome: Outcome, ghost k: nat, ghost act: nat)
      requires Valid()
      modifies this`nonGhostCount, ring, ring.links, StoredAt(oid)`flags, StoredAt(oid)`dict, StoredAt(oid)`ring
      ensures Valid() && data == old(data) && classes == old(classes) && sweeping == old(sweeping)
      ensures outcome == Fail(KeyError) <==>
        (oid !in data && oid !in classes) || (oid in classes && classes[oid].state == Some(GHOST) && !sweeping)
      ensures outcome == Fail(AttributeError) <==> oid in classes && classes[oid].state.None?
      ensures outcome.Fail? ==> outcome.error in {KeyError, CallbackError, AttributeError} && ring.objs == old(ring.objs)
      ensures nonGhostCount == old(nonGhostCount) + act + (|ring.objs| - |old(ring.objs)|)
      ensures act == (if (oid in data && old(State(data[oid].Snap())) == GHOST && outcome.Pass?)
                         || (oid in classes && classes[oid].state == Some(GHOST)) then 1 else 0)
      ensures oid in data && old(State(data[oid].Snap())) != GHOST ==>
        && data[oid].Snap() == old(data[oid].Snap()) && outcome.Pass?
        && ring.objs == old(ring.objs) && nonGhostCount == old(nonGhostCount)
      ensures oid in data && old(State(data[oid].Snap())) == GHOST ==>
        var a := ActivateStep(old(data[oid].Snap()), load);
        && data[oid].Snap() == a.obj && outcome == a.outcome
        && (outcome.Pass? ==>
             && State(data[oid].Snap()) != GHOST
             && nonGhostCount == old(nonGhostCount) + 1 + (|ring.objs| - |old(ring.objs)|)
             && (!sweeping ==> Touched(old(ring.objs), ring.objs, data[oid], old(ring.Contains(data[oid])), false, k)))
      ensures oid !in data ==> ring.objs == old(ring.objs)
      ensures oid in data && (outcome.Pass? || old(State(data[oid].Snap())) != GHOST) ==> State(data[oid].Snap()) != GHOST
      ensures sweeping ==> ring.objs == old(ring.objs)
      ensures forall q | q in old(ring.objs) :: q in ring.objs
      ensures old(ring.ringToObj).Keys <= ring.ringToObj.Keys
      ensures oid in data && (old(ring.Contains(data[oid])) || (old(State(data[oid].Snap())) == GHOST && outcome.Pass? && !sweeping)) ==>
        ring.Contains(data[oid])
      ensures forall k | k in data && k != oid :: data[k].Snap() == old(data[k].Snap())
      ensures old(Tallied().linked) <= Tallied().linked
    {
      k, act := 0, 0;
      if oid !in data && oid !in classes {
        outcome := Fail(KeyError);
      } else if oid in classes {
        outcome, act := ReifyClass(classes[oid]);
      } else if State(data[oid].Snap()) == GHOST {
        outcome, k := ReifyGhost(data[oid], load);
        act := if outcome.Pass? then 1 else 0;
        OthersKept(oid);
        return;
      } else {
        outcome := Pass;
      }
      assert unchanged(data.Values) && ring.ringToObj == old(ring.ringToObj);
      OthersKept(oid);
    }

    /** `ReifyOne` on a stored ghost `p`: activated, counted, and passed to `mru`. */
    method ReifyGhost(p: Persistent, load: Load) returns (outcome: Outcome, ghost k: nat)
      requires Valid() && p in data.Values && State(p.Snap()) == GHOST
      modifies this`nonGhostCount, ring, ring.links, p`flags, p`dict, p`ring
      ensures Valid() && data == old(data) && classes == old(classes) && sweeping == old(sweeping)
      ensures p.Snap() == ActivateStep(old(p.Snap()), load).obj && outcome == ActivateStep(old(p.Snap()), load).outcome
      ensures outcome.Fail? ==> outcome.error == CallbackError && ring.objs == old(ring.objs) && nonGhostCount == old(nonGhostCount)
      ensures outcome.Pass? ==> State(p.Snap()) != GHOST && nonGhostCount == old(nonGhostCount) + 1 + (|ring.objs| - |old(ring.objs)|)
      ensures outcome.Pass? && !sweeping ==> Touched(old(ring.objs), ring.objs, p, old(ring.Contains(p)), false, k) && ring.Contains(p)
      ensures sweeping ==> ring.objs == old(ring.objs)
      ensures forall q | q in old(ring.objs) :: q in ring.objs
      ensures old(ring.ringToObj).Keys <= ring.ringToObj.Keys
      ensures old(ring.Contains(p)) ==> ring.Contains(p)
    {
      k := 0;
      ghost var objs, linked := ring.objs, ring.Contains(p);
      outcome := ActivateCounted(p, load);
      if outcome.Pass? && !sweeping {
        k := TouchLive(p, objs, linked);
      }
    }

    /** `value._p_activate()` on a stored ghost, then one more non-ghost. */
    method ActivateCounted(p: Persistent, load: Load) returns (outcome: Outcome)
      requires Valid() && p in data.Values && State(p.Snap()) == GHOST
      modifies this`nonGhostCount, p`flags, p`dict
      ensures p.Snap() == ActivateStep(old(p.Snap()), load).obj && outcome == ActivateStep(old(p.Snap()), load).outcome
      ensures outcome.Fail? ==> outcome.error == CallbackError && nonGhostCount == old(nonGhostCount)
      ensures outcome.Pass? ==> State(p.Snap()) != GHOST && nonGhostCount == old(nonGhostCount) + 1
      ensures Valid() && ring.objs == old(ring.objs) && ring.ringToObj == old(ring.ringToObj) && p.ring == old(p.ring)
      ensures data == old(data) && classes == old(classes) && sweeping == old(sweeping)
    {
      var _, activated := p.Activate(load);
      outcome := activated;
      if outcome.Pass? {
        nonGhostCount := nonGhostCount + 1;
      }
    }

    /** `mru` on a stored live object: it ends in the ring, and the ring keeps every object it held. */
    method TouchLive(p: Persistent, ghost objs: seq<Persistent>, ghost linked: bool) returns (ghost k: nat)
      requires Valid() && p in data.Values && State(p.Snap()) != GHOST && objs == ring.objs && linked == ring.Contains(p)
      modifies this`nonGhostCount, ring, ring.links, p`ring
      ensures Valid() && data == old(data) && classes == old(classes)
      ensures Touched(objs, ring.objs, p, linked, false, k)
      ensures nonGhostCount - old(nonGhostCount) == |ring.objs| - |objs|
      ensures forall q | q in objs :: q in ring.objs
      ensures old(ring.ringToObj).Keys <= ring.ringToObj.Keys && ring.Contains(p)
      ensures p.Snap() == old(p.Snap()) && sweeping == old(sweeping)
    {
      k := Touch(p);
    }

    /**
     * `reify` on a class: reading `_p_state` is an AttributeError when the
     * class has none; a class that reads as a ghost has its own
     * `_p_activate` called (taken to return and to change nothing this cache
     * holds), is counted as a non-ghost, and is refused by `mru` with a
     * KeyError, since `data` does not hold it, unless the ring is being
     * swept. Any other class is left alone.
     */
    method ReifyClass(c: PClass) returns (outcome: Outcome, ghost act: nat)
      modifies this`nonGhostCount
      ensures outcome == Fail(AttributeError) <==> c.state.None?
      ensures outcome == Fail(KeyError) <==> c.state == Some(GHOST) && !sweeping
      ensures outcome.Fail? ==> outcome.error in {KeyError, AttributeError}
      ensures act == (if c.state == Some(GHOST) then 1 else 0) && nonGhostCount == old(nonGhostCount) + act
    {
      act := 0;
      if c.state.None? {
        return Fail(AttributeError), act;
      }
      outcome := Pass;
      if c.state.value == GHOST {
        nonGhostCount := nonGhostCount + 1;
        act := 1;
        if !sweeping {
          outcome := Fail(KeyError);
        }
      }
    }

    /** The first `n` oids of `oids` are cached, and none of them names a ghost. */
    ghost predicate Reified(oids: seq<Oid>, n: nat)
      reads this`data, this`classes, data.Values
    {
      && n <= |oids|
      && (forall x | 0 <= x < n :: oids[x] in data || oids[x] in classes)
      && (forall x | 0 <= x < n && oids[x] in data :: State(data[oids[x]].Snap()) != GHOST)
    }

    /**
     * `Reified` survives a step that changed at most the object under
     * `oids[i]`, and extends to `oids[i]` when that one is cached and no
     * longer a ghost.
     */
    twostate lemma ReifiedMore(t: (seq<Oid>, nat, bool))
      requires var (oids, i, more) := t;
        && i < |oids| && old(Reified(oids, i)) && data == old(data) && classes == old(classes) && Keyed()
        && (forall q | q in data.Values && q !in StoredAt(oids[i]) :: unchanged(q))
        && (oids[i] in data && old(State(data[oids[i]].Snap())) != GHOST ==> State(data[oids[i]].Snap()) != GHOST)
        && (more ==> (oids[i] in data || oids[i] in classes) && (oids[i] in data ==> State(data[oids[i]].Snap()) != GHOST))
      ensures Reified(t.0, if t.2 then t.1 + 1 else t.1)
    {
      var (oids, i, more) := t;
      var n := if more then i + 1 else i;
      forall x | 0 <= x < n && oids[x] in data
        ensures State(data[oids[x]].Snap()) != GHOST
      {
        if oids[x] != oids[i] {
          assert data[oids[x]] !in StoredAt(oids[i]);
          assert unchanged(data[oids[x]]);
        }
      }
    }

    /** The part of the cache that `reify` and `invalidate` account for. */
    ghost function Tallied(): Tally
      reads this, ring, data.Values
    {
      Tally((map k | k in data :: data[k].Snap()), ring.objs, (set k | k in data && ring.Contains(data[k])), nonGhostCount, data)
    }

    /** The tally records an object under each oid that stores one. */
    lemma TalliedKeys()
      ensures Tallied().snaps.Keys == Tallied().stored.Keys == data.Keys
    {
    }

    /**
     * After a step that changed at most the object under `oid` and kept
     * the ring's nodes, every other object is as it was, and every object
     * linked into the ring still is.
     */
    twostate lemma OthersKept(oid: Oid)
      requires Keyed() && data == old(data)
      requires forall q | q in data.Values && q !in StoredAt(oid) :: unchanged(q)
      requires old(ring.ringToObj).Keys <= ring.ringToObj.Keys
      requires oid in data && old(ring.Contains(data[oid])) ==> ring.Contains(data[oid])
      ensures forall k | k in data && k != oid :: data[k].Snap() == old(data[k].Snap())
      ensures old(Tallied().linked) <= Tallied().linked
    {
      forall k | k in data && k != oid
        ensures unchanged(data[k])
      {
        assert data[k] !in StoredAt(oid);
      }
    }

    /** Restates one `reify` step of `ReifyOne` on the tally. */
    twostate lemma TallyKept(t: (Oid, bool, nat))
      requires var (oid, passed, act) := t;
        && Keyed() && data == old(data) && classes == old(classes)
        && (forall k | k in data && k != oid :: data[k].Snap() == old(data[k].Snap()))
        && (oid in data && old(State(data[oid].Snap())) != GHOST ==> data[oid].Snap() == old(data[oid].Snap()))
        && nonGhostCount == old(nonGhostCount) + act + (|ring.objs| - |old(ring.objs)|)
        && act == (if (oid in data && old(State(data[oid].Snap())) == GHOST && passed)
                     || (oid in classes && classes[oid].state == Some(GHOST)) then 1 else 0)
        && (forall q | q in old(ring.objs) :: q in ring.objs) && (sweeping ==> ring.objs == old(ring.objs))
        && old(Tallied().linked) <= Tallied().linked
        && (oid in data && old(State(data[oid].Snap())) == GHOST && passed && !sweeping ==> ring.Contains(data[oid]))
      ensures TallyStep(t.0, old(Tallied()), Tallied(), classes, sweeping, t.1, t.2)
    {
    }

    /** One pass of `reify`'s loop: `ReifyOne` on the `i`th oid, which reifies one more unless it fails. */
    method ReifyStep(oids: seq<Oid>, loads: seq<Load>, i: nat) returns (outcome: Outcome, ghost act: nat)
      requires Valid() && i < |oids| == |loads| && Reified(oids, i)
      modifies this`nonGhostCount, ring, ring.links, StoredAt(oids[i])`flags, StoredAt(oids[i])`dict, StoredAt(oids[i])`ring
      ensures Valid() && data == old(data) && classes == old(classes) && sweeping == old(sweeping)
      ensures outcome == Fail(KeyError) <==>
        (oids[i] !in data && oids[i] !in classes) || (oids[i] in classes && classes[oids[i]].state == Some(GHOST) && !sweeping)
      ensures outcome == Fail(AttributeError) <==> oids[i] in classes && classes[oids[i]].state.None?
      ensures outcome.Fail? ==> outcome.error in {KeyError, CallbackError, AttributeError}
      ensures Reified(oids, if outcome.Pass? then i + 1 else i)
      ensures TallyStep(oids[i], old(Tallied()), Tallied(), classes, sweeping, outcome.Pass?, act)
    {
      ghost var k;
      outcome, k, act := ReifyOne(oids[i], loads[i]);
      ReifiedMore((oids, i, outcome.Pass?));
      TallyKept((oids[i], outcome.Pass?, act));
    }

    /**
     * `reify(oids)` (a single bytes oid is the one-element case): each oid in
     * turn, `loads` giving what its jar loads, until the first error. `done`
     * oids went through; every object among them is no longer a ghost, and
     * `ReifyTally` says what else changed: only those objects, the ring
     * gaining them, and the count.
     */
    method Reify(oids: seq<Oid>, loads: seq<Load>) returns (outcome: Outcome, ghost done: nat, ghost act: nat, ghost start: Tally, ghost before: Tally, ghost finish: Tally)
      requires Valid() && |loads| == |oids|
      modifies this`nonGhostCount, ring, ring.links, data.Values`flags, data.Values`dict, data.Values`ring
      ensures start == old(Tallied()) && finish == Tallied()
      ensures Valid() && data == old(data) && classes == old(classes)
      ensures done <= |oids| && (outcome.Pass? <==> done == |oids|)
      ensures outcome.Fail? ==>
        && outcome.error in {KeyError, CallbackError, AttributeError}
        && (outcome.error == KeyError <==>
             (oids[done] !in data && oids[done] !in classes) || (oids[done] in classes && classes[oids[done]].state == Some(GHOST) && !sweeping))
        && (outcome.error == AttributeError <==> oids[done] in classes && classes[oids[done]].state.None?)
      ensures forall x | 0 <= x < done :: oids[x] in data || oids[x] in classes
      ensures forall x | 0 <= x < done && oids[x] in data :: State(data[oids[x]].Snap()) != GHOST
      ensures ReifyTally(oids, done, done, start, before, classes, sweeping)
      ensures outcome.Pass? ==> finish == before
      ensures outcome.Fail? ==> TallyStep(oids[done], before, finish, classes, sweeping, false, act)
    {
      start, act := Tallied(), 0;
      ghost var s := start;
      AmongNone(oids, s.snaps, classes);
      var i := 0;
      outcome := Pass;
      while i < |oids|
        invariant Valid() && data == old(data) && classes == old(classes) && outcome.Pass?
        invariant Reified(oids, i) && ReifyTally(oids, i, i, s, Tallied(), classes, sweeping)
      {
        ghost var a := Tallied();
        outcome, act := ReifyStep(oids, loads, i);
        if outcome.Fail? {
          done, before, finish := i, a, Tallied();
          return;
        }
        ReifyTallyMore(oids, i, i + 1, s, a, Tallied(), classes, sweeping, true, act);
        i := i + 1;
      }
      done := i;
      before, finish := Tallied(), Tallied();
    }

    /**
     * `_invalidate(oid)`, under the `_sweeping_ring` guard: a non-ghost
     * object is invalidated through its class's `_p_invalidate` (whose calls
     * reach this cache), deleted from the ring and counted out; a class is
     * dropped, and `classHook` says whether it defines a `_p_invalidate` to
     * call; an unknown oid, or a ghost, changes nothing.
     */
    method InvalidateOne(oid: Oid) returns (classHook: bool)
      requires Valid()
      modifies this`sweeping, this`deactivateRan, this`totalEstimatedSize, this`nonGhostCount, this`classes
      modifies ring, ring.links, StoredAt(oid)`flags, StoredAt(oid)`dict
      ensures Valid() && data == old(data) && classes == old(classes) - {oid} && !sweeping
      ensures classHook <==> oid in old(classes) && old(classes[oid].hasInvalidate)
      ensures forall q | q in ring.objs :: q in old(ring.objs)
      ensures oid in data && old(State(data[oid].Snap())) != GHOST ==>
        var p := data[oid];
        && p.Snap() == DispatchInvalidateStep(old(p.Snap()), p.hook, old(ViewFor(p))).obj
        && p !in ring.objs
        && (old(p in ring.objs) ==> ring.objs == old(RemoveAt(ring.objs, IndexOf(ring.objs, p))))
        && (!old(ring.Contains(p)) ==> ring.objs == old(ring.objs))
        && nonGhostCount == old(nonGhostCount) - 1
        && totalEstimatedSize == old(totalEstimatedSize) - (if p.hook == BaseDeactivate && p.jar == Some(jar) then old(p.size) * 64 else 0)
      ensures !(oid in data && old(State(data[oid].Snap())) != GHOST) ==>
        && ring.objs == old(ring.objs) && nonGhostCount == old(nonGhostCount) && totalEstimatedSize == old(totalEstimatedSize)
        && (oid in data ==> data[oid].Snap() == old(data[oid].Snap()))
    {
      Guard(true);
      classHook := false;
      if oid in data && State(data[oid].Snap()) != GHOST {
        assert oid !in classes && classes - {oid} == classes;
        InvalidateStored(data[oid]);
      } else if oid in classes {
        classHook := DropClass(oid);
      } else {
        assert classes - {oid} == classes;
      }
      Guard(false);
    }

    /** Set or clear `_is_sweeping_ring` and nothing else. */
    method Guard(b: bool)
      requires Valid()
      modifies this`sweeping
      ensures Valid() && sweeping == b
    {
      sweeping := b;
    }

    /** `self.persistent_classes.pop(oid)`, answering whether the class defines `_p_invalidate`. */
    method DropClass(oid: Oid) returns (hasInvalidate: bool)
      requires Valid() && oid in classes
      modifies this`classes
      ensures Valid() && classes == old(classes) - {oid}
      ensures hasInvalidate == old(classes[oid].hasInvalidate)
    {
      var c := classes[oid];
      classes := classes - {oid};
      hasInvalidate := c.hasInvalidate;
    }

    /** The object branch of `_invalidate`: `value._p_invalidate()`, `ring.delete(value)`, one non-ghost fewer. */
    method InvalidateStored(p: Persistent)
      requires Valid() && p in data.Values
      modifies this`deactivateRan, this`totalEstimatedSize, this`nonGhostCount, ring, ring.links, p`flags, p`dict
      ensures Valid() && data == old(data) && classes == old(classes)
      ensures p.Snap() == DispatchInvalidateStep(old(p.Snap()), p.hook, old(ViewFor(p))).obj
      ensures p !in ring.objs && forall q | q in ring.objs :: q in old(ring.objs)
      ensures old(p in ring.objs) ==> ring.objs == old(RemoveAt(ring.objs, IndexOf(ring.objs, p)))
      ensures !old(ring.Contains(p)) ==> ring.objs == old(ring.objs)
      ensures nonGhostCount == old(nonGhostCount) - 1
      ensures totalEstimatedSize == old(totalEstimatedSize) - (if p.hook == BaseDeactivate && p.jar == Some(jar) then old(p.size) * 64 else 0)
    {
      InvalidateObject(p);
      DeleteCounted(p);
    }

    /** `self.ring.delete(value); self.non_ghost_count -= 1`. */
    method DeleteCounted(p: Persistent)
      requires Valid() && p in data.Values
      modifies this`nonGhostCount, ring, ring.links
      ensures Valid() && data == old(data) && classes == old(classes) && p !in ring.objs
      ensures old(p in ring.objs) ==> ring.objs == old(RemoveAt(ring.objs, IndexOf(ring.objs, p)))
      ensures !old(ring.Contains(p)) ==> ring.objs == old(ring.objs)
      ensures forall q | q in ring.objs :: q in old(ring.objs)
      ensures nonGhostCount == old(nonGhostCount) - 1
    {
      var _, _ := Unlink(p);
      nonGhostCount := nonGhostCount - 1;
    }

    /** `value._p_invalidate()` for a stored object, with the calls it makes on this cache. */
    method InvalidateObject(p: Persistent)
      requires Valid() && p in data.Values
      modifies this`deactivateRan, this`totalEstimatedSize, p`flags, p`dict
      ensures Valid() && data == old(data) && classes == old(classes) && ring.objs == old(ring.objs)
      ensures p.Snap() == DispatchInvalidateStep(old(p.Snap()), p.hook, old(ViewFor(p))).obj
      ensures totalEstimatedSize == old(totalEstimatedSize) - (if p.hook == BaseDeactivate && p.jar == Some(jar) then old(p.size) * 64 else 0)
    {
      KeyOf(p);
      var view := ViewFor(p);
      DeactivateCalls(p.Snap().(flags := Some(CLEAN)), p.hook, view);
      var calls := p.DispatchInvalidate(view);
      Deliver(calls);
      ValidKept();
    }

    /** Restates one `_invalidate(oid)` of `InvalidateOne` on the tally. */
    twostate lemma InvalidateKept(oid: Oid)
      requires Keyed() && data == old(data)
      requires forall q | q in data.Values && q !in StoredAt(oid) :: unchanged(q)
      requires forall q | q in ring.objs :: q in old(ring.objs)
      requires oid in data ==> data[oid].jar == old(data[oid].jar)
      requires oid in data && old(State(data[oid].Snap())) != GHOST ==>
        && data[oid] !in ring.objs && nonGhostCount == old(nonGhostCount) - 1
        && (data[oid].hook == BaseDeactivate && old(data[oid].jar).Some? ==> State(data[oid].Snap()) == GHOST)
      requires !(oid in data && old(State(data[oid].Snap())) != GHOST) ==>
        && ring.objs == old(ring.objs) && nonGhostCount == old(nonGhostCount)
        && (oid in data ==> data[oid].Snap() == old(data[oid].Snap()))
      ensures InvalidateStepped(oid, old(Tallied()), Tallied())
    {
      forall k | k in data && k != oid
        ensures data[k].Snap() == old(data[k].Snap())
      {
        assert data[k] !in StoredAt(oid);
        assert unchanged(data[k]);
      }
    }

    /** `_invalidate(oid)` as one step of the tally. */
    method InvalidateTallied(oid: Oid)
      requires Valid()
      modifies this`sweeping, this`deactivateRan, this`totalEstimatedSize, this`nonGhostCount, this`classes
      modifies ring, ring.links, StoredAt(oid)`flags, StoredAt(oid)`dict
      ensures Valid() && data == old(data) && classes == old(classes) - {oid} && !sweeping
      ensures InvalidateStepped(oid, old(Tallied()), Tallied())
    {
      var _ := InvalidateOne(oid);
      InvalidateKept(oid);
    }

    /**
     * Where `invalidate`'s loop stands after `i` oids: the cache is valid,
     * the classes named so far are dropped, and `hist` holds the tallies
     * gone through, the last one the cache as it is now.
     */
    ghost predicate Invalidating(oids: seq<Oid>, i: nat, classes0: map<Oid, PClass>, hist: seq<Tally>)
      reads this, ring, ring.links, ring.ringToObj.Values`ring, data.Values
    {
      && Valid() && i <= |oids| && classes == classes0 - SetOf(oids[..i]) && (0 < i ==> !sweeping)
      && |hist| == i + 1 && hist[i] == Tallied() && InvalidatedAlong(oids, hist)
    }

    /** One pass of `invalidate`'s loop: `_invalidate` the `i`th oid, one more tally in `hist`. */
    method InvalidateNext(oids: seq<Oid>, i: nat, ghost classes0: map<Oid, PClass>, ghost hist: seq<Tally>) returns (ghost hist': seq<Tally>)
      requires i < |oids| && Invalidating(oids, i, classes0, hist)
      modifies this`sweeping, this`deactivateRan, this`totalEstimatedSize, this`nonGhostCount, this`classes
      modifies ring, ring.links, data.Values`flags, data.Values`dict
      ensures Invalidating(oids, i + 1, classes0, hist') && hist'[0] == hist[0] && data == old(data)
    {
      InvalidateTallied(oids[i]);
      ghost var after := Tallied();
      AlongMore(oids, hist, after);
      hist' := hist + [after];
      SetOfPrefix(oids, i);
      MapRemoveMore(classes0, SetOf(oids[..i]), oids[i]);
    }

    /**
     * `invalidate(oids)` (a single bytes oid is the one-element case):
     * `_invalidate` each in turn. Every class named is dropped, and every
     * object named whose `_p_invalidate` runs the base deactivation, with a
     * jar, ends a ghost; `InvalidateTally` says what else changed: only the
     * named objects that were not ghosts, each of which left the ring, and
     * the count, which fell by `dropped`.
     */
    method Invalidate(oids: seq<Oid>) returns (ghost dropped: nat, ghost start: Tally, ghost finish: Tally)
      requires Valid()
      modifies this`sweeping, this`deactivateRan, this`totalEstimatedSize, this`nonGhostCount, this`classes
      modifies ring, ring.links, data.Values`flags, data.Values`dict
      ensures start == old(Tallied()) && finish == Tallied()
      ensures Valid() && data == old(data) && sweeping == (old(sweeping) && |oids| == 0)
      ensures classes == old(classes) - SetOf(oids)
      ensures forall x | 0 <= x < |oids| && oids[x] in data && data[oids[x]].hook == BaseDeactivate && data[oids[x]].jar.Some? ::
        State(data[oids[x]].Snap()) == GHOST
      ensures InvalidateTally(oids, |oids|, start, finish, dropped)
    {
      ghost var data0, classes0 := data, classes;
      start, dropped := Tallied(), 0;
      TalliedKeys();
      ghost var hist := [start];
      var i := 0;
      assert oids[..0] == [];
      if |oids| == 0 {
        InvalidateTallyNone(oids, start);
        finish := start;
        return;
      }
      while i < |oids|
        invariant Invalidating(oids, i, classes0, hist) && hist[0] == start && data == data0
      {
        hist := InvalidateNext(oids, i, classes0, hist);
        i := i + 1;
      }
      assert oids[..i] == oids;
      dropped := InvalidateAlong(oids, hist);
      finish := hist[i];
      BaseGhosts(oids, start, dropped);
    }

    /** What `InvalidateTally` says of the named objects that run the base deactivation, said of the cache. */
    lemma BaseGhosts(oids: seq<Oid>, s: Tally, dropped: nat)
      requires InvalidateTally(oids, |oids|, s, Tallied(), dropped)
      ensures forall x | 0 <= x < |oids| && oids[x] in data && data[oids[x]].hook == BaseDeactivate && data[oids[x]].jar.Some? ::
        State(data[oids[x]].Snap()) == GHOST
    {
      assert oids[..|oids|] == oids;
      forall x | 0 <= x < |oids| && oids[x] in data && data[oids[x]].hook == BaseDeactivate && data[oids[x]].jar.Some?
        ensures State(data[oids[x]].Snap()) == GHOST
      {
        assert BaseWithJar(s, oids[x]);
      }
    }
  }
}
