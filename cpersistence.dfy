/**
 * The C `Persistent` base type (src/persistent/cPersistence.c): loading a
 * ghost (`unghostify`), making one (`ghostify`), the clean-to-dirty step
 * (`changed`), moving an object to the head of its cache's ring
 * (`accessed`), `_p_activate`, `_p_deactivate`, `_p_invalidate`, the
 * `_p_changed` property, the unghosting attribute hooks and the
 * `_p_oid`/`_p_jar`/`_p_serial`/`_p_estimated_size`/`_p_sticky` setters.
 *
 * Unlike the Python class, the C object keeps one exclusive `state`
 * (GHOST, UPTODATE, CHANGED or STICKY), and it keeps its cache's books
 * itself: loading a ghost links its ring node into the cache's ring and
 * raises the cache's non-ghost count and byte total, ghosting undoes that.
 * The cache head (the `CACHE_HEAD` of cPersistence.h: the ring's home node
 * and the two counters) is modelled here as `CacheHead`, over the generic
 * sentinel ring; the pickle cache that owns it is in cpicklecache.dfy.
 *
 * As for the Python class, every transition is a pure function from a
 * snapshot of the object (`CObj`) and of its cache head (`Head`) to a
 * `CStep`; the methods change the fields step by step and are proved to
 * perform exactly that transition.  The jar's `setstate` and `register`
 * are parameters (`Load`, `registerOk`) and recorded as `Call`s.
 */
module CPersistence {
  import opened Common
  import LinkedRing
  import P = Persistence

  /** `cPersistent_GHOST_STATE` .. `cPersistent_STICKY_STATE`: one state at a time. */
  datatype CState = Ghost | UpToDate | Changed | Sticky

  /** `_p_state`: the C enumeration values -1, 0, 1 and 2. */
  function StateCode(s: CState): (r: int)
    ensures r < 0 <==> s == Ghost
    ensures r in {P.GHOST, P.UPTODATE, P.CHANGED, P.STICKY}
  {
    match s
    case Ghost => P.GHOST
    case UpToDate => P.UPTODATE
    case Changed => P.CHANGED
    case Sticky => P.STICKY
  }

  /** How the object's type defines `_p_deactivate`, which the C code looks up by name. */
  datatype Hook = BaseDeactivate | SkipsBase | Raises

  /**
   * A node of a cache's ring: the cache's `ring_home`, the scan's marker
   * (`before_original_home`), the scan's per-step placeholder, or the
   * `ring` member of a persistent object (`OBJECT_FROM_RING` gives `obj`).
   */
  datatype CNode = Home | Marker | Placeholder | Of(obj: CPersistent)

  /** A call into the jar, with the state the object is in while it runs. */
  datatype Call = SetState(during: CState) | Register

  /** What `jar.setstate(self)` does: raise, or fill the instance dictionary. */
  datatype Load = LoadFails | Loads(state: map<string, int>)

  /** A setter's argument: deletion (the C `NULL` value) or a value. */
  datatype Arg<T> = Deleted | Given(value: T)

  /** The fields of an object and whether its `cache` field is set. */
  datatype CObj = CObj(jar: Option<Jar>, oid: Option<Oid>, serial: Bytes, state: CState,
                       size: nat, dict: map<string, int>, cached: bool)

  /** A cache head: `non_ghost_count`, `total_estimated_size` and the ring from least to most recently used. */
  datatype Head = Head(count: int, total: int, order: seq<CNode>)

  /** The effect of one operation on the object and on its cache head. */
  datatype CStep = CStep(obj: CObj, head: Head, calls: seq<Call>, outcome: Outcome)

  function NoOp(o: CObj, h: Head): CStep
  {
    CStep(o, h, [], Pass)
  }

  /** `a` followed by `b`. */
  function Then(a: CStep, b: CStep): CStep
  {
    CStep(b.obj, b.head, a.calls + b.calls, b.outcome)
  }

  /** `_estimated_size_in_bytes`: 64-byte units as bytes. */
  function SizeInBytes(units: int): int
  {
    units * 64
  }

  // ---------------------------------------------------------------- the cache head, as values

  /** `ring_add` of the node `me` with the counters raised for an object of `units` size units. */
  function Appended(h: Head, me: CNode, units: nat): Head
  {
    Head(h.count + 1, h.total + SizeInBytes(units), h.order + [me])
  }

  /** `ring_del` of the node `me` with the counters lowered. */
  function Removed(h: Head, me: CNode, units: nat): Head
    requires me in h.order
  {
    Head(h.count - 1, h.total - SizeInBytes(units), RemoveAt(h.order, IndexOf(h.order, me)))
  }

  /** `ring_move_to_head` of the node `me`. */
  function Moved(h: Head, me: CNode): Head
    requires me in h.order
  {
    h.(order := RemoveAt(h.order, IndexOf(h.order, me)) + [me])
  }

  /**
   * What the C code takes for granted of an object whose `cache` field is
   * set: it has a jar, and its node is in the ring exactly when it is not a
   * ghost.
   */
  predicate Coherent(o: CObj, h: Head, me: CNode)
  {
    o.cached ==> o.jar.Some? && (me in h.order <==> o.state != Ghost)
  }

  /** A cache head whose ring has no repeats and holds `non_ghost_count` nodes. */
  predicate Counted(h: Head)
  {
    Distinct(h.order) && h.count == |h.order|
  }

  /** Removing a node from a ring without repeats leaves a ring without repeats and without that node. */
  lemma RemovedCounted(h: Head, me: CNode, units: nat)
    requires Counted(h) && me in h.order
    ensures Counted(Removed(h, me, units)) && me !in Removed(h, me, units).order
    ensures forall n :: n in Removed(h, me, units).order <==> n in h.order && n != me
  {
    var k := IndexOf(h.order, me);
    var r := RemoveAt(h.order, k);
    assert Removed(h, me, units).order == r;
    DistinctRemoved(h.order, k);
    forall i, j | 0 <= i < j < |r|
      ensures r[i] != r[j]
    {
      assert r[i] == h.order[if i < k then i else i + 1] && r[j] == h.order[if j < k then j else j + 1];
    }
    forall n
      ensures n in r <==> n in h.order && n != me
    {
      if n != me {
        RemovedMembers(h.order, k, n);
      }
    }
  }

  /** Appending a node that is not in the ring keeps it without repeats and counted. */
  lemma AppendedCounted(h: Head, me: CNode, units: nat)
    requires Counted(h) && me !in h.order
    ensures Counted(Appended(h, me, units))
  {
    var r := h.order + [me];
    forall i, j | 0 <= i < j < |r|
      ensures r[i] != r[j]
    {
      assert r[i] == h.order[i];
      if j < |h.order| {
        assert r[j] == h.order[j];
      }
    }
  }

  /** Removing the node just appended gives back the ring it was appended to. */
  lemma RemoveAppended(h: Head, me: CNode, units: nat)
    requires me !in h.order
    ensures me in Appended(h, me, units).order && Removed(Appended(h, me, units), me, units) == h
  {
    var o := h.order + [me];
    assert o[..|h.order|] == h.order;
    IndexOfFirst(o, me, |h.order|);
    assert RemoveAt(o, |h.order|) == h.order;
  }

  // ---------------------------------------------------------------- state, status and the getters

  datatype Status = Unsaved | GhostStatus | StickyStatus | SavedStatus | ChangedStatus

  /** `_p_status`: "unsaved" without a jar, else named after the state. */
  function StatusOf(o: CObj): Status
  {
    if o.jar.None? then Unsaved
    else match o.state
      case Ghost => GhostStatus
      case Sticky => StickyStatus
      case UpToDate => SavedStatus
      case Changed => ChangedStatus
  }

  /** `_p_changed` as read: None for a ghost, else whether the state is CHANGED. */
  function GetChanged(o: CObj): Option<bool>
  {
    if o.state == Ghost then None else Some(o.state == Changed)
  }

  /** `_p_estimated_size` as read: the stored units times 64. */
  function GetEstimatedSize(o: CObj): int
  {
    SizeInBytes(o.size)
  }

  /**
   * The Python class's two flag bits, read as the C state: no flags is a
   * ghost, the STICKY bit wins over the CHANGED bit.
   */
  function StateOfFlags(flags: Option<P.Flags>): CState
  {
    if flags.None? then Ghost
    else if flags.value.sticky then Sticky
    else if flags.value.changed then Changed
    else UpToDate
  }

  /**
   * An object with a jar reports the same `_p_status` and `_p_state` in
   * both implementations, once its flag bits are read as one C state.
   */
  lemma StatusAgreesWithPython(po: P.Obj, o: CObj)
    requires po.jar.Some? && o.jar == po.jar && o.state == StateOfFlags(po.flags)
    ensures StateCode(o.state) == P.State(po)
    ensures P.StatusOf(po) == match StatusOf(o)
      case Unsaved => P.Unsaved
      case GhostStatus => P.Ghost
      case StickyStatus => P.Sticky
      case SavedStatus => P.Saved
      case ChangedStatus => P.Changed
  {
  }

  // ---------------------------------------------------------------- loading and ghosting, as functions

  /**
   * `ghostify`: nothing for a ghost; without a cache only the state; an
   * object that claims a cache but whose node is not linked is left alone;
   * otherwise the node leaves the ring, the counters drop, and the object
   * becomes a ghost with an empty `__dict__`.
   */
  function GhostifyStep(o: CObj, h: Head, me: CNode): (r: CStep)
    ensures r.calls == [] && r.outcome == Pass
    ensures r.obj.jar == o.jar && r.obj.oid == o.oid && r.obj.serial == o.serial && r.obj.size == o.size && r.obj.cached == o.cached
  {
    if o.state == Ghost then NoOp(o, h)
    else if !o.cached then NoOp(o.(state := Ghost), h)
    else if me !in h.order then NoOp(o, h)
    else NoOp(o.(state := Ghost, dict := map[]), Removed(h, me, o.size))
  }

  /**
   * `unghostify`: only a ghost with a jar acts.  Its node is linked and the
   * counters raised first; the state is CHANGED while `jar.setstate` runs
   * and UPTODATE after it; if setstate raises, `ghostify` runs and the
   * call fails.
   */
  function UnghostifyStep(o: CObj, h: Head, me: CNode, load: Load): (r: CStep)
    ensures r.obj.jar == o.jar && r.obj.oid == o.oid && r.obj.serial == o.serial && r.obj.size == o.size && r.obj.cached == o.cached
  {
    if o.state != Ghost || o.jar.None? then NoOp(o, h)
    else
      var linked := if o.cached then Appended(h, me, o.size) else h;
      var during := o.(state := Changed);
      match load
      case LoadFails =>
        var g := GhostifyStep(during, linked, me);
        CStep(g.obj, g.head, [SetState(Changed)], Fail(CallbackError))
      case Loads(d) => CStep(during.(state := UpToDate, dict := d), linked, [SetState(Changed)], Pass)
  }

  /** `accessed`: a cached non-ghost whose node is linked moves to the most recently used end. */
  function AccessedStep(o: CObj, h: Head, me: CNode): (r: CStep)
    ensures r.obj == o && r.calls == [] && r.outcome == Pass
  {
    if o.cached && o.state != Ghost && me in h.order then NoOp(o, Moved(h, me)) else NoOp(o, h)
  }

  /**
   * `changed`: an up-to-date or sticky object with a jar calls
   * `jar.register` and becomes CHANGED only if that returns.
   */
  function ChangedStep(o: CObj, h: Head, registerOk: bool): (r: CStep)
    ensures r.head == h
  {
    if (o.state == UpToDate || o.state == Sticky) && o.jar.Some? then
      if registerOk then CStep(o.(state := Changed), h, [Register], Pass)
      else CStep(o, h, [Register], Fail(CallbackError))
    else NoOp(o, h)
  }

  /** `_p_deactivate` (the base method): only an up-to-date object with a jar; its `__dict__` is dropped and it is ghosted. */
  function DeactivateStep(o: CObj, h: Head, me: CNode): (r: CStep)
    ensures r.calls == [] && r.outcome == Pass
  {
    if o.state == UpToDate && o.jar.Some? then GhostifyStep(o.(dict := map[]), h, me) else NoOp(o, h)
  }

  /** `_p_deactivate()` looked up on the object: the base method, an override that skips it, or one that raises. */
  function DispatchDeactivateStep(o: CObj, h: Head, me: CNode, hook: Hook): (r: CStep)
    ensures r.calls == []
  {
    match hook
    case BaseDeactivate => DeactivateStep(o, h, me)
    case SkipsBase => NoOp(o, h)
    case Raises => CStep(o, h, [], Fail(CallbackError))
  }

  /**
   * Setting or deleting `_p_changed`: deletion forces a non-ghost to
   * UPTODATE and, like None, calls `_p_deactivate`, whose error is
   * swallowed; a true value loads a ghost and then marks it changed; a
   * false one makes a non-ghost UPTODATE.
   */
  function SetChangedStep(o: CObj, h: Head, me: CNode, hook: Hook, v: Arg<Truth>, load: Load, registerOk: bool): (r: CStep)
  {
    match v
    case Deleted =>
      var forced := if o.state != Ghost then o.(state := UpToDate) else o;
      var d := DispatchDeactivateStep(forced, h, me, hook);
      CStep(d.obj, d.head, d.calls, Pass)
    case Given(PyNone) =>
      var d := DispatchDeactivateStep(o, h, me, hook);
      CStep(d.obj, d.head, d.calls, Pass)
    case Given(Truthy) =>
      var u := if o.state == Ghost then UnghostifyStep(o, h, me, load) else NoOp(o, h);
      if u.outcome.Fail? then u else Then(u, ChangedStep(u.obj, u.head, registerOk))
    case Given(Falsy) =>
      if o.state != Ghost then NoOp(o.(state := UpToDate), h) else NoOp(o, h)
  }

  /** `_p_invalidate`: a non-ghost has `_p_changed` deleted and is then ghosted. */
  function InvalidateStep(o: CObj, h: Head, me: CNode, hook: Hook): (r: CStep)
  {
    if o.state == Ghost then NoOp(o, h)
    else
      var c := SetChangedStep(o, h, me, hook, Deleted, LoadFails, false);
      GhostifyStep(c.obj, c.head, me)
  }

  /** `Per_setstate` (the C API's setstate hook): load if needed, then become STICKY. */
  function SetStickyLoadedStep(o: CObj, h: Head, me: CNode, load: Load): (r: CStep)
  {
    var u := UnghostifyStep(o, h, me, load);
    if u.outcome.Fail? then u else CStep(u.obj.(state := Sticky), u.head, u.calls, Pass)
  }

  // ---------------------------------------------------------------- attribute hooks

  /**
   * `unghost_getattr`: false (no loading) for `_p_` names and for
   * `__class__`, `__del__`, `__dict__`, `__of__` and `__setstate__`,
   * decided character by character as the C code does.
   */
  function UnghostGetattr(s: string): bool
  {
    if |s| == 0 || s[0] != '_' then true
    else if |s| >= 2 && s[1] == 'p' then !(|s| >= 3 && s[2] == '_')
    else if |s| >= 2 && s[1] == '_' then
      (var rest := s[2..];
       if |rest| == 0 then true
       else if rest[0] == 'c' then rest != "class__"
       else if rest[0] == 'd' then !(rest[1..] == "el__" || rest[1..] == "ict__")
       else if rest[0] == 'o' then rest != "of__"
       else if rest[0] == 's' then rest != "setstate__"
       else true)
    else true
  }

  /** The names a ghost hands out without loading. */
  const UNGHOSTED_NAMES: set<string> := {"__class__", "__del__", "__dict__", "__of__", "__setstate__"}

  /** `unghost_getattr` skips loading exactly for `_p_` names and the five special names. */
  lemma UnghostGetattrNames(s: string)
    ensures !UnghostGetattr(s) <==> StartsWith(s, "_p_") || s in UNGHOSTED_NAMES
  {
    if |s| >= 3 {
      assert s[..3][0] == s[0] && s[..3][1] == s[1] && s[..3][2] == s[2];
    }
    if |s| == 0 || s[0] != '_' {
      assert s !in UNGHOSTED_NAMES;
    } else if |s| >= 2 && s[1] == 'p' {
      assert s !in UNGHOSTED_NAMES;
      if |s| >= 3 && s[2] == '_' {
        assert s[..3] == "_p_";
      }
    } else if |s| >= 2 && s[1] == '_' {
      var rest := s[2..];
      assert s == "__" + rest;
      assert s in UNGHOSTED_NAMES <==> rest in {"class__", "del__", "dict__", "of__", "setstate__"} by {
        assert "__class__" == "__" + "class__" && "__del__" == "__" + "del__" && "__dict__" == "__" + "dict__";
        assert "__of__" == "__" + "of__" && "__setstate__" == "__" + "setstate__";
      }
      if |rest| > 0 && rest[0] == 'd' {
        assert rest == "d" + rest[1..];
        assert "del__" == "d" + "el__" && "dict__" == "d" + "ict__";
      }
    } else {
      assert s !in UNGHOSTED_NAMES;
    }
  }

  /** Loading a ghost and then marking the object accessed, as both attribute hooks do. */
  function LoadAndTouchStep(o: CObj, h: Head, me: CNode, load: Load): (r: CStep)
  {
    var u := UnghostifyStep(o, h, me, load);
    if u.outcome.Fail? then u else Then(u, AccessedStep(u.obj, u.head, me))
  }

  /** `Per_getattro`: a name that needs the state loads a ghost and marks the object accessed. */
  function GetAttrStep(o: CObj, h: Head, me: CNode, name: string, load: Load): (r: CStep)
  {
    if !UnghostGetattr(name) then NoOp(o, h) else LoadAndTouchStep(o, h, me, load)
  }

  /** `PyObject_GenericSetAttr` on the instance dictionary: store, or delete (AttributeError when absent). */
  function StoreStep(o: CObj, h: Head, name: string, value: Arg<int>): (r: CStep)
  {
    match value
    case Given(v) => NoOp(o.(dict := o.dict[name := v]), h)
    case Deleted => if name in o.dict then NoOp(o.(dict := o.dict - {name}), h) else CStep(o, h, [], Fail(AttributeError))
  }

  /**
   * `Per_setattro`: any name but a `_p_` one loads a ghost and marks the
   * object accessed, and unless it is a `_v_` name or the object is
   * already CHANGED, calls `changed()` first; a failure aborts the store.
   */
  /** What `Per_setattro` does before storing a name that is not a `_p_` one. */
  function PrepareWriteStep(o: CObj, h: Head, me: CNode, name: string, load: Load, registerOk: bool): (r: CStep)
  {
    var a := LoadAndTouchStep(o, h, me, load);
    if a.outcome.Fail? || StartsWith(name, "_v_") || a.obj.state == Changed then a
    else Then(a, ChangedStep(a.obj, a.head, registerOk))
  }

  function SetAttrStep(o: CObj, h: Head, me: CNode, name: string, value: Arg<int>, load: Load, registerOk: bool): (r: CStep)
  {
    if StartsWith(name, "_p_") then StoreStep(o, h, name, value)
    else
      var c := PrepareWriteStep(o, h, me, name, load, registerOk);
      if c.outcome.Fail? then c
      else
        var st := StoreStep(c.obj, c.head, name, value);
        CStep(st.obj, st.head, c.calls, st.outcome)
  }

  // ---------------------------------------------------------------- setters, as functions

  /** `Per_set_oid`: a cached object refuses deletion and any unequal value. */
  function SetOidStep(o: CObj, v: Arg<Option<Oid>>): (r: Result<CObj>)
  {
    if o.cached && (v.Deleted? || o.oid != v.value) then Err(ValueError)
    else Ok(o.(oid := if v.Deleted? then None else v.value))
  }

  /** `Per_set_jar`: a cached object refuses deletion and any unequal value. */
  function SetJarStep(o: CObj, v: Arg<Option<Jar>>): (r: Result<CObj>)
  {
    if o.cached && (v.Deleted? || o.jar != v.value) then Err(ValueError)
    else Ok(o.(jar := if v.Deleted? then None else v.value))
  }

  /** `Per_set_serial`: exactly eight bytes; deletion zeroes the serial. */
  function SetSerialStep(o: CObj, v: Arg<BytesArg>): (r: Result<CObj>)
  {
    match v
    case Deleted => Ok(o.(serial := ZERO))
    case Given(BytesValue(b)) => if |b| == 8 then Ok(o.(serial := b)) else Err(ValueError)
    case Given(NotBytes) => Err(ValueError)
  }

  /** The largest C `long`, on a platform where `long` has 64 bits. */
  const LONG_MAX: int := 0x7FFF_FFFF_FFFF_FFFF

  /**
   * `Per_set_estimated_size`: an int that fits a C `long` and is not
   * negative, kept in 64-byte units; deletion stores 0. An int too large
   * for `INT_AS_LONG` reads as -1, so it too is refused with ValueError.
   */
  function SetEstimatedSizeStep(o: CObj, v: Arg<P.IntArg>): (r: Result<CObj>)
  {
    match v
    case Deleted => Ok(o.(size := 0))
    case Given(NotInt) => Err(TypeError)
    case Given(IntValue(n)) =>
      if n < 0 || n > LONG_MAX then Err(ValueError) else Ok(o.(size := P.EstimatedSizeIn24Bits(n) as nat))
  }

  /** `Per_set_sticky`: ValueError on a ghost; the state changes only when there is a jar. */
  function SetStickyStep(o: CObj, value: bool): (r: Result<CObj>)
  {
    if o.state == Ghost then Err(ValueError)
    else if o.jar.Some? then Ok(o.(state := if value then Sticky else UpToDate))
    else Ok(o)
  }

  // ---------------------------------------------------------------- properties of the transitions

  /** An object and its cache head as the C code expects them, with a ring that is counted. */
  predicate Sound(o: CObj, h: Head, me: CNode)
  {
    Coherent(o, h, me) && Counted(h)
  }

  /**
   * `ghostify` keeps the books: a non-ghost with a cache leaves the ring,
   * taking one from the count and its bytes from the total; every other
   * object keeps the head as it was; and it ends a ghost.
   */
  lemma GhostifyBooks(o: CObj, h: Head, me: CNode)
    requires Sound(o, h, me)
    ensures var r := GhostifyStep(o, h, me);
      && Sound(r.obj, r.head, me) && r.obj.state == Ghost
      && (o.cached ==> forall n :: n in r.head.order <==> n in h.order && n != me)
      && (o.state != Ghost && o.cached ==>
            r.head.count == h.count - 1 && r.head.total == h.total - SizeInBytes(o.size) && me !in r.head.order)
      && (o.state == Ghost || !o.cached ==> r.head == h)
  {
    if o.state != Ghost && o.cached {
      RemovedCounted(h, me, o.size);
    }
  }

  /**
   * A successful load links a cached ghost's node at the most recently used
   * end and counts it, runs `setstate` in the CHANGED state, and leaves the
   * object UPTODATE holding the loaded state.
   */
  lemma UnghostifyLoads(o: CObj, h: Head, me: CNode, d: map<string, int>)
    requires Sound(o, h, me) && o.state == Ghost && o.jar.Some?
    ensures var r := UnghostifyStep(o, h, me, Loads(d));
      && r.outcome == Pass && r.calls == [SetState(Changed)]
      && r.obj == o.(state := UpToDate, dict := d) && Sound(r.obj, r.head, me)
      && r.head == if o.cached then Appended(h, me, o.size) else h
  {
    if o.cached {
      AppendedCounted(h, me, o.size);
    }
  }

  /**
   * A failed load puts everything back: the node leaves the ring again and
   * the counters return to what they were; the object is a ghost again
   * (with its `__dict__` cleared when it has a cache).
   */
  lemma UnghostifyFailureRestores(o: CObj, h: Head, me: CNode)
    requires Sound(o, h, me) && o.state == Ghost && o.jar.Some?
    ensures var r := UnghostifyStep(o, h, me, LoadFails);
      && r.outcome == Fail(CallbackError) && r.calls == [SetState(Changed)]
      && r.head == h && r.obj == (if o.cached then o.(dict := map[]) else o)
  {
    if o.cached {
      RemoveAppended(h, me, o.size);
    }
  }

  /** Loading changes nothing for a non-ghost or an object without a jar, and never leaves a sound object unsound. */
  lemma UnghostifyKeepsSound(o: CObj, h: Head, me: CNode, load: Load)
    requires Sound(o, h, me)
    ensures var r := UnghostifyStep(o, h, me, load);
      && Sound(r.obj, r.head, me)
      && (o.state != Ghost || o.jar.None? ==> r == NoOp(o, h))
      && (r.outcome.Pass? && o.jar.Some? ==> r.obj.state != Ghost)
  {
    if o.state == Ghost && o.jar.Some? {
      if load.LoadFails? {
        UnghostifyFailureRestores(o, h, me);
      } else {
        UnghostifyLoads(o, h, me, load.state);
      }
    }
  }

  /**
   * `changed` calls `register` exactly from UPTODATE or STICKY with a jar,
   * and the object is CHANGED afterwards exactly when it was already or the
   * call returned; a failing call leaves the object as it was.
   */
  lemma ChangedRegisters(o: CObj, h: Head, registerOk: bool)
    ensures var r := ChangedStep(o, h, registerOk);
      && (Register in r.calls <==> (o.state == UpToDate || o.state == Sticky) && o.jar.Some?)
      && (r.obj.state == Changed <==> o.state == Changed || (Register in r.calls && registerOk))
      && (r.outcome.Fail? <==> Register in r.calls && !registerOk)
      && (r.outcome.Fail? ==> r.obj == o)
      && r.obj.dict == o.dict
  {
  }

  /** `_p_deactivate` ghosts exactly an up-to-date object with a jar, and changes nothing else. */
  lemma DeactivateGhostsUpToDate(o: CObj, h: Head, me: CNode)
    requires Sound(o, h, me)
    ensures var r := DeactivateStep(o, h, me);
      && Sound(r.obj, r.head, me)
      && (o.state == UpToDate && o.jar.Some? <==> r.obj.state != o.state)
      && (r.obj.state != o.state ==> r.obj.state == Ghost && r.obj.dict == map[])
      && (r.obj.state == o.state ==> r == NoOp(o, h))
  {
    if o.state == UpToDate && o.jar.Some? {
      GhostifyBooks(o.(dict := map[]), h, me);
    }
  }

  /** Whatever `_p_deactivate` does, a sound object stays sound. */
  lemma DispatchKeepsSound(o: CObj, h: Head, me: CNode, hook: Hook)
    requires Sound(o, h, me)
    ensures var r := DispatchDeactivateStep(o, h, me, hook);
      Sound(r.obj, r.head, me) && (r.obj.state == o.state || r.obj.state == Ghost)
  {
    DeactivateGhostsUpToDate(o, h, me);
  }

  /**
   * `_p_invalidate` always ends with a ghost, whatever the object's
   * `_p_deactivate` does (even one that raises), and keeps the books.
   */
  lemma InvalidateEndsGhost(o: CObj, h: Head, me: CNode, hook: Hook)
    requires Sound(o, h, me)
    ensures var r := InvalidateStep(o, h, me, hook);
      && r.obj.state == Ghost && r.outcome == Pass && Sound(r.obj, r.head, me)
      && r.obj.jar == o.jar && r.obj.oid == o.oid
      && (o.cached ==> forall n :: n in r.head.order <==> n in h.order && n != me)
  {
    if o.state != Ghost {
      var forced := o.(state := UpToDate);
      DispatchKeepsSound(forced, h, me, hook);
      var c := SetChangedStep(o, h, me, hook, Deleted, LoadFails, false);
      if hook == BaseDeactivate && o.jar.Some? {
        GhostifyBooks(forced.(dict := map[]), h, me);
      } else {
        assert c.head == h;
      }
      GhostifyBooks(c.obj, c.head, me);
    }
  }

  /** For a cached object, `_p_invalidate` takes its node off the ring when it is there and keeps the others in order. */
  lemma InvalidateUnlinks(o: CObj, h: Head, me: CNode, hook: Hook)
    requires Sound(o, h, me) && o.cached
    ensures var r := InvalidateStep(o, h, me, hook);
      r.head.order == if me in h.order then RemoveAt(h.order, IndexOf(h.order, me)) else h.order
  {
    if o.state != Ghost {
      var c := SetChangedStep(o, h, me, hook, Deleted, LoadFails, false);
      if hook == BaseDeactivate && o.jar.Some? {
        assert c.head == Removed(h, me, o.size) && c.obj.state == Ghost;
      } else {
        assert c.head == h && c.obj.state != Ghost;
      }
    }
  }

  /**
   * Deleting `_p_changed` or setting it to None never fails, calls nothing
   * in the jar and keeps the books; with the base `_p_deactivate`, deletion
   * ghosts any loaded object with a jar (changes are discarded), while None
   * leaves a CHANGED object as it is.
   */
  lemma SetChangedDeactivates(o: CObj, h: Head, me: CNode, hook: Hook, load: Load, registerOk: bool)
    requires Sound(o, h, me)
    ensures forall v | v == Deleted || v == Given(PyNone) ::
      var r := SetChangedStep(o, h, me, hook, v, load, registerOk);
      r.outcome == Pass && r.calls == [] && Sound(r.obj, r.head, me)
    ensures o.state != Ghost && o.jar.Some? ==>
      SetChangedStep(o, h, me, BaseDeactivate, Deleted, load, registerOk).obj.state == Ghost
    ensures o.state == Changed ==> SetChangedStep(o, h, me, BaseDeactivate, Given(PyNone), load, registerOk) == NoOp(o, h)
  {
    var forced := if o.state != Ghost then o.(state := UpToDate) else o;
    DispatchKeepsSound(forced, h, me, hook);
    DispatchKeepsSound(o, h, me, hook);
    DeactivateGhostsUpToDate(forced, h, me);
  }

  /**
   * A false `_p_changed` makes a loaded object (a sticky one too) UPTODATE
   * without calling the jar; a true one on a loaded object is `changed()`.
   */
  lemma SetChangedFlag(o: CObj, h: Head, me: CNode, hook: Hook, load: Load, registerOk: bool)
    requires Sound(o, h, me)
    ensures var r := SetChangedStep(o, h, me, hook, Given(Falsy), load, registerOk);
      r.calls == [] && r.head == h && r.obj.state == (if o.state == Ghost then Ghost else UpToDate) && Sound(r.obj, r.head, me)
    ensures o.state != Ghost ==> SetChangedStep(o, h, me, hook, Given(Truthy), load, registerOk) == ChangedStep(o, h, registerOk)
  {
  }

  /** Setting `_p_changed` to a true value on a ghost with a jar loads it, then registers it. */
  lemma SetChangedLoadsThenRegisters(o: CObj, h: Head, me: CNode, hook: Hook, d: map<string, int>)
    requires Sound(o, h, me) && o.state == Ghost && o.jar.Some?
    ensures var r := SetChangedStep(o, h, me, hook, Given(Truthy), Loads(d), true);
      r.calls == [SetState(Changed), Register] && r.outcome == Pass && r.obj.state == Changed && Sound(r.obj, r.head, me)
  {
    UnghostifyLoads(o, h, me, d);
  }

  /** Loading and touching keeps a sound object sound, and a successful one leaves an object with a jar loaded. */
  lemma LoadAndTouchKeepsSound(o: CObj, h: Head, me: CNode, load: Load)
    requires Sound(o, h, me)
    ensures var r := LoadAndTouchStep(o, h, me, load);
      && Sound(r.obj, r.head, me) && r.obj == UnghostifyStep(o, h, me, load).obj
      && (r.outcome.Pass? && o.jar.Some? ==> r.obj.state != Ghost)
      && Register !in r.calls
  {
    UnghostifyKeepsSound(o, h, me, load);
    var u := UnghostifyStep(o, h, me, load);
    if u.outcome.Pass? && u.obj.cached && u.obj.state != Ghost {
      MovedCounted(u.head, me);
    }
  }

  /**
   * Before a store: a `_v_` name never registers, and an ordinary name on
   * an object with a jar leaves it CHANGED unless loading or registering
   * failed; a failure leaves `__dict__` as loading left it.
   */
  lemma PrepareWriteMarks(o: CObj, h: Head, me: CNode, name: string, load: Load, registerOk: bool)
    requires Sound(o, h, me)
    ensures var r := PrepareWriteStep(o, h, me, name, load, registerOk);
      && Sound(r.obj, r.head, me)
      && (StartsWith(name, "_v_") ==> Register !in r.calls)
      && r.obj.dict == UnghostifyStep(o, h, me, load).obj.dict
      && (r.outcome.Pass? && !StartsWith(name, "_v_") && o.jar.Some? ==> r.obj.state == Changed)
  {
    LoadAndTouchKeepsSound(o, h, me, load);
  }

  /**
   * Writing an attribute: a `_v_` name never registers; a failed write
   * leaves the name as loading left it; a successful one stores the value,
   * and for an ordinary name on an object with a jar leaves it CHANGED.
   */
  lemma SetAttrMarks(o: CObj, h: Head, me: CNode, name: string, v: int, load: Load, registerOk: bool)
    requires Sound(o, h, me)
    ensures var r := SetAttrStep(o, h, me, name, Given(v), load, registerOk);
      && (StartsWith(name, "_v_") ==> Register !in r.calls)
      && (r.outcome.Fail? ==> r.obj.dict == UnghostifyStep(o, h, me, load).obj.dict)
      && (r.outcome.Pass? ==> name in r.obj.dict && r.obj.dict[name] == v)
      && (r.outcome.Pass? && !StartsWith(name, "_p_") && !StartsWith(name, "_v_") && o.jar.Some? ==> r.obj.state == Changed)
      && Sound(r.obj, r.head, me)
  {
    assert StartsWith(name, "_v_") ==> !StartsWith(name, "_p_") by {
      if StartsWith(name, "_v_") {
        assert name[..3][1] == 'v';
      }
    }
    PrepareWriteMarks(o, h, me, name, load, registerOk);
  }

  /** Moving a node of a ring without repeats keeps the ring without repeats and with the same nodes. */
  lemma MovedCounted(h: Head, me: CNode)
    requires Counted(h) && me in h.order
    ensures Counted(Moved(h, me)) && forall n :: n in Moved(h, me).order <==> n in h.order
  {
    RemovedCounted(h, me, 0);
    var r := RemoveAt(h.order, IndexOf(h.order, me));
    var m := r + [me];
    forall i, j | 0 <= i < j < |m|
      ensures m[i] != m[j]
    {
      assert m[i] == r[i];
      if j < |r| {
        assert m[j] == r[j];
      }
    }
    forall n | n in h.order
      ensures n in m
    {
      if n != me {
        var i :| 0 <= i < |h.order| && h.order[i] == n;
        var k := IndexOf(h.order, me);
        assert i != k;
        assert r[if i < k then i else i - 1] == n;
      }
    }
  }

  /**
   * The `_p_oid` and `_p_jar` setters: with a cache, deletion and an
   * unequal value are ValueErrors and an equal value changes nothing;
   * without one, the value is stored (deletion stores None).
   */
  lemma SettersGuardCachedIds(o: CObj, oid: Arg<Option<Oid>>, jar: Arg<Option<Jar>>)
    ensures SetOidStep(o, oid).Err? <==> o.cached && (oid.Deleted? || oid.value != o.oid)
    ensures SetJarStep(o, jar).Err? <==> o.cached && (jar.Deleted? || jar.value != o.jar)
    ensures SetOidStep(o, oid).Ok? ==> SetOidStep(o, oid).value == o.(oid := if oid.Deleted? then None else oid.value)
    ensures o.cached && SetJarStep(o, jar).Ok? ==> SetJarStep(o, jar).value == o
    ensures o.cached && SetOidStep(o, oid).Ok? ==> SetOidStep(o, oid).value == o
  {
  }

  /** `_p_serial` takes exactly eight bytes and reads back what was stored; `_p_sticky` needs a loaded object. */
  lemma SerialAndSticky(o: CObj, b: Bytes, value: bool)
    ensures SetSerialStep(o, Given(BytesValue(b))).Ok? <==> |b| == 8
    ensures |b| == 8 ==> SetSerialStep(o, Given(BytesValue(b))).value.serial == b
    ensures SetSerialStep(o, Deleted).value.serial == ZERO
    ensures SetStickyStep(o, value).Err? <==> o.state == Ghost
    ensures SetStickyStep(o, value).Ok? && o.jar.Some? ==>
      (SetStickyStep(o, value).value.state == Sticky <==> value)
    ensures SetStickyStep(o, value).Ok? && o.jar.None? ==> SetStickyStep(o, value).value == o
  {
  }

  /**
   * `_p_estimated_size`: non-int values, negative ones and ones beyond a C
   * `long` are refused; every other int is stored, and one up to the 24-bit
   * cap reads back rounded up to 64 bytes.
   */
  lemma EstimatedSizeStored(o: CObj, n: int)
    ensures SetEstimatedSizeStep(o, Given(P.NotInt)) == Err(TypeError)
    ensures SetEstimatedSizeStep(o, Given(P.IntValue(n))) == Err(ValueError) <==> n < 0 || n > LONG_MAX
    ensures 0 <= n <= LONG_MAX ==> SetEstimatedSizeStep(o, Given(P.IntValue(n))).Ok?
    ensures 0 <= n <= 1073741696 ==>
      SetEstimatedSizeStep(o, Given(P.IntValue(n))).Ok? &&
      n < GetEstimatedSize(SetEstimatedSizeStep(o, Given(P.IntValue(n))).value) <= n + 64
    ensures GetEstimatedSize(SetEstimatedSizeStep(o, Deleted).value) == 0
  {
    if 0 <= n <= 1073741696 {
      P.EstimatedSizeRoundsUp(n);
    }
  }

  /** `Per_setstate` leaves a loaded object STICKY; a failed load leaves it a ghost. */
  lemma SetStickyLoadedEnds(o: CObj, h: Head, me: CNode, load: Load)
    requires Sound(o, h, me)
    ensures var r := SetStickyLoadedStep(o, h, me, load);
      && (r.outcome.Pass? ==> r.obj.state == Sticky)
      && (r.outcome.Fail? ==> r.obj.state == Ghost && r.head == h)
      && (r.outcome.Pass? && o.jar.Some? ==> Sound(r.obj, r.head, me))
  {
    UnghostifyKeepsSound(o, h, me, load);
    if o.state == Ghost && o.jar.Some? && load.LoadFails? {
      UnghostifyFailureRestores(o, h, me);
    }
  }

  // ---------------------------------------------------------------- the cache head

  /** `CACHE_HEAD`: the ring's home node and the two counters. */
  class CacheHead {
    const ring: LinkedRing.Ring<CNode>
    var nonGhostCount: int
    var totalEstimatedSize: int

    ghost predicate Valid()
      reads this, ring
    {
      ring.Valid() && ring.home == Home
    }

    ghost function View(): Head
      reads this, ring
      requires Valid()
    {
      Head(nonGhostCount, totalEstimatedSize, ring.Order())
    }

    constructor ()
      ensures Valid() && View() == Head(0, 0, []) && fresh(ring)
    {
      ring := new LinkedRing.Ring(Home);
      nonGhostCount, totalEstimatedSize := 0, 0;
    }

    /** `r_next != NULL` for a node other than the home: it is in the ring's order. */
    lemma LinkedIsOrdered(n: CNode)
      requires Valid() && n != Home
      ensures ring.Linked(n) <==> n in ring.Order()
    {
      ring.LinkedIsListed(n);
    }

    /** The counters raised and the node added at the most recently used end (`unghostify`). */
    method Link(n: CNode, units: nat)
      requires Valid() && n != Home && n !in ring.Order()
      modifies this, ring
      ensures Valid() && View() == Appended(old(View()), n, units)
    {
      LinkedIsOrdered(n);
      nonGhostCount := nonGhostCount + 1;
      totalEstimatedSize := totalEstimatedSize + SizeInBytes(units);
      ring.Add(n);
    }

    /** The counters lowered and the node unlinked (`ghostify`). */
    method Unlink(n: CNode, units: nat)
      requires Valid() && n != Home && n in ring.Order()
      modifies this, ring
      ensures Valid() && View() == Removed(old(View()), n, units)
    {
      LinkedIsOrdered(n);
      nonGhostCount := nonGhostCount - 1;
      totalEstimatedSize := totalEstimatedSize - SizeInBytes(units);
      ring.Del(n);
    }

    /** `non_ghost_count++` and `ring_add`, leaving the byte total as it is (`cc_add_item`). */
    method Admit(n: CNode)
      requires Valid() && n != Home && n !in ring.Order()
      modifies this`nonGhostCount, ring
      ensures Valid() && View() == old(View()).(count := old(nonGhostCount) + 1, order := old(ring.Order()) + [n])
    {
      LinkedIsOrdered(n);
      nonGhostCount := nonGhostCount + 1;
      ring.Add(n);
    }

    /** `non_ghost_count--` and `ring_del`, leaving the byte total as it is (`cc_del_item`). */
    method Dismiss(n: CNode)
      requires Valid() && n != Home && n in ring.Order()
      modifies this`nonGhostCount, ring
      ensures Valid() && View() == old(View()).(count := old(nonGhostCount) - 1, order := RemoveAt(old(ring.Order()), IndexOf(old(ring.Order()), n)))
    {
      LinkedIsOrdered(n);
      nonGhostCount := nonGhostCount - 1;
      ring.Del(n);
    }

    /** `ring_move_to_head`. */
    method Touch(n: CNode)
      requires Valid() && n != Home && n in ring.Order()
      modifies ring
      ensures Valid() && View() == Moved(old(View()), n)
    {
      LinkedIsOrdered(n);
      ring.MoveToHead(n);
    }
  }

  // ---------------------------------------------------------------- the object

  class CPersistent {
    var jar: Option<Jar>
    var oid: Option<Oid>
    var serial: Bytes
    var state: CState
    /** `estimated_size`, in 64-byte units. */
    var size: nat
    var dict: map<string, int>
    var cache: Option<CacheHead>
    const hook: Hook

    function Snap(): CObj
      reads this
    {
      CObj(jar, oid, serial, state, size, dict, cache.Some?)
    }

    /** The cache head and its ring, when the `cache` field is set. */
    ghost function Heads(): set<object>
      reads this
    {
      if cache.Some? then {cache.value, cache.value.ring} else {}
    }

    /** The cache head as it stands (an empty one when there is none). */
    ghost function HeadNow(): Head
      reads this, Heads()
    {
      if cache.Some? && cache.value.Valid() then cache.value.View() else Head(0, 0, [])
    }

    /** A `cache` field leads to a valid head, and the object is coherent with it. */
    ghost predicate Ready()
      reads this, Heads()
    {
      (cache.Some? ==> cache.value.Valid()) && Coherent(Snap(), HeadNow(), Of(this))
    }

    /** `tp_alloc`: zeroed fields, so state UPTODATE, no jar, oid or cache. */
    constructor (hook: Hook)
      ensures Snap() == CObj(None, None, ZERO, UpToDate, 0, map[], false) && cache.None? && this.hook == hook
      ensures StatusOf(Snap()) == Unsaved && Ready()
    {
      jar, oid, serial, state, size, dict, cache := None, None, ZERO, UpToDate, 0, map[], None;
      this.hook := hook;
    }

    method Ghostify()
      requires cache.Some? ==> cache.value.Valid()
      modifies this, Heads()
      ensures cache == old(cache) && (cache.Some? ==> cache.value.Valid())
      ensures var r := GhostifyStep(old(Snap()), old(HeadNow()), Of(this)); Snap() == r.obj && HeadNow() == r.head
    {
      if state == Ghost {
        return;
      }
      if cache.None? {
        state := Ghost;
        return;
      }
      var head := cache.value;
      head.LinkedIsOrdered(Of(this));
      if !head.ring.Linked(Of(this)) {
        return;
      }
      head.Unlink(Of(this), size);
      state := Ghost;
      dict := map[];
    }

    method Unghostify(load: Load) returns (calls: seq<Call>, outcome: Outcome)
      requires Ready()
      modifies this, Heads()
      ensures cache == old(cache) && (cache.Some? ==> cache.value.Valid())
      ensures var r := UnghostifyStep(old(Snap()), old(HeadNow()), Of(this), load);
        Snap() == r.obj && HeadNow() == r.head && calls == r.calls && outcome == r.outcome
    {
      calls, outcome := [], Pass;
      if state == Ghost && jar.Some? {
        if cache.Some? {
          cache.value.Link(Of(this), size);
        }
        state := CState.Changed;
        calls := [SetState(state)];
        match load
        case LoadFails =>
          Ghostify();
          outcome := Fail(CallbackError);
        case Loads(d) =>
          dict := d;
          state := UpToDate;
      }
    }

    method Accessed()
      requires cache.Some? ==> cache.value.Valid()
      modifies Heads()
      ensures cache == old(cache) && (cache.Some? ==> cache.value.Valid())
      ensures var r := AccessedStep(old(Snap()), old(HeadNow()), Of(this)); Snap() == r.obj && HeadNow() == r.head
    {
      if cache.Some? && state != Ghost {
        var head := cache.value;
        head.LinkedIsOrdered(Of(this));
        if head.ring.Linked(Of(this)) {
          head.Touch(Of(this));
        }
      }
    }

    /** `changed`. */
    method MarkChanged(registerOk: bool) returns (calls: seq<Call>, outcome: Outcome)
      modifies this`state
      ensures var r := ChangedStep(old(Snap()), old(HeadNow()), registerOk); Snap() == r.obj && calls == r.calls && outcome == r.outcome
      ensures cache == old(cache) && HeadNow() == old(HeadNow())
    {
      calls, outcome := [], Pass;
      if (state == UpToDate || state == Sticky) && jar.Some? {
        calls := [Register];
        if !registerOk {
          outcome := Fail(CallbackError);
          return;
        }
        state := CState.Changed;
      }
    }

    /** `Per__p_deactivate`. */
    method Deactivate()
      requires cache.Some? ==> cache.value.Valid()
      modifies this, Heads()
      ensures cache == old(cache) && (cache.Some? ==> cache.value.Valid())
      ensures var r := DeactivateStep(old(Snap()), old(HeadNow()), Of(this)); Snap() == r.obj && HeadNow() == r.head
    {
      if state == UpToDate && jar.Some? {
        dict := map[];
        Ghostify();
      }
    }

    /** `_p_deactivate()` looked up on the object. */
    method DispatchDeactivate() returns (outcome: Outcome)
      requires cache.Some? ==> cache.value.Valid()
      modifies this, Heads()
      ensures cache == old(cache) && (cache.Some? ==> cache.value.Valid())
      ensures var r := DispatchDeactivateStep(old(Snap()), old(HeadNow()), Of(this), hook);
        Snap() == r.obj && HeadNow() == r.head && outcome == r.outcome
    {
      match hook
      case BaseDeactivate =>
        Deactivate();
        outcome := Pass;
      case SkipsBase =>
        outcome := Pass;
      case Raises =>
        outcome := Fail(CallbackError);
    }

    /** `_p_activate`. */
    method Activate(load: Load) returns (calls: seq<Call>, outcome: Outcome)
      requires Ready()
      modifies this, Heads()
      ensures cache == old(cache) && (cache.Some? ==> cache.value.Valid())
      ensures var r := UnghostifyStep(old(Snap()), old(HeadNow()), Of(this), load);
        Snap() == r.obj && HeadNow() == r.head && calls == r.calls && outcome == r.outcome
    {
      calls, outcome := Unghostify(load);
    }

    /** `Per_set_changed`. */
    method SetChanged(v: Arg<Truth>, load: Load, registerOk: bool) returns (calls: seq<Call>, outcome: Outcome)
      requires Ready()
      modifies this, Heads()
      ensures cache == old(cache) && (cache.Some? ==> cache.value.Valid())
      ensures var r := SetChangedStep(old(Snap()), old(HeadNow()), Of(this), hook, v, load, registerOk);
        Snap() == r.obj && HeadNow() == r.head && calls == r.calls && outcome == r.outcome
    {
      calls, outcome := [], Pass;
      match v
      case Deleted =>
        if state != Ghost {
          state := UpToDate;
        }
        var _ := DispatchDeactivate();
      case Given(PyNone) =>
        var _ := DispatchDeactivate();
      case Given(Truthy) =>
        if state == Ghost {
          calls, outcome := Unghostify(load);
          if outcome.Fail? {
            return;
          }
        }
        var more;
        more, outcome := MarkChanged(registerOk);
        calls := calls + more;
      case Given(Falsy) =>
        if state != Ghost {
          state := UpToDate;
        }
    }

    /** `Per__p_invalidate`. */
    method Invalidate()
      requires Ready()
      modifies this, Heads()
      ensures cache == old(cache) && (cache.Some? ==> cache.value.Valid())
      ensures var r := InvalidateStep(old(Snap()), old(HeadNow()), Of(this), hook); Snap() == r.obj && HeadNow() == r.head
    {
      if state != Ghost {
        var _, _ := SetChanged(Deleted, LoadFails, false);
        Ghostify();
      }
    }

    /** `Per_setstate`: load if needed, then become sticky. */
    method SetStickyLoaded(load: Load) returns (calls: seq<Call>, outcome: Outcome)
      requires Ready()
      modifies this, Heads()
      ensures cache == old(cache) && (cache.Some? ==> cache.value.Valid())
      ensures var r := SetStickyLoadedStep(old(Snap()), old(HeadNow()), Of(this), load);
        Snap() == r.obj && HeadNow() == r.head && calls == r.calls && outcome == r.outcome
    {
      calls, outcome := Unghostify(load);
      if outcome.Fail? {
        return;
      }
      state := Sticky;
    }

    /** Loading a ghost, then `accessed`. */
    method LoadAndTouch(load: Load) returns (calls: seq<Call>, outcome: Outcome)
      requires Ready()
      modifies this, Heads()
      ensures cache == old(cache) && (cache.Some? ==> cache.value.Valid())
      ensures var r := LoadAndTouchStep(old(Snap()), old(HeadNow()), Of(this), load);
        Snap() == r.obj && HeadNow() == r.head && calls == r.calls && outcome == r.outcome
    {
      calls, outcome := Unghostify(load);
      if outcome.Fail? {
        return;
      }
      Accessed();
    }

    /** `Per_getattro`, up to the generic lookup. */
    method GetAttr(name: string, load: Load) returns (calls: seq<Call>, outcome: Outcome)
      requires Ready()
      modifies this, Heads()
      ensures cache == old(cache) && (cache.Some? ==> cache.value.Valid())
      ensures var r := GetAttrStep(old(Snap()), old(HeadNow()), Of(this), name, load);
        Snap() == r.obj && HeadNow() == r.head && calls == r.calls && outcome == r.outcome
    {
      calls, outcome := [], Pass;
      if UnghostGetattr(name) {
        calls, outcome := LoadAndTouch(load);
      }
    }

    method Store(name: string, value: Arg<int>) returns (outcome: Outcome)
      modifies this`dict
      ensures var r := StoreStep(old(Snap()), old(HeadNow()), name, value); Snap() == r.obj && outcome == r.outcome
      ensures cache == old(cache) && HeadNow() == old(HeadNow())
    {
      match value
      case Given(v) =>
        dict := dict[name := v];
        outcome := Pass;
      case Deleted =>
        if name !in dict {
          return Fail(AttributeError);
        }
        dict := dict - {name};
        outcome := Pass;
    }

    /** `Per_setattro` before the store, for a name that is not a `_p_` one. */
    method PrepareWrite(name: string, load: Load, registerOk: bool) returns (calls: seq<Call>, outcome: Outcome)
      requires Ready()
      modifies this, Heads()
      ensures cache == old(cache) && (cache.Some? ==> cache.value.Valid())
      ensures var r := PrepareWriteStep(old(Snap()), old(HeadNow()), Of(this), name, load, registerOk);
        Snap() == r.obj && HeadNow() == r.head && calls == r.calls && outcome == r.outcome
    {
      calls, outcome := LoadAndTouch(load);
      if outcome.Pass? && !StartsWith(name, "_v_") && state != CState.Changed {
        var more;
        more, outcome := MarkChanged(registerOk);
        calls := calls + more;
      }
    }

    /** `Per_setattro`. */
    method SetAttr(name: string, value: Arg<int>, load: Load, registerOk: bool) returns (calls: seq<Call>, outcome: Outcome)
      requires Ready()
      modifies this, Heads()
      ensures cache == old(cache) && (cache.Some? ==> cache.value.Valid())
      ensures var r := SetAttrStep(old(Snap()), old(HeadNow()), Of(this), name, value, load, registerOk);
        Snap() == r.obj && HeadNow() == r.head && calls == r.calls && outcome == r.outcome
    {
      calls := [];
      if !StartsWith(name, "_p_") {
        calls, outcome := PrepareWrite(name, load, registerOk);
        if outcome.Fail? {
          return;
        }
      }
      outcome := Store(name, value);
    }

    method SetOid(v: Arg<Option<Oid>>) returns (outcome: Outcome)
      modifies this`oid
      ensures var r := SetOidStep(old(Snap()), v);
        (r.Ok? ==> outcome == Pass && Snap() == r.value) && (r.Err? ==> outcome == Fail(r.error) && Snap() == old(Snap()))
    {
      if cache.Some? && (v.Deleted? || oid != v.value) {
        return Fail(ValueError);
      }
      oid := if v.Deleted? then None else v.value;
      outcome := Pass;
    }

    method SetJar(v: Arg<Option<Jar>>) returns (outcome: Outcome)
      modifies this`jar
      ensures var r := SetJarStep(old(Snap()), v);
        (r.Ok? ==> outcome == Pass && Snap() == r.value) && (r.Err? ==> outcome == Fail(r.error) && Snap() == old(Snap()))
    {
      if cache.Some? && (v.Deleted? || jar != v.value) {
        return Fail(ValueError);
      }
      jar := if v.Deleted? then None else v.value;
      outcome := Pass;
    }

    method SetSerial(v: Arg<BytesArg>) returns (outcome: Outcome)
      modifies this`serial
      ensures var r := SetSerialStep(old(Snap()), v);
        (r.Ok? ==> outcome == Pass && Snap() == r.value) && (r.Err? ==> outcome == Fail(r.error) && Snap() == old(Snap()))
    {
      match v {
        case Deleted =>
          serial := ZERO;
        case Given(BytesValue(b)) =>
          if |b| != 8 {
            return Fail(ValueError);
          }
          serial := b;
        case Given(NotBytes) =>
          return Fail(ValueError);
      }
      outcome := Pass;
    }

    method SetEstimatedSize(v: Arg<P.IntArg>) returns (outcome: Outcome)
      modifies this`size
      ensures var r := SetEstimatedSizeStep(old(Snap()), v);
        (r.Ok? ==> outcome == Pass && Snap() == r.value) && (r.Err? ==> outcome == Fail(r.error) && Snap() == old(Snap()))
    {
      match v {
        case Deleted =>
          size := 0;
        case Given(NotInt) =>
          return Fail(TypeError);
        case Given(IntValue(n)) =>
          if n < 0 || n > LONG_MAX {
            return Fail(ValueError);
          }
          size := P.EstimatedSizeIn24Bits(n) as nat;
      }
      outcome := Pass;
    }

    method SetSticky(value: bool) returns (outcome: Outcome)
      modifies this`state
      ensures var r := SetStickyStep(old(Snap()), value);
        (r.Ok? ==> outcome == Pass && Snap() == r.value) && (r.Err? ==> outcome == Fail(r.error) && Snap() == old(Snap()))
    {
      if state == Ghost {
        return Fail(ValueError);
      }
      if jar.Some? {
        state := if value then Sticky else UpToDate;
      }
      outcome := Pass;
    }
  }
}
