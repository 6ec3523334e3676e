/**
 * The older pure-Python `Persistent` (persistent/persistence.py), a variant
 * of the current one kept as its own module.
 *
 * It keeps the same slots and the same two flag bits, and derives
 * `_p_state`, `_p_status`, `_p_changed`, `_p_serial` and the 24-bit size
 * exactly as the current version does (persistent/persistence.py:133-138,
 * 165-176, 181-193, 215-224, 423-426 are the same code as the current
 * file's), so those are `Persistence.State`, `Persistence.StatusOf`, ... .
 * So are the serial, size and sticky setters, `_del_oid`, `_p_register` and
 * `_p_set_changed_flag`.  What differs is modelled here:
 *
 * - `_p_jar` refuses any different jar once one is set, whatever the cache
 *   holds, and giving a jar-less object any jar (even None) sets its flags
 *   to 0;
 * - `_p_oid` must be bytes, and is fixed once the object has a jar and an oid;
 * - `_p_activate` keeps whatever flags `jar.setstate` left;
 * - `_p_invalidate` ghosts any object with a jar and tells no pickle cache;
 * - `_p_accessed` needs the jar to have a `_cache`;
 * - the attribute hooks treat only `_Persistent__` and `_p_` names as special.
 */
module LegacyPersistence {
  import opened Common
  import P = Persistence
  import LinkedRing

  /** An argument assigned to `_p_oid`: None, bytes, or anything else. */
  datatype OidArg = OidNone | OidBytes(b: Bytes) | OidOther

  /** Whether the argument is the oid the object already has (`value == self.__oid`). */
  predicate SameOid(value: OidArg, oid: Option<Oid>)
  {
    match value
    case OidNone => oid.None?
    case OidBytes(b) => oid == Some(b)
    case OidOther => false
  }

  /** The oid the argument stands for, once it passed the type check. */
  function OidOfArg(value: OidArg): Option<Oid>
    requires !value.OidOther?
  {
    if value.OidBytes? then Some(value.b) else None
  }

  // ---------------------------------------------------------------- setters

  /**
   * `_set_jar`: once a jar is set, any different value is refused; a
   * jar-less object takes the value, whatever it is, and its flags become 0.
   */
  function SetJarStep(o: P.Obj, value: Option<Jar>): (r: P.Step)
    ensures r.calls == []
    ensures r.outcome.Fail? <==> o.jar.Some? && o.jar != value
    ensures r.outcome.Fail? ==> r.obj == o && r.outcome.error == ValueError
    ensures o.jar.None? ==> r.obj == o.(jar := value, flags := Some(P.CLEAN))
    ensures o.jar.Some? && o.jar == value ==> r == P.NoOp(o)
  {
    if o.jar.Some? then
      if o.jar != value then P.Step(o, [], Fail(ValueError)) else P.NoOp(o)
    else P.NoOp(o.(jar := value, flags := Some(P.CLEAN)))
  }

  /**
   * Against the current version: an object with a jar is refused a new one
   * whenever the current version refuses it, and also when it is not cached;
   * an object without a jar gets its first jar from both.
   */
  lemma SetJarComparedWithCurrent(o: P.Obj, value: Option<Jar>, view: P.CacheView)
    ensures o.jar.Some? && P.SetJarStep(o, value, view).outcome.Fail? ==> SetJarStep(o, value).outcome.Fail?
    ensures o.jar.Some? && o.jar != value && !P.InCache(o, view) ==>
      P.SetJarStep(o, value, view).outcome.Pass? && SetJarStep(o, value).outcome.Fail?
    ensures o.jar.None? ==> P.SetJarStep(o, value, view).outcome.Pass? && SetJarStep(o, value).outcome.Pass?
    ensures o.jar.None? && value.Some? ==> P.SetJarStep(o, value, view) == SetJarStep(o, value)
  {
  }

  /**
   * `_del_jar`: with a jar and a non-empty oid, refused when the jar's cache
   * holds anything under the oid (and the jar must have a `_cache`);
   * otherwise jar and flags are cleared.
   */
  function DelJarStep(o: P.Obj, view: P.CacheView): (r: P.Step)
    ensures r.calls == []
    ensures r.outcome.Fail? <==> o.jar.Some? && o.oid.Some? && o.oid.value != [] && view != P.Cache(P.Absent)
    ensures r.outcome.Fail? ==> r.obj == o && r.outcome.error == (if view.NoCache? then AttributeError else ValueError)
    ensures r.outcome.Pass? && o.jar.Some? ==> r.obj == o.(jar := None, flags := None) && P.State(r.obj) == P.UPTODATE
    ensures o.jar.None? ==> r == P.NoOp(o)
  {
    if o.jar.None? then P.NoOp(o)
    else if o.oid.Some? && o.oid.value != [] && view.NoCache? then P.Step(o, [], Fail(AttributeError))
    else if o.oid.Some? && o.oid.value != [] && view != P.Cache(P.Absent) then P.Step(o, [], Fail(ValueError))
    else P.NoOp(o.(jar := None, flags := None))
  }

  /**
   * `_set_oid`: the same value is a no-op; anything but None or bytes is
   * refused; an object that has both a jar and an oid keeps its oid.
   */
  function SetOidStep(o: P.Obj, value: OidArg): (r: P.Step)
    ensures r.calls == []
    ensures r.outcome.Fail? <==> !SameOid(value, o.oid) && (value.OidOther? || (o.jar.Some? && o.oid.Some?))
    ensures r.outcome.Fail? ==> r.obj == o && r.outcome.error == ValueError
    ensures r.outcome.Pass? && !SameOid(value, o.oid) ==> r.obj == o.(oid := OidOfArg(value))
    ensures SameOid(value, o.oid) ==> r == P.NoOp(o)
  {
    if SameOid(value, o.oid) then P.NoOp(o)
    else if value.OidOther? then P.Step(o, [], Fail(ValueError))
    else if o.jar.Some? && o.oid.Some? then P.Step(o, [], Fail(ValueError))
    else P.NoOp(o.(oid := OidOfArg(value)))
  }

  /** Reading the oid back after a successful assignment gives what was assigned. */
  lemma SetOidThenGet(o: P.Obj, value: OidArg)
    requires SetOidStep(o, value).outcome.Pass?
    ensures !value.OidOther? && SetOidStep(o, value).obj.oid == OidOfArg(value)
  {
  }

  // ---------------------------------------------------------------- activation

  /**
   * `_p_activate`: only a ghost acts.  Its flags become 0; with a jar and an
   * oid `jar.setstate` runs with them at 0 and leaves them as it pleases; if
   * it raises, the ghost flags come back.
   */
  function ActivateStep(o: P.Obj, load: P.Load): (r: P.Step)
    ensures o.flags.Some? ==> r == P.NoOp(o)
    ensures o.flags.None? && (o.jar.None? || o.oid.None?) ==> r == P.NoOp(o.(flags := Some(P.CLEAN)))
    ensures o.flags.None? && o.jar.Some? && o.oid.Some? ==>
      r.calls == [P.SetState(Some(P.CLEAN))] &&
      (load.LoadFails? ==> r.obj == o && r.outcome == Fail(CallbackError)) &&
      (load.Loads? ==> r.obj == o.(flags := load.flagsLeft, dict := load.state) && r.outcome == Pass)
    ensures P.Register !in r.calls
  {
    if o.flags.Some? then P.NoOp(o)
    else if o.jar.None? || o.oid.None? then P.NoOp(o.(flags := Some(P.CLEAN)))
    else
      var calls := [P.SetState(Some(P.CLEAN))];
      match load
      case LoadFails => P.Step(o, calls, Fail(CallbackError))
      case Loads(state, left) => P.Step(o.(flags := left, dict := state), calls, Pass)
  }

  /**
   * The two versions load the same state, but the current one ends with
   * flags 0 where the older one keeps the flags `setstate` left.
   */
  lemma ActivateKeepsLoadedFlags(o: P.Obj, state: map<string, int>, left: Option<P.Flags>)
    requires o.flags.None? && o.jar.Some? && o.oid.Some?
    ensures var older, current := ActivateStep(o, P.Loads(state, left)), P.ActivateStep(o, P.Loads(state, left));
      older.obj == current.obj.(flags := left) && current.obj.flags == Some(P.CLEAN)
  {
  }

  /** `_p_invalidate`: an object with a jar becomes a ghost with an empty dictionary; nothing is told. */
  function InvalidateStep(o: P.Obj): (r: P.Step)
    ensures r.calls == [] && r.outcome == Pass
    ensures o.jar.Some? ==> r.obj == o.(flags := None, dict := map[]) && P.StatusOf(r.obj) == P.Ghost
    ensures o.jar.None? ==> r.obj == o
  {
    if o.jar.Some? then P.NoOp(o.(flags := None, dict := map[])) else P.NoOp(o)
  }

  /** `_p_deactivate`: only flags of exactly 0 invalidate. */
  function DeactivateStep(o: P.Obj): (r: P.Step)
    ensures r.calls == [] && r.outcome == Pass
    ensures o.flags == Some(P.CLEAN) && o.jar.Some? ==> P.State(r.obj) == P.GHOST && r.obj == o.(flags := None, dict := map[])
    ensures o.flags != Some(P.CLEAN) || o.jar.None? ==> r.obj == o
  {
    if o.flags == Some(P.CLEAN) then InvalidateStep(o) else P.NoOp(o)
  }

  /**
   * Changed and sticky objects survive `_p_deactivate` but not
   * `_p_invalidate`; the current version's invalidation ghosts the same
   * objects, clearing the same slots.
   */
  lemma InvalidateGhostsEvenChanged(o: P.Obj, view: P.CacheView)
    requires o.jar.Some? && o.flags.Some? && (o.flags.value.changed || o.flags.value.sticky)
    ensures DeactivateStep(o).obj == o
    ensures P.State(InvalidateStep(o).obj) == P.GHOST
    ensures InvalidateStep(o).obj == P.InvalidateStep(o, view).obj
  {
  }

  /** Deactivating twice is deactivating once. */
  lemma DeactivateIdempotent(o: P.Obj)
    ensures DeactivateStep(DeactivateStep(o).obj).obj == DeactivateStep(o).obj
  {
  }

  // ---------------------------------------------------------------- _p_changed

  /**
   * `_set_changed`: on a ghost only a true value acts (activate, then mark
   * changed); on a non-ghost None deactivates and anything else sets or
   * clears the CHANGED bit, registering first on the clean-to-dirty step.
   */
  function SetChangedStep(o: P.Obj, value: Truth, load: P.Load, registerOk: bool): (r: P.Step)
    ensures o.flags.None? && value != Truthy ==> r == P.NoOp(o)
    ensures o.flags.Some? && value == PyNone ==> r == DeactivateStep(o)
    ensures o.flags.Some? && value != PyNone ==> r == P.SetChangedFlagStep(o, value == Truthy, registerOk)
    ensures o.flags.None? && value == Truthy && o.jar.Some? && o.oid.Some? && load.Loads? && load.flagsLeft == Some(P.CLEAN) ==>
      (registerOk ==> r.outcome == Pass && P.State(r.obj) == P.CHANGED && r.calls == [P.SetState(Some(P.CLEAN)), P.Register]) &&
      (!registerOk ==> r.outcome.Fail? && r.obj.flags == Some(P.CLEAN))
  {
    if o.flags.None? then
      if value == Truthy then
        var a := ActivateStep(o, load);
        if a.outcome.Fail? then a
        else P.Chain(a, P.SetChangedFlagStep(a.obj, true, registerOk))
      else P.NoOp(o)
    else if value == PyNone then DeactivateStep(o)
    else P.SetChangedFlagStep(o, value == Truthy, registerOk)
  }

  /**
   * `register` runs before the bit is set and only on the transition: a
   * failing register leaves an up-to-date object up to date, and an object
   * already changed is not registered again.
   */
  lemma RegisterBeforeChanged(o: P.Obj, registerOk: bool)
    requires o.flags.Some? && o.jar.Some? && o.oid.Some?
    ensures var r := SetChangedStep(o, Truthy, P.LoadFails, registerOk);
      (o.flags.value.changed ==> r == P.NoOp(o)) &&
      (!o.flags.value.changed && !registerOk ==> r.obj == o && r.calls == [P.Register] && r.outcome.Fail?) &&
      (!o.flags.value.changed && registerOk ==> r.obj.flags == Some(o.flags.value.(changed := true)))
  {
  }

  // ---------------------------------------------------------------- attribute access

  /** A name the attribute hooks leave alone: a slot or a `_p_` property. */
  predicate IsSpecial(name: string)
  {
    StartsWith(name, "_Persistent__") || StartsWith(name, "_p_")
  }

  /** A name `__getattribute__` leaves alone: special, or one of the standard names a ghost may read. */
  predicate IsSpecialRead(name: string)
  {
    IsSpecial(name) || name in P.SPECIAL_NAMES
  }

  /**
   * `_p_accessed`: a non-ghost with a jar and an oid calls `mru` on the
   * jar's `_cache` (its KeyError is swallowed); a jar without one raises
   * AttributeError.
   */
  function AccessedStep(o: P.Obj, view: P.CacheView): (r: P.Step)
    ensures r.obj == o
    ensures r.outcome.Fail? <==> o.jar.Some? && o.oid.Some? && P.State(o) != P.GHOST && view.NoCache?
    ensures r.outcome.Fail? ==> r.outcome.error == AttributeError && r.calls == []
    ensures r.calls != [] <==> o.jar.Some? && o.oid.Some? && P.State(o) != P.GHOST && view.Cache?
    ensures r.calls != [] ==> r.calls == [P.Mru(o.oid.value)]
  {
    if o.jar.Some? && o.oid.Some? && P.State(o) >= 0 then
      if view.NoCache? then P.Step(o, [], Fail(AttributeError)) else P.Step(o, [P.Mru(o.oid.value)], Pass)
    else P.NoOp(o)
  }

  /** `__getattribute__`: an ordinary name activates a ghost and marks the object accessed. */
  function GetAttributeStep(o: P.Obj, name: string, load: P.Load, view: P.CacheView): (r: P.Step)
    ensures IsSpecialRead(name) ==> r == P.NoOp(o)
    ensures P.Register !in r.calls
    ensures o.flags.Some? && !IsSpecialRead(name) ==> r == AccessedStep(o, view)
  {
    if IsSpecialRead(name) then P.NoOp(o)
    else
      var a := ActivateStep(o, load);
      if a.outcome.Fail? then a else P.Chain(a, AccessedStep(a.obj, view))
  }

  /**
   * What `__setattr__` does after the store, for an ordinary non-`_v_` name
   * of an object with jar and oid: the CHANGED bit is set, then `register`
   * called, so a failing register leaves the bit set.  Ghost flags make
   * the bit operation raise TypeError.
   */
  function MarkWrittenStep(o: P.Obj, name: string, registerOk: bool): (r: P.Step)
    ensures r.obj.jar == o.jar && r.obj.oid == o.oid && r.obj.dict == o.dict
    ensures P.Register in r.calls <==>
      o.jar.Some? && o.oid.Some? && !IsSpecial(name) && !StartsWith(name, "_v_") && o.flags.Some? && !o.flags.value.changed
    ensures P.Register in r.calls ==> r.obj.flags == Some(o.flags.value.(changed := true))
    ensures P.Register !in r.calls ==> r.obj == o
  {
    if o.jar.Some? && o.oid.Some? && !IsSpecial(name) && !StartsWith(name, "_v_") then
      if o.flags.None? then P.Step(o, [], Fail(TypeError))
      else if o.flags.value.changed then P.NoOp(o)
      else P.Step(o.(flags := Some(o.flags.value.(changed := true))), [P.Register],
                  if registerOk then Pass else Fail(CallbackError))
    else P.NoOp(o)
  }

  /**
   * `__setattr__` for a name kept in the instance dictionary: an ordinary
   * name activates a ghost and, unless `_v_`, marks it accessed; the value
   * is stored; then the object is marked as written.  (A `_p_` name is
   * stored through its property.)
   */
  function SetAttributeStep(o: P.Obj, name: string, value: int, load: P.Load, registerOk: bool, view: P.CacheView): (r: P.Step)
    ensures IsSpecial(name) ==> r == P.NoOp(o.(dict := o.dict[name := value]))
    ensures r.outcome.Pass? ==> name in r.obj.dict && r.obj.dict[name] == value
    ensures P.Register in r.calls ==> o.jar.Some? && o.oid.Some? && !StartsWith(name, "_v_") && P.State(r.obj) != P.UPTODATE
    ensures StartsWith(name, "_v_") ==> P.Register !in r.calls
  {
    assert StartsWith(name, "_v_") ==> name[1] == 'v' && !IsSpecial(name);
    var a :=
      if IsSpecial(name) then P.NoOp(o)
      else
        var act := ActivateStep(o, load);
        if act.outcome.Fail? || StartsWith(name, "_v_") then act
        else P.Chain(act, AccessedStep(act.obj, view));
    if a.outcome.Fail? then a
    else
      var stored := a.obj.(dict := a.obj.dict[name := value]);
      P.Chain(a, MarkWrittenStep(stored, name, registerOk))
  }

  /**
   * What `__delattr__` does for an ordinary name once the object is active:
   * mark it accessed, set CHANGED (even without a jar), and register when it
   * has both jar and oid.
   */
  function MarkDeletedStep(o: P.Obj, registerOk: bool, view: P.CacheView): (r: P.Step)
    ensures r.obj.jar == o.jar && r.obj.oid == o.oid && r.obj.dict == o.dict
    ensures r.outcome.Pass? ==> r.obj.flags.Some? && r.obj.flags.value.changed
    ensures P.Register in r.calls <==>
      AccessedStep(o, view).outcome.Pass? && o.flags.Some? && !o.flags.value.changed && o.jar.Some? && o.oid.Some?
  {
    var a := AccessedStep(o, view);
    if a.outcome.Fail? then a
    else if o.flags.None? then P.Step(o, a.calls, Fail(TypeError))
    else if o.flags.value.changed then a
    else
      var marked := o.(flags := Some(o.flags.value.(changed := true)));
      var reg := P.RegisterCalls(marked);
      P.Step(marked, a.calls + reg, if reg != [] && !registerOk then Fail(CallbackError) else Pass)
  }

  /** `object.__delattr__` on the instance dictionary: AttributeError for a missing name. */
  function DelEntryStep(o: P.Obj, name: string): (r: P.Step)
    ensures r.calls == [] && (r.outcome.Pass? <==> name in o.dict)
    ensures r.outcome.Pass? ==> r.obj == o.(dict := o.dict - {name})
    ensures r.outcome.Fail? ==> r.obj == o && r.outcome.error == AttributeError
  {
    if name in o.dict then P.NoOp(o.(dict := o.dict - {name})) else P.Step(o, [], Fail(AttributeError))
  }

  /**
   * `__delattr__`: an ordinary name activates the object and marks it
   * accessed and changed before the deletion.
   */
  function DelAttributeStep(o: P.Obj, name: string, load: P.Load, registerOk: bool, view: P.CacheView): (r: P.Step)
    ensures IsSpecial(name) ==> r == DelEntryStep(o, name)
    ensures r.outcome.Pass? ==> name !in r.obj.dict && name in o.dict + ActivateStep(o, load).obj.dict
    ensures P.Register in r.calls ==> o.jar.Some? && o.oid.Some?
    ensures r.outcome.Pass? && !IsSpecial(name) ==> r.obj.flags.Some? && r.obj.flags.value.changed
  {
    if IsSpecial(name) then DelEntryStep(o, name)
    else
      var a := ActivateStep(o, load);
      if a.outcome.Fail? then a
      else
        var b := P.Chain(a, MarkDeletedStep(a.obj, registerOk, view));
        if b.outcome.Fail? then b else P.Chain(b, DelEntryStep(b.obj, name))
  }

  // ---------------------------------------------------------------- the class

  class Persistent {
    var jar: Option<Jar>
    var oid: Option<Oid>
    var serial: Option<Bytes>
    var flags: Option<P.Flags>
    var size: nat
    var dict: map<string, int>
    /** `_Persistent__ring`: the node a CFFI ring last gave the object. */
    var ring: Option<LinkedRing.RingNode>
    /** Whether the object's class is one of a pickle cache's `_SWEEPABLE_TYPES`. */
    const sweepable: bool

    function Snap(): P.Obj
      reads this
    {
      P.Obj(jar, oid, serial, flags, size, dict)
    }

    /** `__new__`: every slot None, size 0. */
    constructor (sweepable: bool)
      ensures Snap() == P.Obj(None, None, None, None, 0, map[]) && ring.None? && this.sweepable == sweepable
      ensures P.StatusOf(Snap()) == P.Unsaved
    {
      jar, oid, serial, flags, size, dict, ring := None, None, None, None, 0, map[], None;
      this.sweepable := sweepable;
    }

    method SetJar(value: Option<Jar>) returns (outcome: Outcome)
      modifies this`jar, this`flags
      ensures P.Step(Snap(), [], outcome) == SetJarStep(old(Snap()), value)
    {
      if jar.Some? {
        if jar != value {
          return Fail(ValueError);
        }
      } else {
        jar := value;
        flags := Some(P.CLEAN);
      }
      return Pass;
    }

    method DelJar(view: P.CacheView) returns (outcome: Outcome)
      modifies this`jar, this`flags
      ensures P.Step(Snap(), [], outcome) == DelJarStep(old(Snap()), view)
    {
      if jar.Some? {
        if oid.Some? && oid.value != [] {
          match view
          case NoCache => return Fail(AttributeError);
          case Cache(Absent) =>
          case Cache(_) => return Fail(ValueError);
        }
        jar := None;
        flags := None;
      }
      return Pass;
    }

    method SetOid(value: OidArg) returns (outcome: Outcome)
      modifies this`oid
      ensures P.Step(Snap(), [], outcome) == SetOidStep(old(Snap()), value)
    {
      if SameOid(value, oid) {
        return Pass;
      }
      if value.OidOther? {
        return Fail(ValueError);
      }
      if jar.Some? && oid.Some? {
        return Fail(ValueError);
      }
      oid := OidOfArg(value);
      return Pass;
    }

    method Activate(load: P.Load) returns (calls: seq<P.Call>, outcome: Outcome)
      modifies this`flags, this`dict
      ensures P.Step(Snap(), calls, outcome) == ActivateStep(old(Snap()), load)
    {
      calls, outcome := [], Pass;
      var before := flags;
      // `self._p_state < 0` adds nothing: only a ghost has negative state
      if flags.None? {
        flags := Some(P.CLEAN);
        if jar.Some? && oid.Some? {
          calls := [P.SetState(flags)];
          match load
          case LoadFails =>
            flags := before;
            outcome := Fail(CallbackError);
          case Loads(state, left) =>
            dict := state;
            flags := left;
        }
      }
    }

    /** `_p_invalidate`, which is also `_del_changed`. */
    method Invalidate()
      modifies this`flags, this`dict
      ensures Snap() == InvalidateStep(old(Snap())).obj
    {
      if jar.Some? {
        if flags.Some? {
          flags := None;
        }
        dict := map[];
      }
    }

    method Deactivate()
      modifies this`flags, this`dict
      ensures Snap() == DeactivateStep(old(Snap())).obj
    {
      if flags.Some? && flags.value == P.CLEAN {
        Invalidate();
      }
    }

    /** `_p_set_changed_flag`: register (on the transition) before the bit is set. */
    method MarkChanged(value: bool, registerOk: bool) returns (calls: seq<P.Call>, outcome: Outcome)
      modifies this`flags
      ensures P.Step(Snap(), calls, outcome) == P.SetChangedFlagStep(old(Snap()), value, registerOk)
    {
      calls, outcome := [], Pass;
      if flags.None? {
        return [], Fail(TypeError);
      }
      if value {
        var before := flags.value;
        var after := before.(changed := true);
        if before != after {
          // `_p_register`
          if jar.Some? && oid.Some? {
            calls := [P.Register];
            if !registerOk {
              return calls, Fail(CallbackError);
            }
          }
        }
        flags := Some(after);
      } else {
        flags := Some(flags.value.(changed := false));
      }
    }

    method SetChanged(value: Truth, load: P.Load, registerOk: bool) returns (calls: seq<P.Call>, outcome: Outcome)
      modifies this`flags, this`dict
      ensures P.Step(Snap(), calls, outcome) == SetChangedStep(old(Snap()), value, load, registerOk)
    {
      calls, outcome := [], Pass;
      if flags.None? {
        if value == Truthy {
          calls, outcome := Activate(load);
          if outcome.Fail? {
            return;
          }
          var more;
          more, outcome := MarkChanged(true, registerOk);
          calls := calls + more;
        }
      } else if value == PyNone {
        Deactivate();
      } else {
        calls, outcome := MarkChanged(value == Truthy, registerOk);
      }
    }

    method Accessed(view: P.CacheView) returns (calls: seq<P.Call>, outcome: Outcome)
      ensures P.Step(Snap(), calls, outcome) == AccessedStep(Snap(), view)
    {
      calls, outcome := [], Pass;
      if jar.Some? && oid.Some? && P.State(Snap()) >= 0 {
        if view.NoCache? {
          return [], Fail(AttributeError);
        }
        calls := [P.Mru(oid.value)];
      }
    }

    method GetAttribute(name: string, load: P.Load, view: P.CacheView) returns (calls: seq<P.Call>, outcome: Outcome)
      modifies this`flags, this`dict
      ensures P.Step(Snap(), calls, outcome) == GetAttributeStep(old(Snap()), name, load, view)
    {
      calls, outcome := [], Pass;
      if !IsSpecialRead(name) {
        if flags.None? {
          calls, outcome := Activate(load);
          if outcome.Fail? {
            return;
          }
        }
        var more;
        more, outcome := Accessed(view);
        calls := calls + more;
      }
    }

    method SetAttribute(name: string, value: int, load: P.Load, registerOk: bool, view: P.CacheView)
      returns (calls: seq<P.Call>, outcome: Outcome)
      modifies this`flags, this`dict
      ensures P.Step(Snap(), calls, outcome) == SetAttributeStep(old(Snap()), name, value, load, registerOk, view)
    {
      calls, outcome := [], Pass;
      var special := IsSpecial(name);
      var volatile := StartsWith(name, "_v_");
      if !special {
        if flags.None? {
          calls, outcome := Activate(load);
          if outcome.Fail? {
            return;
          }
        }
        if !volatile {
          var more;
          more, outcome := Accessed(view);
          calls := calls + more;
          if outcome.Fail? {
            return;
          }
        }
      }
      dict := dict[name := value];
      if jar.Some? && oid.Some? && !special && !volatile {
        if flags.None? {
          return calls, Fail(TypeError);
        }
        var before := flags.value;
        var after := before.(changed := true);
        if before != after {
          flags := Some(after);
          calls := calls + [P.Register];
          if !registerOk {
            outcome := Fail(CallbackError);
          }
        }
      }
    }

    method MarkDeleted(registerOk: bool, view: P.CacheView) returns (calls: seq<P.Call>, outcome: Outcome)
      modifies this`flags
      ensures P.Step(Snap(), calls, outcome) == MarkDeletedStep(old(Snap()), registerOk, view)
    {
      calls, outcome := Accessed(view);
      if outcome.Fail? {
        return;
      }
      if flags.None? {
        return calls, Fail(TypeError);
      }
      var before := flags.value;
      var after := before.(changed := true);
      if before != after {
        flags := Some(after);
        if jar.Some? && oid.Some? {
          calls := calls + [P.Register];
          if !registerOk {
            outcome := Fail(CallbackError);
          }
        }
      }
    }

    method DelAttribute(name: string, load: P.Load, registerOk: bool, view: P.CacheView)
      returns (calls: seq<P.Call>, outcome: Outcome)
      modifies this`flags, this`dict
      ensures P.Step(Snap(), calls, outcome) == DelAttributeStep(old(Snap()), name, load, registerOk, view)
    {
      calls, outcome := [], Pass;
      if !IsSpecial(name) {
        if flags.None? {
          calls, outcome := Activate(load);
          if outcome.Fail? {
            return;
          }
        }
        var more;
        more, outcome := MarkDeleted(registerOk, view);
        calls := calls + more;
        if outcome.Fail? {
          return;
        }
      }
      if name !in dict {
        return calls, Fail(AttributeError);
      }
      dict := dict - {name};
    }
  }
}
