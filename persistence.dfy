/**
 * The pure-Python `Persistent` base class (src/persistent/persistence.py):
 * the `_p_jar`/`_p_oid`/`_p_serial`/`_p_changed`/`_p_sticky`/
 * `_p_estimated_size` properties, the derived `_p_state` and `_p_status`,
 * activation, deactivation and invalidation, and the dirty-marking done by
 * attribute assignment.
 *
 * The object keeps its slots as fields.  `__flags` is `None` for a ghost and
 * otherwise holds two independent bits, CHANGED and STICKY.  Everything the
 * object asks of the outside world is recorded as a `Call`: `jar.setstate`
 * and `jar.register` (which may fail, as the `Load` and `registerOk`
 * parameters say) and the notifications to the jar's pickle cache.  What the
 * jar's `_cache` holds under the object's oid is a parameter (`CacheView`).
 *
 * Every transition is a pure function from a snapshot `Obj` to a `Step`
 * (new snapshot, calls made, outcome); the class's methods update the slots
 * step by step and are proved to perform exactly that transition.
 */
module Persistence {
  import opened Common
  import LinkedRing

  /** A non-ghost `__flags` value: the bits `_CHANGED` (1) and `_STICKY` (2). */
  datatype Flags = Flags(changed: bool, sticky: bool)

  /** `__flags == 0`: neither changed nor sticky. */
  const CLEAN: Flags := Flags(false, false)

  /** The `_p_state` values of the interfaces module. */
  const GHOST: int := -1
  const UPTODATE: int := 0
  const CHANGED: int := 1
  const STICKY: int := 2

  datatype Status = Unsaved | Ghost | Sticky | Changed | Saved

  /** What `jar._cache.get(oid)` returns: nothing, this very object, or another one. */
  datatype Entry = Absent | Self | Other

  /** The jar's `_cache`, as seen from the object: missing attribute, or a cache. */
  datatype CacheView = NoCache | Cache(entry: Entry)

  /** A call the object makes outside itself. */
  datatype Call =
    | SetState(flagsDuring: Option<Flags>)  // jar.setstate(self), with the flags it sees
    | Register                              // jar.register(self)
    | SizeUpdate(oid: Option<Oid>, n: int)  // jar._cache.update_object_size_estimation(oid, n)
    | DeactivateRan                         // jar._cache._persistent_deactivate_ran = True
    | Mru(used: Oid)                        // jar._cache.mru(oid)

  /** What `jar.setstate(self)` does: raise, or load the state and leave the flags as it pleases. */
  datatype Load = LoadFails | Loads(state: map<string, int>, flagsLeft: Option<Flags>)

  /** An argument that is an int or something else. */
  datatype IntArg = IntValue(v: int) | NotInt

  /** The slots of an object (`__ring` excepted) and its instance dictionary. */
  datatype Obj = Obj(jar: Option<Jar>, oid: Option<Oid>, serial: Option<Bytes>,
                     flags: Option<Flags>, size: nat, dict: map<string, int>)

  /** The effect of one operation. */
  datatype Step = Step(obj: Obj, calls: seq<Call>, outcome: Outcome)

  function NoOp(o: Obj): Step
  {
    Step(o, [], Pass)
  }

  // ---------------------------------------------------------------- sizes

  /**
   * `_estimated_size_in_24_bits`: a byte count as a number of 64-byte units,
   * rounded up by one, saturating at 2^24 - 1.  (Python's `//` floors; so does
   * Dafny's `/` for a positive divisor.)
   */
  function EstimatedSizeIn24Bits(v: int): (r: int)
    ensures r <= 0xFF_FFFF
    ensures v > 1073741696 ==> r == 0xFF_FFFF
    ensures 0 <= v <= 1073741696 ==> 1 <= r && (r - 1) * 64 <= v < r * 64
    ensures v == -1 ==> r == 0
  {
    if v > 1073741696 then 0xFF_FFFF else v / 64 + 1
  }

  lemma EstimatedSizeMonotone(v: int, w: int)
    requires v <= w
    ensures EstimatedSizeIn24Bits(v) <= EstimatedSizeIn24Bits(w)
  {
  }

  /** `_p_estimated_size`: the stored units times 64, e.g. 123 bytes read back as 128. */
  function EstimatedSize(o: Obj): nat
  {
    o.size * 64
  }

  lemma EstimatedSizeRoundsUp(v: int)
    requires 0 <= v <= 1073741696
    ensures v < EstimatedSizeIn24Bits(v) * 64 <= v + 64
  {
  }

  // ---------------------------------------------------------------- oid_repr

  function HexDigit(d: nat): char
    requires d < 16
  {
    if d < 10 then ('0' as int + d) as char else ('a' as int + d - 10) as char
  }

  function DigitValue(c: char): nat
  {
    if '0' <= c <= '9' then (c - '0') as nat
    else if 'a' <= c <= 'f' then (c - 'a') as nat + 10
    else 0
  }

  /** Lower-case hexadecimal without leading zeros (`'%x'`). */
  function Hex(n: nat): (s: string)
    ensures |s| >= 1
  {
    if n < 16 then [HexDigit(n)] else Hex(n / 16) + [HexDigit(n % 16)]
  }

  /** The value of a hexadecimal string: the reference reading of `Hex`. */
  function HexValue(s: string): nat
  {
    if s == [] then 0 else 16 * HexValue(s[..|s| - 1]) + DigitValue(s[|s| - 1])
  }

  lemma {:induction false} HexRoundTrip(n: nat)
    ensures HexValue(Hex(n)) == n
  {
    if n >= 16 {
      var s := Hex(n);
      assert s[..|s| - 1] == Hex(n / 16) && s[|s| - 1] == HexDigit(n % 16);
      HexRoundTrip(n / 16);
      assert n == 16 * (n / 16) + n % 16;
    }
  }

  /** Two hex digits per byte at most. */
  lemma {:induction false} HexLengthOfBytes(b: Bytes)
    requires |b| >= 1
    ensures |Hex(BigEndian(b))| <= 2 * |b|
  {
    var m := BigEndian(b[..|b| - 1]);
    var n := BigEndian(b);
    assert n == m * 256 + b[|b| - 1] as nat;
    if m == 0 {
      assert n < 256;
      assert n / 16 < 16;
    } else {
      HexLengthOfBytes(b[..|b| - 1]);
      assert n / 16 == m * 16 + (b[|b| - 1] as nat) / 16;
      assert (n / 16) / 16 == m;
      assert n / 16 >= 16;
      assert Hex(n / 16) == Hex(m) + [HexDigit((n / 16) % 16)];
    }
  }

  /**
   * `oid_repr`: the eight bytes as a hex integer, padded with one '0' when it has
   * an odd number of digits below eight; other lengths fail in
   * `struct.unpack`.
   */
  function OidRepr(oid: Bytes): (r: Result<string>)
    ensures r.Err? <==> |oid| != 8
    ensures r.Err? ==> r.error == StructError
  {
    if |oid| != 8 then Err(StructError)
    else
      var h := Hex(BigEndian(oid));
      if |h| in {1, 3, 5, 7} then Ok("0" + h) else Ok(h)
  }

  lemma HexValueLeadingZero(s: string)
    ensures HexValue("0" + s) == HexValue(s)
  {
    if s != [] {
      assert ("0" + s)[..|"0" + s| - 1] == "0" + s[..|s| - 1];
      HexValueLeadingZero(s[..|s| - 1]);
    }
  }

  /** Reading `oid_repr` back as hex gives the oid's value; it is at most 16 digits and never odd below 8. */
  lemma OidReprRoundTrip(oid: Bytes)
    requires |oid| == 8
    ensures OidRepr(oid).Ok?
    ensures HexValue(OidRepr(oid).value) == BigEndian(oid)
    ensures 1 <= |OidRepr(oid).value| <= 16
    ensures |OidRepr(oid).value| !in {1, 3, 5, 7}
  {
    var h := Hex(BigEndian(oid));
    HexRoundTrip(BigEndian(oid));
    HexValueLeadingZero(h);
    HexLengthOfBytes(oid);
    assert OidRepr(oid).value == if |h| in {1, 3, 5, 7} then "0" + h else h;
  }

  // ---------------------------------------------------------------- state and status

  /** `_p_state`: UPTODATE without a jar, GHOST, STICKY (over CHANGED), CHANGED, else UPTODATE. */
  function State(o: Obj): (r: int)
    ensures r in {GHOST, UPTODATE, CHANGED, STICKY}
    ensures r == GHOST <==> o.jar.Some? && o.flags.None?
    ensures r == STICKY <==> o.jar.Some? && o.flags.Some? && o.flags.value.sticky
    ensures r == CHANGED <==> o.jar.Some? && o.flags.Some? && o.flags.value.changed && !o.flags.value.sticky
  {
    if o.jar.None? then UPTODATE
    else if o.flags.None? then GHOST
    else
      var result := if o.flags.value.changed then CHANGED else UPTODATE;
      if o.flags.value.sticky then STICKY else result
  }

  /** `_p_status`, tested in the order unsaved, ghost, sticky, changed, saved. */
  function StatusOf(o: Obj): Status
  {
    if o.jar.None? then Unsaved
    else if o.flags.None? then Ghost
    else if o.flags.value.sticky then Sticky
    else if o.flags.value.changed then Changed
    else Saved
  }

  /** `_p_state` and `_p_status` classify every object the same way. */
  lemma StatusAgreesWithState(o: Obj)
    ensures StatusOf(o) == Ghost <==> State(o) == GHOST
    ensures StatusOf(o) == Sticky <==> State(o) == STICKY
    ensures StatusOf(o) == Changed <==> State(o) == CHANGED
    ensures StatusOf(o) in {Unsaved, Saved} <==> State(o) == UPTODATE
  {
  }

  /** `_p_changed` as read: False without a jar, None for a ghost, else the CHANGED bit. */
  function GetChanged(o: Obj): (r: Option<bool>)
    ensures r.None? <==> State(o) == GHOST
    ensures r == Some(true) <==> State(o) == CHANGED || (State(o) == STICKY && o.flags.value.changed)
  {
    if o.jar.None? then Some(false)
    else if o.flags.None? then None
    else Some(o.flags.value.changed)
  }

  /** `_p_serial` as read: eight zero bytes stand in for a missing serial. */
  function GetSerial(o: Obj): (r: Bytes)
    ensures o.serial.None? ==> r == ZERO
    ensures o.serial.Some? ==> r == o.serial.value
  {
    if o.serial.Some? then o.serial.value else ZERO
  }

  /** `_p_sticky` as read: False for a ghost. */
  function GetSticky(o: Obj): bool
  {
    o.flags.Some? && o.flags.value.sticky
  }

  /**
   * `_p_is_in_cache`: a non-empty oid and a jar whose cache holds this very
   * object under it; without a jar there is no cache to ask.
   */
  predicate InCache(o: Obj, view: CacheView)
  {
    o.oid.Some? && o.oid.value != [] && o.jar.Some? && view == Cache(Self)
  }

  /** An object without a jar is never in a cache, so `_set_jar` and `_set_oid` never refuse it. */
  lemma JarlessNeverRefused(o: Obj, jar: Option<Jar>, oid: Option<Oid>, view: CacheView)
    requires o.jar.None?
    ensures SetJarStep(o, jar, view).outcome.Pass? && SetOidStep(o, oid, view).outcome.Pass?
  {
  }

  // ---------------------------------------------------------------- setters

  /** `_set_jar`: refused for a cached object given a different non-None jar; a new jar resets flags to 0. */
  function SetJarStep(o: Obj, value: Option<Jar>, view: CacheView): (r: Step)
    ensures r.calls == []
    ensures r.outcome == Fail(ValueError) <==> InCache(o, view) && value.Some? && o.jar != value
    ensures r.outcome.Fail? ==> r.obj == o
    ensures r.outcome.Pass? ==> r.obj.jar == value
    ensures r.outcome.Pass? && o.jar != value ==> r.obj == o.(jar := value, flags := Some(CLEAN))
    ensures o.jar == value ==> r == NoOp(o)
  {
    if InCache(o, view) && value.Some? && o.jar != value then Step(o, [], Fail(ValueError))
    else if o.jar != value then NoOp(o.(jar := value, flags := Some(CLEAN)))
    else NoOp(o)
  }

  /** `_del_jar`: refused for a cached object; otherwise clears jar and flags. */
  function DelJarStep(o: Obj, view: CacheView): (r: Step)
    ensures r.calls == []
    ensures r.outcome == Fail(ValueError) <==> o.jar.Some? && InCache(o, view)
    ensures r.outcome.Pass? ==> r.obj.jar.None?
    ensures r.outcome.Pass? && o.jar.Some? ==> r.obj == o.(jar := None, flags := None)
    ensures r.outcome.Fail? || o.jar.None? ==> r.obj == o
  {
    if o.jar.None? then NoOp(o)
    else if InCache(o, view) then Step(o, [], Fail(ValueError))
    else NoOp(o.(jar := None, flags := None))
  }

  /** `_set_oid`: the same value is a no-op; a cached object refuses any other. */
  function SetOidStep(o: Obj, value: Option<Oid>, view: CacheView): (r: Step)
    ensures r.calls == []
    ensures r.outcome == Fail(ValueError) <==> value != o.oid && InCache(o, view)
    ensures r.outcome.Pass? ==> r.obj == o.(oid := value)
    ensures r.outcome.Fail? ==> r.obj == o
  {
    if value == o.oid then NoOp(o)
    else if InCache(o, view) then Step(o, [], Fail(ValueError))
    else NoOp(o.(oid := value))
  }

  /**
   * `_del_oid`: with a jar and a non-empty oid, refused when the jar's cache
   * holds anything under the oid (and `jar._cache` itself must exist).
   */
  function DelOidStep(o: Obj, view: CacheView): (r: Step)
    ensures r.calls == []
    ensures r.outcome.Pass? <==> o.jar.None? || o.oid.None? || o.oid.value == [] || view == Cache(Absent)
    ensures r.outcome.Pass? ==> r.obj == o.(oid := None)
    ensures r.outcome.Fail? ==> r.obj == o && r.outcome.error == (if view.NoCache? then AttributeError else ValueError)
  {
    if o.jar.Some? && o.oid.Some? && o.oid.value != [] then
      match view
      case NoCache => Step(o, [], Fail(AttributeError))
      case Cache(Absent) => NoOp(o.(oid := None))
      case Cache(_) => Step(o, [], Fail(ValueError))
    else NoOp(o.(oid := None))
  }

  /** `_set_serial`: exactly eight bytes, else ValueError. */
  function SetSerialStep(o: Obj, value: BytesArg): (r: Step)
    ensures r.calls == []
    ensures r.outcome.Pass? <==> value.BytesValue? && |value.b| == SERIAL_LEN
    ensures r.outcome.Pass? ==> r.obj == o.(serial := Some(value.b)) && GetSerial(r.obj) == value.b
    ensures r.outcome.Fail? ==> r.obj == o && r.outcome.error == ValueError
  {
    match value
    case NotBytes => Step(o, [], Fail(ValueError))
    case BytesValue(b) => if |b| != 8 then Step(o, [], Fail(ValueError)) else NoOp(o.(serial := Some(b)))
  }

  /** `_set_estimated_size`: TypeError for a non-int, ValueError for a negative, else stored in 64-byte units. */
  function SetEstimatedSizeStep(o: Obj, value: IntArg): (r: Step)
    ensures r.calls == []
    ensures value.NotInt? ==> r == Step(o, [], Fail(TypeError))
    ensures value.IntValue? && value.v < 0 ==> r == Step(o, [], Fail(ValueError))
    ensures value.IntValue? && value.v >= 0 ==>
      && r.outcome.Pass?
      && r.obj == o.(size := r.obj.size)
      && 1 <= r.obj.size <= 0xFF_FFFF
      && (value.v <= 1073741696 ==> value.v < EstimatedSize(r.obj) <= value.v + 64)
  {
    match value
    case NotInt => Step(o, [], Fail(TypeError))
    case IntValue(v) =>
      if v < 0 then Step(o, [], Fail(ValueError))
      else NoOp(o.(size := EstimatedSizeIn24Bits(v) as nat))
  }

  /** `_set_sticky`: ValueError('Ghost') for a ghost; otherwise sets or clears the STICKY bit only. */
  function SetStickyStep(o: Obj, value: bool): (r: Step)
    ensures r.calls == []
    ensures r.outcome.Fail? <==> o.flags.None?
    ensures r.outcome.Fail? ==> r == Step(o, [], Fail(ValueError))
    ensures r.outcome.Pass? ==> r.obj == o.(flags := Some(o.flags.value.(sticky := value)))
    ensures r.outcome.Pass? ==> GetSticky(r.obj) == value
  {
    if o.flags.None? then Step(o, [], Fail(ValueError))
    else NoOp(o.(flags := Some(o.flags.value.(sticky := value))))
  }

  // ---------------------------------------------------------------- activation

  /**
   * `_p_activate`: only a ghost acts.  Its flags become 0 at once; with both
   * a jar and an oid they are CHANGED while `jar.setstate` runs and end at 0
   * whatever setstate left; if setstate raises, the ghost flags come back.
   */
  function ActivateStep(o: Obj, load: Load): (r: Step)
    ensures o.flags.Some? ==> r == NoOp(o)
    ensures o.flags.None? && (o.jar.None? || o.oid.None?) ==> r == NoOp(o.(flags := Some(CLEAN)))
    ensures o.flags.None? && o.jar.Some? && o.oid.Some? ==>
      r.calls == [SetState(Some(Flags(true, false)))] &&
      (load.LoadFails? ==> r.obj == o && r.outcome == Fail(CallbackError)) &&
      (load.Loads? ==> r.obj == o.(flags := Some(CLEAN), dict := load.state) && r.outcome == Pass)
    ensures Register !in r.calls
  {
    if o.flags.Some? then NoOp(o)
    else if o.jar.None? || o.oid.None? then NoOp(o.(flags := Some(CLEAN)))
    else
      var during := Some(Flags(true, false));
      match load
      case LoadFails => Step(o, [SetState(during)], Fail(CallbackError))
      case Loads(state, _) => Step(o.(flags := Some(CLEAN), dict := state), [SetState(during)], Pass)
  }

  /**
   * `_p_invalidate_deactivate_helper`: with a jar, make a ghost (clearing the
   * state when `clear`) and tell the jar's cache, if it has one, that the
   * object now takes no bytes (-1) and that the base deactivation ran.
   */
  function HelperStep(o: Obj, clear: bool, view: CacheView): (r: Step)
    ensures r.outcome == Pass
    ensures o.jar.None? ==> r == NoOp(o)
    ensures o.jar.Some? ==> r.obj == o.(flags := None, dict := if clear then map[] else o.dict)
    ensures o.jar.Some? ==> r.calls == if view.Cache? then [SizeUpdate(o.oid, -1), DeactivateRan] else []
  {
    if o.jar.None? then NoOp(o)
    else
      var ghost_ := o.(flags := None, dict := if clear then map[] else o.dict);
      Step(ghost_, if view.Cache? then [SizeUpdate(o.oid, -1), DeactivateRan] else [], Pass)
  }

  /** `_p_deactivate`: ghosts only an object whose flags are exactly 0 and that has a jar. */
  function DeactivateStep(o: Obj, view: CacheView): (r: Step)
    ensures r.outcome == Pass
    ensures o.flags != Some(CLEAN) || o.jar.None? ==> r == NoOp(o)
    ensures o.flags == Some(CLEAN) && o.jar.Some? ==>
      r.obj == o.(flags := None, dict := map[]) && State(r.obj) == GHOST &&
      (DeactivateRan in r.calls <==> view.Cache?)
  {
    if o.flags == Some(CLEAN) then HelperStep(o, true, view) else NoOp(o)
  }

  /** `_p_invalidate`: flags forced to 0, then `_p_deactivate`; with a jar it always ends a ghost. */
  function InvalidateStep(o: Obj, view: CacheView): (r: Step)
    ensures r.outcome == Pass
    ensures o.jar.Some? ==> r.obj == o.(flags := None, dict := map[]) && StatusOf(r.obj) == Ghost && !GetSticky(r.obj)
    ensures o.jar.None? ==> r == NoOp(o.(flags := Some(CLEAN)))
  {
    DeactivateStep(o.(flags := Some(CLEAN)), view)
  }

  /** Deactivating twice is the same as deactivating once; the second call does nothing. */
  lemma DeactivateIdempotent(o: Obj, view: CacheView)
    ensures DeactivateStep(DeactivateStep(o, view).obj, view) == NoOp(DeactivateStep(o, view).obj)
  {
  }

  /** `_p_register`: `jar.register` only with both a jar and an oid. */
  function RegisterCalls(o: Obj): seq<Call>
  {
    if o.jar.Some? && o.oid.Some? then [Register] else []
  }

  /**
   * `_p_set_changed_flag`: a true value sets CHANGED, registering first and
   * only on the clean-to-dirty transition, so a failing register leaves the
   * flags as they were; a false value clears CHANGED.  A ghost's `None`
   * flags make the bit operation raise TypeError.
   */
  function SetChangedFlagStep(o: Obj, value: bool, registerOk: bool): (r: Step)
    ensures o.flags.None? ==> r == Step(o, [], Fail(TypeError))
    ensures o.flags.Some? && value && o.flags.value.changed ==> r == NoOp(o)
    ensures o.flags.Some? && value && !o.flags.value.changed ==>
      r.calls == RegisterCalls(o) &&
      (r.calls == [] || registerOk ==> r == Step(o.(flags := Some(o.flags.value.(changed := true))), r.calls, Pass)) &&
      (r.calls != [] && !registerOk ==> r == Step(o, [Register], Fail(CallbackError)))
    ensures o.flags.Some? && !value ==> r == NoOp(o.(flags := Some(o.flags.value.(changed := false))))
  {
    if o.flags.None? then Step(o, [], Fail(TypeError))
    else if value then
      var after := o.flags.value.(changed := true);
      if after == o.flags.value then NoOp(o)
      else
        var calls := RegisterCalls(o);
        if calls != [] && !registerOk then Step(o, calls, Fail(CallbackError))
        else Step(o.(flags := Some(after)), calls, Pass)
    else NoOp(o.(flags := Some(o.flags.value.(changed := false))))
  }

  /** A call to `register` happens exactly on the clean-to-dirty transition of an object with jar and oid. */
  lemma RegisterOnlyOnTransition(o: Obj, value: bool, registerOk: bool)
    ensures Register in SetChangedFlagStep(o, value, registerOk).calls <==>
      value && o.flags.Some? && !o.flags.value.changed && o.jar.Some? && o.oid.Some?
  {
  }

  /**
   * `_set_changed`: on a ghost only a true value acts (activate, then mark
   * changed); on a non-ghost None calls `_p_deactivate()` through the
   * object's class (`hook`), and anything else sets or clears the CHANGED bit.
   */
  function SetChangedStep(o: Obj, hook: DeactivateHook, value: Truth, load: Load, registerOk: bool, view: CacheView): (r: Step)
    ensures o.flags.None? && value != Truthy ==> r == NoOp(o)
    ensures o.flags.Some? && value == PyNone ==> r == DispatchDeactivateStep(o, hook, view)
    ensures o.flags.Some? && value == PyNone && hook == BaseDeactivate ==> r == DeactivateStep(o, view)
    ensures o.flags.Some? && value == PyNone && (o.flags != Some(CLEAN) || hook == OverrideSkipsBase) ==> r == NoOp(o)
    ensures o.flags.Some? && value == Falsy ==> r == NoOp(o.(flags := Some(o.flags.value.(changed := false))))
    ensures o.flags.None? && value == Truthy && o.jar.Some? && o.oid.Some? && load.Loads? && registerOk ==>
      r.outcome == Pass && State(r.obj) == CHANGED && r.calls == [SetState(Some(Flags(true, false))), Register]
    ensures o.flags.None? && value == Truthy && load.LoadFails? && o.jar.Some? && o.oid.Some? ==>
      r.obj == o && r.outcome.Fail? && Register !in r.calls
  {
    if o.flags.None? then
      if value == Truthy then
        var a := ActivateStep(o, load);
        if a.outcome.Fail? then a
        else
          var s := SetChangedFlagStep(a.obj, true, registerOk);
          Step(s.obj, a.calls + s.calls, s.outcome)
      else NoOp(o)
    else if value == PyNone then DispatchDeactivateStep(o, hook, view)
    else SetChangedFlagStep(o, value == Truthy, registerOk)
  }

  // ---------------------------------------------------------------- attribute access

  /** The standard names a ghost can read without being activated. */
  const SPECIAL_NAMES: set<string> := {"__class__", "__del__", "__dict__", "__of__", "__setstate__"}

  /** The name-mangled slots of the class. */
  const SLOT_NAMES: set<string> :=
    {"_Persistent__jar", "_Persistent__oid", "_Persistent__serial", "_Persistent__flags",
     "_Persistent__size", "_Persistent__ring"}

  /** `_SPECIAL_NAMES`: the standard names plus the slots. */
  predicate IsSpecialName(name: string)
  {
    name in SPECIAL_NAMES || name in SLOT_NAMES
  }

  /** `_SPECIAL_WRITE_NAMES`: the special names except `__class__` and `__dict__`. */
  predicate IsSpecialWriteName(name: string)
  {
    IsSpecialName(name) && name != "__class__" && name != "__dict__"
  }

  /** `_p_accessed`: tell the jar's cache (if the jar has one) that a non-ghost with jar and oid was used. */
  function AccessedCalls(o: Obj, view: CacheView): (r: seq<Call>)
    ensures r != [] <==> o.jar.Some? && o.oid.Some? && o.flags.Some? && view.Cache?
    ensures r != [] ==> r == [Mru(o.oid.value)]
  {
    if o.jar.Some? && o.oid.Some? && o.flags.Some? && view.Cache? then [Mru(o.oid.value)] else []
  }

  /** `a` followed by `b`, when `a` passed. */
  function Chain(a: Step, b: Step): Step
  {
    Step(b.obj, a.calls + b.calls, b.outcome)
  }

  /** A name that `__getattribute__` and `__delattr__` leave to the class (no activation, no notification). */
  predicate IsSpecialAccess(name: string)
  {
    StartsWith(name, "_p_") || IsSpecialName(name)
  }

  /** A name that `__setattr__` leaves to the class. */
  predicate IsSpecialWrite(name: string)
  {
    StartsWith(name, "_p_") || IsSpecialWriteName(name)
  }

  /** `__getattribute__`: an ordinary name activates a ghost and marks the object accessed. */
  function GetAttributeStep(o: Obj, name: string, load: Load, view: CacheView): (r: Step)
    ensures IsSpecialAccess(name) ==> r == NoOp(o)
    ensures Register !in r.calls
    ensures r.outcome.Pass? && !IsSpecialAccess(name) ==> r.obj.flags.Some?
    ensures o.flags.Some? && !IsSpecialAccess(name) ==> r == Step(o, AccessedCalls(o, view), Pass)
  {
    if IsSpecialAccess(name) then NoOp(o)
    else
      var a := ActivateStep(o, load);
      if a.outcome.Fail? then a else Chain(a, Step(a.obj, AccessedCalls(a.obj, view), Pass))
  }

  /**
   * What `__setattr__` does after the store: an object with jar and oid,
   * written under an ordinary non-`_v_` name, turns CHANGED -- the bit is
   * set before `register` is called, so a failing register leaves it set.
   */
  function MarkWrittenStep(o: Obj, name: string, registerOk: bool): (r: Step)
    ensures r.obj.jar == o.jar && r.obj.oid == o.oid && r.obj.dict == o.dict
    ensures Register in r.calls <==>
      o.jar.Some? && o.oid.Some? && !IsSpecialWrite(name) && !StartsWith(name, "_v_") &&
      o.flags.Some? && !o.flags.value.changed
    ensures Register in r.calls ==> r.obj.flags == Some(o.flags.value.(changed := true))
    ensures Register !in r.calls ==> r == NoOp(o)
  {
    if o.jar.Some? && o.oid.Some? && !IsSpecialWrite(name) && !StartsWith(name, "_v_") &&
       o.flags.Some? && !o.flags.value.changed then
      Step(o.(flags := Some(o.flags.value.(changed := true))), [Register],
           if registerOk then Pass else Fail(CallbackError))
    else NoOp(o)
  }

  /**
   * `__setattr__` for a name kept in the instance dictionary: an ordinary
   * name activates a ghost and, unless `_v_`, marks it accessed; then the
   * value is stored and the object marked as written.  (A `_p_` name is
   * stored through its property, modelled by the `Set...Step` functions; a
   * special name only bypasses activation, notification and marking.)
   */
  function SetAttributeStep(o: Obj, name: string, value: int, load: Load, registerOk: bool, view: CacheView): (r: Step)
    ensures IsSpecialWrite(name) ==> r == NoOp(o.(dict := o.dict[name := value]))
    ensures r.outcome.Pass? ==> name in r.obj.dict && r.obj.dict[name] == value
    ensures Register in r.calls ==> o.jar.Some? && o.oid.Some? && !StartsWith(name, "_v_") && State(r.obj) != UPTODATE
    ensures StartsWith(name, "_v_") ==> Register !in r.calls && (r.outcome.Pass? ==> r.obj.flags == ActivateStep(o, load).obj.flags)
  {
    assert StartsWith(name, "_v_") ==> name[1] == 'v' && !IsSpecialWrite(name);
    var a :=
      if IsSpecialWrite(name) then NoOp(o)
      else
        var act := ActivateStep(o, load);
        if act.outcome.Fail? || StartsWith(name, "_v_") then act
        else Chain(act, Step(act.obj, AccessedCalls(act.obj, view), Pass));
    if a.outcome.Fail? then a
    else
      var stored := a.obj.(dict := a.obj.dict[name := value]);
      Chain(a, MarkWrittenStep(stored, name, registerOk))
  }

  /**
   * What `__delattr__` does for an ordinary name once the object is active:
   * mark it accessed, then set CHANGED (even without a jar) and register
   * when it has both jar and oid.
   */
  function MarkDeletedStep(o: Obj, registerOk: bool, view: CacheView): (r: Step)
    requires o.flags.Some?
    ensures r.obj.jar == o.jar && r.obj.oid == o.oid && r.obj.dict == o.dict
    ensures r.obj.flags == Some(o.flags.value.(changed := true))
    ensures Register in r.calls <==> !o.flags.value.changed && o.jar.Some? && o.oid.Some?
    ensures r.outcome.Fail? ==> Register in r.calls && !registerOk
  {
    var accessed := AccessedCalls(o, view);
    if o.flags.value.changed then Step(o, accessed, Pass)
    else
      var marked := o.(flags := Some(o.flags.value.(changed := true)));
      var reg := RegisterCalls(marked);
      Step(marked, accessed + reg, if reg != [] && !registerOk then Fail(CallbackError) else Pass)
  }

  /** `object.__delattr__` on the instance dictionary: AttributeError for a missing name. */
  function DelEntryStep(o: Obj, name: string): (r: Step)
    ensures r.calls == [] && (r.outcome.Pass? <==> name in o.dict)
    ensures r.outcome.Pass? ==> r.obj == o.(dict := o.dict - {name})
    ensures r.outcome.Fail? ==> r.obj == o && r.outcome.error == AttributeError
  {
    if name in o.dict then NoOp(o.(dict := o.dict - {name})) else Step(o, [], Fail(AttributeError))
  }

  /**
   * `__delattr__`: an ordinary name activates the object and marks it
   * accessed and changed before the deletion.  (A `_p_` name is deleted
   * through its property, modelled by the `Del...` methods.)
   */
  function DelAttributeStep(o: Obj, name: string, load: Load, registerOk: bool, view: CacheView): (r: Step)
    ensures IsSpecialAccess(name) ==> r == DelEntryStep(o, name)
    ensures r.outcome.Pass? ==> name !in r.obj.dict && name in o.dict + ActivateStep(o, load).obj.dict
    ensures Register in r.calls ==> o.jar.Some? && o.oid.Some?
    ensures r.outcome.Pass? && !IsSpecialAccess(name) ==> r.obj.flags.Some? && r.obj.flags.value.changed
  {
    if IsSpecialAccess(name) then DelEntryStep(o, name)
    else
      var a := ActivateStep(o, load);
      if a.outcome.Fail? then a
      else
        var b := Chain(a, MarkDeletedStep(a.obj, registerOk, view));
        if b.outcome.Fail? then b else Chain(b, DelEntryStep(b.obj, name))
  }

  // ---------------------------------------------------------------- the class

  /** How the object's class defines `_p_deactivate`, as seen by a pickle cache's sweep. */
  datatype DeactivateHook = BaseDeactivate | OverrideSkipsBase

  /** `_p_deactivate()` as the class dispatches it: the base method, or an override that never calls it. */
  function DispatchDeactivateStep(o: Obj, hook: DeactivateHook, view: CacheView): (r: Step)
    ensures hook == OverrideSkipsBase ==> r == NoOp(o)
    ensures hook == BaseDeactivate ==> r == DeactivateStep(o, view)
  {
    if hook == BaseDeactivate then DeactivateStep(o, view) else NoOp(o)
  }

  /** `_p_invalidate()`: flags forced to 0, then `_p_deactivate()` as dispatched. */
  function DispatchInvalidateStep(o: Obj, hook: DeactivateHook, view: CacheView): (r: Step)
    ensures hook == BaseDeactivate ==> r == InvalidateStep(o, view)
    ensures hook == OverrideSkipsBase ==> r == NoOp(o.(flags := Some(CLEAN)))
  {
    DispatchDeactivateStep(o.(flags := Some(CLEAN)), hook, view)
  }

  class Persistent {
    var jar: Option<Jar>
    var oid: Option<Oid>
    var serial: Option<Bytes>
    var flags: Option<Flags>
    var size: nat
    var dict: map<string, int>
    /** `__ring`: the ring node a pickle cache keeps for the object. */
    var ring: Option<LinkedRing.RingNode>
    const hook: DeactivateHook

    /** Everything but `__ring`, which only a pickle cache's ring uses. */
    function Snap(): Obj
      reads this`jar, this`oid, this`serial, this`flags, this`size, this`dict
    {
      Obj(jar, oid, serial, flags, size, dict)
    }

    /** `__new__`: every slot None, size 0. */
    constructor (hook: DeactivateHook)
      ensures Snap() == Obj(None, None, None, None, 0, map[]) && ring.None? && this.hook == hook
      ensures StatusOf(Snap()) == Unsaved
    {
      jar, oid, serial, flags, size, dict, ring := None, None, None, None, 0, map[], None;
      this.hook := hook;
    }

    method SetJar(value: Option<Jar>, view: CacheView) returns (outcome: Outcome)
      modifies this`jar, this`flags
      ensures Step(Snap(), [], outcome) == SetJarStep(old(Snap()), value, view)
    {
      if InCache(Snap(), view) && value.Some? && jar != value {
        return Fail(ValueError);
      }
      if jar != value {
        jar := value;
        flags := Some(CLEAN);
      }
      return Pass;
    }

    method DelJar(view: CacheView) returns (outcome: Outcome)
      modifies this`jar, this`flags
      ensures Step(Snap(), [], outcome) == DelJarStep(old(Snap()), view)
    {
      if jar.Some? {
        if InCache(Snap(), view) {
          return Fail(ValueError);
        }
        jar := None;
        flags := None;
      }
      return Pass;
    }

    method SetOid(value: Option<Oid>, view: CacheView) returns (outcome: Outcome)
      modifies this`oid
      ensures Step(Snap(), [], outcome) == SetOidStep(old(Snap()), value, view)
    {
      if value == oid {
        return Pass;
      }
      if InCache(Snap(), view) {
        return Fail(ValueError);
      }
      oid := value;
      return Pass;
    }

    method DelOid(view: CacheView) returns (outcome: Outcome)
      modifies this`oid
      ensures Step(Snap(), [], outcome) == DelOidStep(old(Snap()), view)
    {
      if jar.Some? && oid.Some? && oid.value != [] {
        match view
        case NoCache => return Fail(AttributeError);
        case Cache(Absent) =>
        case Cache(_) => return Fail(ValueError);
      }
      oid := None;
      return Pass;
    }

    method SetSerial(value: BytesArg) returns (outcome: Outcome)
      modifies this`serial
      ensures Step(Snap(), [], outcome) == SetSerialStep(old(Snap()), value)
    {
      if value.NotBytes? || |value.b| != 8 {
        return Fail(ValueError);
      }
      serial := Some(value.b);
      return Pass;
    }

    method DelSerial()
      modifies this`serial
      ensures Snap() == old(Snap()).(serial := None) && GetSerial(Snap()) == ZERO
    {
      serial := None;
    }

    method SetEstimatedSize(value: IntArg) returns (outcome: Outcome)
      modifies this`size
      ensures Step(Snap(), [], outcome) == SetEstimatedSizeStep(old(Snap()), value)
    {
      if value.NotInt? {
        return Fail(TypeError);
      }
      if value.v < 0 {
        return Fail(ValueError);
      }
      size := EstimatedSizeIn24Bits(value.v) as nat;
      return Pass;
    }

    method DelEstimatedSize()
      modifies this`size
      ensures Snap() == old(Snap()).(size := 0) && EstimatedSize(Snap()) == 0
    {
      size := 0;
    }

    method SetSticky(value: bool) returns (outcome: Outcome)
      modifies this`flags
      ensures Step(Snap(), [], outcome) == SetStickyStep(old(Snap()), value)
    {
      if flags.None? {
        return Fail(ValueError);
      }
      flags := Some(flags.value.(sticky := value));
      return Pass;
    }

    method Activate(load: Load) returns (calls: seq<Call>, outcome: Outcome)
      modifies this`flags, this`dict
      ensures Step(Snap(), calls, outcome) == ActivateStep(old(Snap()), load)
    {
      calls, outcome := [], Pass;
      var before := flags;
      if before.None? {
        flags := Some(CLEAN);
        if jar.None? || oid.None? {
          return;
        }
        flags := Some(Flags(true, false));
        calls := [SetState(flags)];
        match load
        case LoadFails =>
          flags := before;
          outcome := Fail(CallbackError);
        case Loads(state, left) =>
          dict := state;
          flags := left;
          flags := Some(CLEAN);
      }
    }

    method InvalidateDeactivateHelper(clear: bool, view: CacheView) returns (calls: seq<Call>)
      modifies this`flags, this`dict
      ensures Step(Snap(), calls, Pass) == HelperStep(old(Snap()), clear, view)
    {
      calls := [];
      if jar.None? {
        return;
      }
      if flags.Some? {
        flags := None;
      }
      if clear {
        dict := map[];
      }
      if view.Cache? {
        calls := [SizeUpdate(oid, -1), DeactivateRan];
      }
    }

    method Deactivate(view: CacheView) returns (calls: seq<Call>)
      modifies this`flags, this`dict
      ensures Step(Snap(), calls, Pass) == DeactivateStep(old(Snap()), view)
    {
      calls := [];
      if flags == Some(CLEAN) {
        calls := InvalidateDeactivateHelper(true, view);
      }
    }

    method Invalidate(view: CacheView) returns (calls: seq<Call>)
      modifies this`flags, this`dict
      ensures Step(Snap(), calls, Pass) == InvalidateStep(old(Snap()), view)
    {
      flags := Some(CLEAN);
      calls := Deactivate(view);
    }

    /** `self._p_deactivate()`, through the class's own definition. */
    method DispatchDeactivate(view: CacheView) returns (calls: seq<Call>)
      modifies this`flags, this`dict
      ensures Step(Snap(), calls, Pass) == DispatchDeactivateStep(old(Snap()), hook, view)
    {
      calls := [];
      if hook == BaseDeactivate {
        calls := Deactivate(view);
      }
    }

    /** `self._p_invalidate()`, whose call to `_p_deactivate` goes through the class. */
    method DispatchInvalidate(view: CacheView) returns (calls: seq<Call>)
      modifies this`flags, this`dict
      ensures Step(Snap(), calls, Pass) == DispatchInvalidateStep(old(Snap()), hook, view)
    {
      flags := Some(CLEAN);
      calls := DispatchDeactivate(view);
    }

    method SetChangedFlag(value: bool, registerOk: bool) returns (calls: seq<Call>, outcome: Outcome)
      modifies this`flags
      ensures Step(Snap(), calls, outcome) == SetChangedFlagStep(old(Snap()), value, registerOk)
    {
      calls, outcome := [], Pass;
      if flags.None? {
        outcome := Fail(TypeError);
        return;
      }
      if value {
        var before := flags.value;
        var after := before.(changed := true);
        if before != after {
          calls := RegisterCalls(Snap());
          if calls != [] && !registerOk {
            outcome := Fail(CallbackError);
            return;
          }
        }
        flags := Some(after);
      } else {
        flags := Some(flags.value.(changed := false));
      }
    }

    method SetChanged(value: Truth, load: Load, registerOk: bool, view: CacheView) returns (calls: seq<Call>, outcome: Outcome)
      modifies this`flags, this`dict
      ensures Step(Snap(), calls, outcome) == SetChangedStep(old(Snap()), hook, value, load, registerOk, view)
    {
      if flags.None? {
        calls, outcome := [], Pass;
        if value == Truthy {
          calls, outcome := Activate(load);
          if outcome.Fail? {
            return;
          }
          var more;
          more, outcome := SetChangedFlag(true, registerOk);
          calls := calls + more;
        }
      } else if value == PyNone {
        calls := DispatchDeactivate(view);
        outcome := Pass;
      } else {
        calls, outcome := SetChangedFlag(value == Truthy, registerOk);
      }
    }

    /** `_del_changed` is `self._p_invalidate()`, whose `_p_deactivate` goes through the class. */
    method DelChanged(view: CacheView) returns (calls: seq<Call>)
      modifies this`flags, this`dict
      ensures Step(Snap(), calls, Pass) == DispatchInvalidateStep(old(Snap()), hook, view)
      ensures hook == BaseDeactivate ==> Step(Snap(), calls, Pass) == InvalidateStep(old(Snap()), view)
      ensures hook == OverrideSkipsBase ==> Snap() == old(Snap()).(flags := Some(CLEAN)) && calls == []
    {
      calls := DispatchInvalidate(view);
    }

    method Accessed(view: CacheView) returns (calls: seq<Call>)
      ensures calls == AccessedCalls(Snap(), view)
    {
      calls := [];
      if jar.None? || oid.None? || flags.None? {
        return;
      }
      if view.Cache? {
        calls := [Mru(oid.value)];
      }
    }

    method GetAttribute(name: string, load: Load, view: CacheView) returns (calls: seq<Call>, outcome: Outcome)
      modifies this`flags, this`dict
      ensures Step(Snap(), calls, outcome) == GetAttributeStep(old(Snap()), name, load, view)
    {
      calls, outcome := [], Pass;
      if !IsSpecialAccess(name) {
        calls, outcome := Activate(load);
        if outcome.Fail? {
          return;
        }
        var more := Accessed(view);
        calls := calls + more;
      }
    }

    method MarkWritten(name: string, registerOk: bool) returns (calls: seq<Call>, outcome: Outcome)
      modifies this`flags
      ensures Step(Snap(), calls, outcome) == MarkWrittenStep(old(Snap()), name, registerOk)
    {
      calls, outcome := [], Pass;
      if jar.Some? && oid.Some? && !IsSpecialWrite(name) && !StartsWith(name, "_v_") &&
         flags.Some? && !flags.value.changed {
        flags := Some(flags.value.(changed := true));
        calls := [Register];
        if !registerOk {
          outcome := Fail(CallbackError);
        }
      }
    }

    method SetAttribute(name: string, value: int, load: Load, registerOk: bool, view: CacheView)
      returns (calls: seq<Call>, outcome: Outcome)
      modifies this`flags, this`dict
      ensures Step(Snap(), calls, outcome) == SetAttributeStep(old(Snap()), name, value, load, registerOk, view)
    {
      calls, outcome := [], Pass;
      if !IsSpecialWrite(name) {
        calls, outcome := Activate(load);
        if outcome.Fail? {
          return;
        }
        if !StartsWith(name, "_v_") {
          var more := Accessed(view);
          calls := calls + more;
        }
      }
      dict := dict[name := value];
      var more;
      more, outcome := MarkWritten(name, registerOk);
      calls := calls + more;
    }

    method MarkDeleted(registerOk: bool, view: CacheView) returns (calls: seq<Call>, outcome: Outcome)
      requires flags.Some?
      modifies this`flags
      ensures Step(Snap(), calls, outcome) == MarkDeletedStep(old(Snap()), registerOk, view)
    {
      calls := Accessed(view);
      outcome := Pass;
      if !flags.value.changed {
        flags := Some(flags.value.(changed := true));
        if jar.Some? && oid.Some? {
          calls := calls + [Register];
          if !registerOk {
            outcome := Fail(CallbackError);
          }
        }
      }
    }

    method DelEntry(name: string) returns (outcome: Outcome)
      modifies this`dict
      ensures Step(Snap(), [], outcome) == DelEntryStep(old(Snap()), name)
    {
      if name !in dict {
        return Fail(AttributeError);
      }
      dict := dict - {name};
      return Pass;
    }

    method DelAttribute(name: string, load: Load, registerOk: bool, view: CacheView)
      returns (calls: seq<Call>, outcome: Outcome)
      modifies this`flags, this`dict
      ensures Step(Snap(), calls, outcome) == DelAttributeStep(old(Snap()), name, load, registerOk, view)
    {
      calls := [];
      if !IsSpecialAccess(name) {
        calls, outcome := Activate(load);
        if outcome.Fail? {
          return;
        }
        var more;
        more, outcome := MarkDeleted(registerOk, view);
        calls := calls + more;
        if outcome.Fail? {
          return;
        }
      }
      outcome := DelEntry(name);
    }
  }
}
