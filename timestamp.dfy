/**
 * The pure-Python `TimeStamp` (src/persistent/timestamp.py): eight raw
 * bytes holding two big-endian unsigned 32-bit words. The first counts the
 * minutes since 1900-01-01 00:00 in a calendar of twelve 31-day months;
 * the second is the seconds scaled by 2^32 / 60.
 */
module PyTimeStamp {
  import opened Common
  import opened Arith

  /** The number of values of an unsigned 32-bit word. */
  const WORD: nat := 0x1_0000_0000

  const MINUTES_PER_DAY: nat := 60 * 24
  const MINUTES_PER_MONTH: nat := 60 * 24 * 31
  const MINUTES_PER_YEAR: nat := 60 * 24 * 31 * 12

  /** The number of values of a 64-bit C `long`, and half of it. */
  const LONG: nat := 0x1_0000_0000_0000_0000
  const LONG_HALF: nat := 0x8000_0000_0000_0000

  /** Eight raw bytes. */
  type Raw = b: Bytes | |b| == 8 witness ZERO

  /** Calendar components; the seconds stay as their scaled word throughout. */
  datatype Date = Date(year: int, month: int, day: int, hour: int, minute: int)

  /** The components a valid first word decodes to. */
  predicate InRange(d: Date)
  {
    d.year >= 1900 && 1 <= d.month <= 12 && 1 <= d.day <= 31 && 0 <= d.hour < 24 && 0 <= d.minute < 60
  }

  /** The first word `_makeRaw` computes: minutes in the 31-day-month calendar. */
  function Minutes(d: Date): int
  {
    ((((d.year - 1900) * 12 + d.month - 1) * 31 + d.day - 1) * 24 + d.hour) * 60 + d.minute
  }

  function HighWord(raw: Raw): (a: nat)
    ensures a < WORD
  {
    BigEndian(raw[..4])
  }

  function LowWord(raw: Raw): (b: nat)
    ensures b < WORD
  {
    BigEndian(raw[4..])
  }

  /** `struct.pack('>II', a, b)`: a struct error unless both are unsigned 32-bit values. */
  function PackWords(a: int, b: int): (r: Result<Raw>)
    ensures r.Ok? <==> 0 <= a < WORD && 0 <= b < WORD
    ensures r.Err? ==> r.error == StructError
    ensures r.Ok? ==> HighWord(r.value) == a && LowWord(r.value) == b
  {
    if 0 <= a < WORD && 0 <= b < WORD then
      var raw: Raw := ToBigEndian(a, 4) + ToBigEndian(b, 4);
      assert raw[..4] == ToBigEndian(a, 4) && raw[4..] == ToBigEndian(b, 4);
      Ok(raw)
    else Err(StructError)
  }

  /** Packing the words read from raw bytes gives those bytes. */
  lemma PackWordsOf(raw: Raw)
    ensures PackWords(HighWord(raw), LowWord(raw)) == Ok(raw)
  {
    ToBigEndianOf(raw[..4]);
    ToBigEndianOf(raw[4..]);
    assert raw == raw[..4] + raw[4..];
  }

  /**
   * `_makeRaw`: the first word from the components, the second from the
   * seconds; the components are not range-checked, only the two words.
   */
  function MakeRaw(d: Date, second: int): (r: Result<Raw>)
    ensures r.Ok? <==> 0 <= Minutes(d) < WORD && 0 <= second < WORD
    ensures r.Err? ==> r.error == StructError
    ensures r.Ok? ==> HighWord(r.value) == Minutes(d) && LowWord(r.value) == second
  {
    PackWords(Minutes(d), second)
  }

  /** `_parseRaw` on the first word. */
  function ParseMinutes(a: nat): (d: Date)
    ensures InRange(d)
    ensures a == 0 ==> d == Date(1900, 1, 1, 0, 0)
  {
    Date(a / MINUTES_PER_YEAR + 1900, a / MINUTES_PER_MONTH % 12 + 1,
         a / MINUTES_PER_DAY % 31 + 1, a / 60 % 24, a % 60)
  }

  /** `_parseRaw`: the components and the seconds word. */
  function ParseRaw(raw: Raw): (Date, nat)
  {
    (ParseMinutes(HighWord(raw)), LowWord(raw))
  }

  /** Decoding then encoding a first word gives it back. */
  lemma MinutesOfParse(a: nat)
    ensures Minutes(ParseMinutes(a)) == a
  {
    var d := ParseMinutes(a);
    DivDiv(a, 60, 24);
    DivDiv(a, MINUTES_PER_DAY, 31);
    DivDiv(a, MINUTES_PER_MONTH, 12);
    var h := a / 60;
    var dd := a / MINUTES_PER_DAY;
    var mm := a / MINUTES_PER_MONTH;
    assert h / 24 == dd && dd / 31 == mm && mm / 12 == a / MINUTES_PER_YEAR;
    assert (d.year - 1900) * 12 + d.month - 1 == mm;
    assert mm * 31 + d.day - 1 == dd;
    assert dd * 24 + d.hour == h;
    assert h * 60 + d.minute == a;
  }

  /** In-range components survive encoding and decoding. */
  lemma ParseOfMinutes(d: Date)
    requires InRange(d)
    ensures Minutes(d) >= 0 && ParseMinutes(Minutes(d)) == d
  {
    var mm := (d.year - 1900) * 12 + d.month - 1;
    var dd := mm * 31 + d.day - 1;
    var h := dd * 24 + d.hour;
    var a := h * 60 + d.minute;
    assert a == Minutes(d);
    DivModUnique(a, 60, h, d.minute);
    DivModUnique(h, 24, dd, d.hour);
    DivDiv(a, 60, 24);
    DivModUnique(dd, 31, mm, d.day - 1);
    DivDiv(a, MINUTES_PER_DAY, 31);
    DivModUnique(mm, 12, d.year - 1900, d.month - 1);
    DivDiv(a, MINUTES_PER_MONTH, 12);
  }

  /** A timestamp: its raw bytes (`_elements` is derived from them). */
  datatype TimeStamp = TimeStamp(raw: Raw)

  /** `year()` … `minute()` and the seconds word: the parsed raw bytes. */
  function Elements(ts: TimeStamp): (Date, nat)
  {
    ParseRaw(ts.raw)
  }

  /** The positional arguments of the constructor. */
  datatype Args =
    | One(arg: BytesArg)                  // TimeStamp(raw)
    | Six(date: Date, second: int)        // TimeStamp(y, mo, d, h, mi, s), s as its scaled word
    | OtherArity                          // any other number of arguments

  /** `TimeStamp.__init__`. */
  function New(args: Args): (r: Result<TimeStamp>)
    ensures args.OtherArity? ==> r == Err(TypeError)
    ensures args.One? ==> (r.Ok? <==> args.arg.BytesValue? && |args.arg.b| == 8)
    ensures args.One? && r.Ok? ==> r.value.raw == args.arg.b
    ensures args.One? && r.Err? ==> r.error == TypeError
    ensures args.Six? ==> (r.Ok? <==> 0 <= Minutes(args.date) < WORD && 0 <= args.second < WORD)
    ensures args.Six? && r.Err? ==> r.error == StructError
    ensures args.Six? && r.Ok? && InRange(args.date) ==> Elements(r.value) == (args.date, args.second)
  {
    match args
    case One(arg) =>
      if arg.NotBytes? || |arg.b| != 8 then Err(TypeError) else Ok(TimeStamp(arg.b))
    case Six(date, second) =>
      var raw := MakeRaw(date, second);
      if raw.Err? then Err(raw.error)
      else
        (if InRange(date) then ParseOfMinutes(date); Ok(TimeStamp(raw.value)) else Ok(TimeStamp(raw.value)))
    case OtherArity => Err(TypeError)
  }

  /** The six-argument constructor accepts every encoding of a first word it decodes. */
  lemma NewOfElements(ts: TimeStamp)
    ensures New(Six(Elements(ts).0, Elements(ts).1)) == Ok(ts)
  {
    MinutesOfParse(HighWord(ts.raw));
    PackWordsOf(ts.raw);
  }

  // ---------------------------------------------------------------- ordering

  /** Python's `<` on bytes: at the first difference, or a proper prefix first. */
  predicate BytesLess(a: Bytes, b: Bytes)
  {
    if a == [] then b != []
    else b != [] && (if a[0] != b[0] then a[0] < b[0] else BytesLess(a[1..], b[1..]))
  }

  /** On strings of one length, byte order is the order of their big-endian values. */
  lemma {:induction false} BytesLessNumeric(a: Bytes, b: Bytes)
    requires |a| == |b|
    ensures BytesLess(a, b) <==> BigEndian(a) < BigEndian(b)
  {
    if a != [] {
      var n := |a| - 1;
      var p := Pow256(n);
      BigEndianConcat([a[0]], a[1..]);
      BigEndianConcat([b[0]], b[1..]);
      assert [a[0]] + a[1..] == a && [b[0]] + b[1..] == b;
      assert BigEndian([a[0]]) == a[0] as nat && BigEndian([b[0]]) == b[0] as nat by {
        assert [a[0]][..0] == [] && [b[0]][..0] == [];
      }
      if a[0] < b[0] {
        LeadingDigit(a[0] as nat, BigEndian(a[1..]), b[0] as nat, BigEndian(b[1..]), p);
      } else if b[0] < a[0] {
        LeadingDigit(b[0] as nat, BigEndian(b[1..]), a[0] as nat, BigEndian(a[1..]), p);
      } else {
        BytesLessNumeric(a[1..], b[1..]);
      }
    }
  }

  /** Byte strings of one length with one value are equal. */
  lemma BigEndianInjective(a: Bytes, b: Bytes)
    requires |a| == |b| && BigEndian(a) == BigEndian(b)
    ensures a == b
  {
    ToBigEndianOf(a);
    ToBigEndianOf(b);
  }

  /** Raw bytes are totally ordered: exactly one of less, equal, greater. */
  lemma RawTotalOrder(a: Raw, b: Raw, c: Raw)
    ensures !BytesLess(a, a)
    ensures a != b ==> (BytesLess(a, b) <==> !BytesLess(b, a))
    ensures BytesLess(a, b) && BytesLess(b, c) ==> BytesLess(a, c)
  {
    BytesLessNumeric(a, a);
    BytesLessNumeric(a, b);
    BytesLessNumeric(b, a);
    BytesLessNumeric(b, c);
    BytesLessNumeric(a, c);
    if BigEndian(a) == BigEndian(b) {
      BigEndianInjective(a, b);
    }
  }

  /** The value of raw bytes from its two words. */
  lemma RawValue(raw: Raw)
    ensures BigEndian(raw) == HighWord(raw) * WORD + LowWord(raw)
  {
    assert raw == raw[..4] + raw[4..];
    BigEndianConcat(raw[..4], raw[4..]);
  }

  /** The right-hand side of a comparison: another timestamp, or an object with or without `raw()`. */
  datatype Operand = Stamp(ts: TimeStamp) | Foreign(raw: Option<Bytes>)

  function RawOf(other: Operand): Option<Bytes>
  {
    if other.Stamp? then Some(other.ts.raw) else other.raw
  }

  /** The six rich comparisons. */
  datatype Op = Lt | Le | Eq | Ne | Gt | Ge

  /**
   * `__eq__`, `__ne__`, `__lt__`, and the `__le__`, `__gt__`, `__ge__` that
   * `functools.total_ordering` derives from `__lt__` and `==`/`!=`.
   * `None` is `NotImplemented`, returned when `other` has no `raw()`.
   */
  function Compare(op: Op, self: TimeStamp, other: Operand): (r: Option<bool>)
    ensures r.None? <==> RawOf(other).None?
  {
    match RawOf(other)
    case None => None
    case Some(o) =>
      var lt := BytesLess(self.raw, o);
      match op
      case Eq => Some(self.raw == o)
      case Ne => Some(self.raw != o)
      case Lt => Some(lt)
      case Le => Some(lt || self.raw == o)
      case Gt => Some(!lt && self.raw != o)
      case Ge => Some(!lt)
  }

  /** The order of the numeric comparison `op`. */
  predicate NumericCompare(op: Op, x: int, y: int)
  {
    match op
    case Lt => x < y
    case Le => x <= y
    case Eq => x == y
    case Ne => x != y
    case Gt => x > y
    case Ge => x >= y
  }

  /** Between timestamps, every comparison is that of the 64-bit big-endian values. */
  lemma CompareNumeric(op: Op, s: TimeStamp, t: TimeStamp)
    ensures Compare(op, s, Stamp(t)) == Some(NumericCompare(op, BigEndian(s.raw), BigEndian(t.raw)))
  {
    BytesLessNumeric(s.raw, t.raw);
    if BigEndian(s.raw) == BigEndian(t.raw) {
      BigEndianInjective(s.raw, t.raw);
    }
  }

  // ---------------------------------------------------------------- laterThan

  /**
   * `laterThan`: self if it is already later than `other`, else `other`
   * with its second word one higher (no carry into the first).
   */
  function LaterThan(self: TimeStamp, other: Operand): (r: Result<TimeStamp>)
    ensures other.Foreign? ==> r == Err(ValueError)
    ensures other.Stamp? && BytesLess(other.ts.raw, self.raw) ==> r == Ok(self)
    ensures other.Stamp? && !BytesLess(other.ts.raw, self.raw) ==>
      (r.Err? <==> LowWord(other.ts.raw) == WORD - 1)
    ensures other.Stamp? && !BytesLess(other.ts.raw, self.raw) && r.Ok? ==>
      HighWord(r.value.raw) == HighWord(other.ts.raw) && LowWord(r.value.raw) == LowWord(other.ts.raw) + 1
    ensures r.Err? ==> r.error in {ValueError, StructError}
  {
    match other
    case Foreign(_) => Err(ValueError)
    case Stamp(o) =>
      if BytesLess(o.raw, self.raw) then Ok(self)
      else
        var later := PackWords(HighWord(o.raw), LowWord(o.raw) + 1);
        if later.Err? then Err(later.error) else New(One(BytesValue(later.value)))
  }

  /** What `laterThan` returns is strictly later than `other` and no earlier than self. */
  lemma LaterThanIsLater(self: TimeStamp, other: TimeStamp)
    requires LaterThan(self, Stamp(other)).Ok?
    ensures BytesLess(other.raw, LaterThan(self, Stamp(other)).value.raw)
    ensures !BytesLess(LaterThan(self, Stamp(other)).value.raw, self.raw)
  {
    var r := LaterThan(self, Stamp(other)).value;
    RawTotalOrder(r.raw, self.raw, other.raw);
    if !BytesLess(other.raw, self.raw) {
      RawValue(other.raw);
      RawValue(r.raw);
      BytesLessNumeric(other.raw, r.raw);
      RawTotalOrder(self.raw, other.raw, r.raw);
      RawTotalOrder(r.raw, self.raw, other.raw);
      RawTotalOrder(self.raw, r.raw, other.raw);
    }
  }

  // ---------------------------------------------------------------- hash

  /** The hash accumulator after `n` bytes: `x = b0 << 7`, then `x = (1000003 * x) ^ b` per byte. */
  function HashAcc(raw: Raw, n: nat): nat
    requires n <= 8
  {
    if n == 0 then raw[0] as nat * 128 else Xor(1000003 * HashAcc(raw, n - 1), raw[n - 1] as nat)
  }

  /** `_wraparound`: the value as a signed 64-bit C `long` (`ctypes.c_long`). */
  function ToLong(x: int): (r: int)
    ensures -(LONG_HALF as int) <= r < LONG_HALF
    ensures (x - r) % LONG == 0
  {
    var u := x % LONG;
    if u >= LONG_HALF then u - LONG else u
  }

  /** The hash: the accumulator XOR 8, as a C `long`, with -1 replaced by -2. */
  function HashOf(raw: Raw): (h: int)
    ensures h != -1 && -(LONG_HALF as int) <= h < LONG_HALF
  {
    var x := ToLong(Xor(HashAcc(raw, 8), 8));
    if x == -1 then -2 else x
  }

  /** `__hash__`. */
  method Hash(ts: TimeStamp) returns (h: int)
    ensures h == HashOf(ts.raw)
  {
    var a := ts.raw;
    var x: nat := a[0] as nat * 128;
    var i := 0;
    while i < |a|
      invariant 0 <= i <= |a| && x == HashAcc(a, i)
    {
      x := Xor(1000003 * x, a[i] as nat);
      i := i + 1;
    }
    x := Xor(x, 8);
    h := ToLong(x);
    if h == -1 {
      h := -2;
    }
  }

  /** The zero stamp hashes to 8, and the one ending in 1 to 9. */
  lemma HashExamples()
    ensures HashOf(ZERO) == 8
    ensures HashOf([0, 0, 0, 0, 0, 0, 0, 1]) == 9
  {
    var z: Raw := ZERO;
    var one: Raw := [0, 0, 0, 0, 0, 0, 0, 1];
    assert Xor(0, 0) == 0;
    assert HashAcc(z, 8) == 0 && HashAcc(one, 7) == 0;
    assert Xor(0, 1) == 1;
    assert Xor(0, 8) == 8 by {
      assert Xor(0, 1) == 1 && Xor(0, 2) == 2 && Xor(0, 4) == 4;
    }
    assert Xor(1, 8) == 9 by {
      assert Xor(0, 4) == 4 && Xor(0, 2) == 2;
    }
  }
}
