/**
 * The C `TimeStamp` (src/persistent/_timestamp.c): the same eight bytes as
 * the Python class, packed and unpacked with explicit unsigned arithmetic,
 * built from a date with range checks, and advanced by `laterThan` with a
 * byte carry and a calendar rollover.
 */
module CTimeStamp {
  import opened Common
  import opened Arith
  import Py = PyTimeStamp

  const WORD: nat := Py.WORD
  const LONG: nat := Py.LONG
  const LONG_HALF: nat := Py.LONG_HALF

  const MINUTES_PER_DAY: nat := 1440
  const MINUTES_PER_MONTH: nat := 31 * 1440
  const MINUTES_PER_YEAR: nat := 12 * 31 * 1440

  /** A C `int`. */
  type CInt = x: int | -0x8000_0000 <= x < 0x8000_0000

  /** A C `unsigned int`. */
  type Word = x: nat | x < 0x1_0000_0000

  type Raw = Py.Raw

  /** `TS_PACK_UINT32_INTO_BYTES`. */
  function Pack(v: Word): (b: Bytes)
    ensures |b| == 4
  {
    [(v / 0x1000000) as byte, ((v % 0x1000000) / 0x10000) as byte,
     ((v % 0x10000) / 0x100) as byte, (v % 0x100) as byte]
  }

  /** `TS_UNPACK_UINT32_FROM_BYTES` on the four bytes at the start of `b`. */
  function Unpack(b: Bytes): (v: Word)
    requires |b| >= 4
  {
    b[0] as nat * 0x1000000 + b[1] as nat * 0x10000 + b[2] as nat * 0x100 + b[3] as nat
  }

  /** Unpacking inverts packing, for every unsigned 32-bit value. */
  lemma UnpackPack(v: Word)
    ensures Unpack(Pack(v)) == v
  {
    var b := Pack(v);
    DivDiv(v, 0x10000, 0x100);
    DivDiv(v, 0x100, 0x100);
    ModMod(v, 0x10000, 0x100);
    ModMod(v, 0x100, 0x100);
    assert v == (v / 0x1000000) * 0x1000000 + v % 0x1000000;
    assert v % 0x1000000 == ((v % 0x1000000) / 0x10000) * 0x10000 + (v % 0x1000000) % 0x10000;
    assert v % 0x10000 == ((v % 0x10000) / 0x100) * 0x100 + (v % 0x10000) % 0x100;
  }

  /** Packing inverts unpacking: four bytes are one word. */
  lemma PackUnpack(b: Bytes)
    requires |b| == 4
    ensures Pack(Unpack(b)) == b
  {
    var v := Unpack(b);
    DivModUnique(v, 0x1000000, b[0] as nat, b[1] as nat * 0x10000 + b[2] as nat * 0x100 + b[3] as nat);
    DivModUnique(v % 0x1000000, 0x10000, b[1] as nat, b[2] as nat * 0x100 + b[3] as nat);
    DivModUnique(v, 0x10000, b[0] as nat * 0x100 + b[1] as nat, b[2] as nat * 0x100 + b[3] as nat);
    DivModUnique(v % 0x10000, 0x100, b[2] as nat, b[3] as nat);
    DivModUnique(v, 0x100, b[0] as nat * 0x10000 + b[1] as nat * 0x100 + b[2] as nat, b[3] as nat);
  }

  /** The macros are `struct`'s `>I`: the big-endian value of the four bytes. */
  lemma UnpackIsBigEndian(b: Bytes)
    requires |b| == 4
    ensures Unpack(b) == BigEndian(b)
  {
    assert b[..1][..0] == [] && b[..2][..1] == b[..1] && b[..3][..2] == b[..2] && b[..|b| - 1] == b[..3];
    assert BigEndian(b[..1]) == b[0] as nat;
    assert BigEndian(b[..2]) == b[0] as nat * 256 + b[1] as nat;
    assert BigEndian(b[..3]) == (b[0] as nat * 256 + b[1] as nat) * 256 + b[2] as nat;
  }

  // ---------------------------------------------------------------- calendar

  /** `leap`: the Gregorian rule (C's `%` and Dafny's agree on whether a remainder is zero). */
  predicate Leap(year: int)
  {
    year % 4 == 0 && (year % 100 != 0 || year % 400 == 0)
  }

  /** `month_len`: non-leap and leap month lengths. */
  const MONTH_LEN: seq<seq<int>> := [
    [31, 28, 31, 30, 31, 30, 31, 31, 30, 31, 30, 31],
    [31, 29, 31, 30, 31, 30, 31, 31, 30, 31, 30, 31]
  ]

  /** `days_in_month` (months counted from 0). */
  function DaysInMonth(year: int, month: int): (n: int)
    requires 0 <= month < 12
    ensures 28 <= n <= 31
  {
    MONTH_LEN[if Leap(year) then 1 else 0][month]
  }

  /** The month lengths of the Gregorian calendar. */
  lemma DaysInMonthIsGregorian(year: int, month: int)
    requires 0 <= month < 12
    ensures month == 1 ==> DaysInMonth(year, month) == (if Leap(year) then 29 else 28)
    ensures month in {3, 5, 8, 10} ==> DaysInMonth(year, month) == 30
    ensures month !in {1, 3, 5, 8, 10} ==> DaysInMonth(year, month) == 31
  {
  }

  /** `TimeStampParts`: year, month, day and minute of the day. */
  datatype Parts = Parts(y: int, m: int, d: int, mi: int)

  /** The first word of a date given as parts. */
  function PartsMinutes(p: Parts): int
  {
    (((p.y - 1900) * 12 + p.m - 1) * 31 + p.d - 1) * MINUTES_PER_DAY + p.mi
  }

  /** `TimeStamp_unpack`. */
  function UnpackParts(data: Raw): (p: Parts)
    ensures p.y >= 1900 && 1 <= p.m <= 12 && 1 <= p.d <= 31 && 0 <= p.mi < MINUTES_PER_DAY
  {
    var a := Unpack(data);
    Parts(a / MINUTES_PER_YEAR + 1900, (a % MINUTES_PER_YEAR) / MINUTES_PER_MONTH + 1,
          (a % MINUTES_PER_MONTH) / MINUTES_PER_DAY + 1, a % MINUTES_PER_DAY)
  }

  /** The parts are a decomposition of the first word. */
  lemma UnpackMinutes(data: Raw)
    ensures PartsMinutes(UnpackParts(data)) == Unpack(data)
  {
    var a := Unpack(data);
    var p := UnpackParts(data);
    DivDiv(a, MINUTES_PER_MONTH, 12);
    DivDiv(a, MINUTES_PER_DAY, 31);
    DivDiv(a, MINUTES_PER_DAY, 31 * 12);
    var mm := a / MINUTES_PER_MONTH;
    var dd := a / MINUTES_PER_DAY;
    assert (p.y - 1900) * 12 + p.m - 1 == mm;
    assert mm * 31 + p.d - 1 == dd;
  }

  /** The C accessors agree with the Python `_parseRaw`, the hour and minute being `mi / 60` and `mi % 60`. */
  lemma UnpackAgreesWithPython(data: Raw)
    ensures var p, d := UnpackParts(data), Py.ParseRaw(data).0;
      p.y == d.year && p.m == d.month && p.d == d.day && p.mi / 60 == d.hour && p.mi % 60 == d.minute
  {
    var a := Unpack(data);
    UnpackIsBigEndian(data[..4]);
    assert data[..4][..4] == data[..4];
    DivDiv(a, MINUTES_PER_MONTH, 12);
    DivDiv(a, MINUTES_PER_DAY, 31);
    DivDiv(a, 60, 24);
    ModMod(a, 60, 24);
  }

  // ---------------------------------------------------------------- FromDate

  /** The checks of `TimeStamp_FromDate`. */
  predicate ValidDate(year: int, month: int, day: int, hour: int, min: int)
  {
    year >= 1900 && 1 <= month <= 12 && 1 <= day <= DaysInMonth(year, month - 1)
    && 0 <= hour <= 23 && 0 <= min <= 59
  }

  /** The unsigned arithmetic of `TimeStamp_FromDate`, wrapping at every step. */
  function WrappedMinutes(year: int, month: int, day: int, hour: int, min: int): (w: Word)
    requires ValidDate(year, month, day, hour, min)
  {
    var years := (year - 1900) % WORD;
    var months := (years * 12 + (month - 1)) % WORD;
    var days := (months * 31 + (day - 1)) % WORD;
    var hours := (days * 24 + hour) % WORD;
    (hours * 60 + min) % WORD
  }

  /** Wrapping at every step is wrapping once at the end. */
  lemma WrappedMinutesOf(year: int, month: int, day: int, hour: int, min: int)
    requires ValidDate(year, month, day, hour, min)
    ensures WrappedMinutes(year, month, day, hour, min) == Py.Minutes(Py.Date(year, month, day, hour, min)) % WORD
  {
    var y := year - 1900;
    var mo := y * 12 + (month - 1);
    var da := mo * 31 + (day - 1);
    var ho := da * 24 + hour;
    assert Py.Minutes(Py.Date(year, month, day, hour, min)) == ho * 60 + min;
    var years := (year - 1900) % WORD;
    var months := (years * 12 + (month - 1)) % WORD;
    ModAffine(y, 12, month - 1, WORD);
    assert months == mo % WORD;
    var days := (months * 31 + (day - 1)) % WORD;
    ModAffine(mo, 31, day - 1, WORD);
    assert days == da % WORD;
    var hours := (days * 24 + hour) % WORD;
    ModAffine(da, 24, hour, WORD);
    assert hours == ho % WORD;
    ModAffine(ho, 60, min, WORD);
    assert (hours * 60 + min) % WORD == (ho * 60 + min) % WORD;
    assert WrappedMinutes(year, month, day, hour, min) == (hours * 60 + min) % WORD;
  }

  /**
   * `TimeStamp_FromDate`: a ValueError for a field out of range, else the
   * wrapped minutes and the seconds word, packed. `sec` is the word
   * `(unsigned int)(sec / TS_SECOND_BYTES_BIAS)`.
   */
  function FromDate(year: CInt, month: CInt, day: CInt, hour: CInt, min: CInt, sec: Word): (r: Result<Raw>)
    ensures r.Ok? <==> ValidDate(year, month, day, hour, min)
    ensures r.Err? ==> r.error == ValueError
    ensures r.Ok? ==> Unpack(r.value) == WrappedMinutes(year, month, day, hour, min) && Unpack(r.value[4..]) == sec
  {
    if year < 1900 || month < 1 || month > 12 || day < 1 || day > DaysInMonth(year, month - 1)
       || hour < 0 || hour > 23 || min < 0 || min > 59
    then Err(ValueError)
    else
      var w := WrappedMinutes(year, month, day, hour, min);
      var raw: Raw := Pack(w) + Pack(sec);
      UnpackPack(w);
      UnpackPack(sec);
      assert raw[4..] == Pack(sec);
      Ok(raw)
  }

  /** A valid date whose minutes fit in a word unpacks to itself. */
  lemma FromDateUnpacks(year: CInt, month: CInt, day: CInt, hour: CInt, min: CInt, sec: Word)
    requires ValidDate(year, month, day, hour, min)
    requires Py.Minutes(Py.Date(year, month, day, hour, min)) < WORD
    ensures UnpackParts(FromDate(year, month, day, hour, min, sec).value) == Parts(year, month, day, hour * 60 + min)
  {
    var date := Py.Date(year, month, day, hour, min);
    var raw := FromDate(year, month, day, hour, min, sec).value;
    WrappedMinutesOf(year, month, day, hour, min);
    Py.ParseOfMinutes(date);
    DivModUnique(Py.Minutes(date), WORD, 0, Py.Minutes(date));
    UnpackIsBigEndian(raw[..4]);
    assert raw[..4][..4] == raw[..4];
    UnpackAgreesWithPython(raw);
    var p := UnpackParts(raw);
    assert p.mi == (p.mi / 60) * 60 + p.mi % 60;
  }

  // ---------------------------------------------------------------- comparison

  /** The sign of `memcmp` over two byte strings of one length. */
  function Memcmp(a: Bytes, b: Bytes): (r: int)
    requires |a| == |b|
    ensures r in {-1, 0, 1}
  {
    if a == [] then 0
    else if a[0] < b[0] then -1
    else if a[0] > b[0] then 1
    else Memcmp(a[1..], b[1..])
  }

  /** `memcmp` orders as Python orders bytes. */
  lemma {:induction false} MemcmpOrder(a: Bytes, b: Bytes)
    requires |a| == |b|
    ensures Memcmp(a, b) < 0 <==> Py.BytesLess(a, b)
    ensures Memcmp(a, b) > 0 <==> Py.BytesLess(b, a)
    ensures Memcmp(a, b) == 0 <==> a == b
  {
    if a != [] {
      MemcmpOrder(a[1..], b[1..]);
      if a[0] == b[0] && a[1..] == b[1..] {
        assert a == [a[0]] + a[1..] && b == [b[0]] + b[1..];
      }
    }
  }

  /** The other operand: a timestamp, or an object of another type. */
  datatype Operand = Stamp(data: Raw) | OtherType

  /** `TimeStamp_richcompare`: `None` is `Py_NotImplemented`. */
  function RichCompare(self: Raw, other: Operand, op: Py.Op): (r: Option<bool>)
    ensures r.None? <==> other.OtherType?
  {
    match other
    case OtherType => None
    case Stamp(o) =>
      var cmp := Memcmp(self, o);
      match op
      case Lt => Some(cmp < 0)
      case Le => Some(cmp <= 0)
      case Eq => Some(cmp == 0)
      case Ne => Some(cmp != 0)
      case Gt => Some(cmp > 0)
      case Ge => Some(cmp >= 0)
  }

  /** The C and Python comparisons agree on timestamps. */
  lemma RichCompareAgrees(self: Raw, other: Raw, op: Py.Op)
    ensures RichCompare(self, Stamp(other), op) == Py.Compare(op, Py.TimeStamp(self), Py.Stamp(Py.TimeStamp(other)))
  {
    MemcmpOrder(self, other);
    Py.RawTotalOrder(self, other, other);
  }

  // ---------------------------------------------------------------- laterThan

  /** The parts one minute later: the day, month and year roll over at their ends. */
  function NextMinute(p: Parts): Parts
    requires 1 <= p.m <= 12
  {
    if p.mi >= 1439 then
      if p.d == DaysInMonth(p.y, p.m - 1) then
        if p.m == 12 then Parts(p.y + 1, 1, 1, 0) else Parts(p.y, p.m + 1, 1, 0)
      else Parts(p.y, p.m, p.d + 1, 0)
    else Parts(p.y, p.m, p.d, p.mi + 1)
  }

  /** The C ints `laterThan` passes to `TimeStamp_FromDate`. */
  function CalendarNext(o: Raw): (r: Result<Raw>)
  {
    var q := NextMinute(UnpackParts(o));
    assert q.y <= 0x1_0000_0000 / MINUTES_PER_YEAR + 1901;
    FromDate(q.y, q.m, q.d, q.mi / 60, q.mi % 60, 0)
  }

  /**
   * What `laterThan` computes, in words: self when it is greater; else
   * `other` with one more second word; and when that word is full, the
   * next minute with zero seconds.
   */
  function Later(self: Raw, o: Raw): Result<Raw>
  {
    if Memcmp(self, o) > 0 then Ok(self)
    else if Unpack(o[4..]) < WORD - 1 then Ok(o[..4] + Pack(Unpack(o[4..]) + 1))
    else CalendarNext(o)
  }

  /** `TimeStamp_laterThan`: `self` when greater, else the carry loop, else the next minute. */
  method LaterThan(self: Raw, other: Operand) returns (r: Result<Raw>)
    ensures other.OtherType? ==> r == Err(TypeError)
    ensures other.Stamp? ==> r == Later(self, other.data)
  {
    if other.OtherType? {
      return Err(TypeError);
    }
    var o := other.data;
    if Memcmp(self, o) > 0 {
      return Ok(self);
    }
    var carried, n := IncrementSeconds(o);
    if carried {
      return Ok(n);
    }
    r := CalendarNext(o);
  }

  /**
   * The carry loop of `TimeStamp_laterThan` over a copy of the bytes `o`:
   * it carries into the second word only, and succeeds exactly when that
   * word is not full, giving `o` with one more second word.
   */
  method IncrementSeconds(o: Raw) returns (carried: bool, n: Raw)
    ensures carried <==> Unpack(o[4..]) < WORD - 1
    ensures carried ==> n == o[..4] + Pack(Unpack(o[4..]) + 1)
  {
    var buf := new byte[8](k => if k < 8 then o[k] else 0);
    var i := 7;
    while i > 3
      invariant 3 <= i <= 7
      invariant forall k | 0 <= k <= i :: buf[k] == o[k]
      invariant forall k | i < k < 8 :: buf[k] == 0 && o[k] == 255
    {
      if buf[i] == 255 {
        buf[i] := 0;
      } else {
        buf[i] := buf[i] + 1;
        assert buf[..][..i] == o[..i];
        Carried(o, buf[..], i);
        return true, buf[..];
      }
      i := i - 1;
    }
    assert Unpack(o[4..]) == WORD - 1;
    return false, buf[..];
  }

  /** A byte below 255 followed by 255s, incremented with carry, adds one to the second word. */
  lemma Carried(o: Raw, n: Bytes, i: int)
    requires 4 <= i <= 7 && |n| == 8
    requires n[..i] == o[..i] && o[i] < 255 && n[i] == o[i] + 1
    requires forall k | i < k < 8 :: n[k] == 0 && o[k] == 255
    ensures Unpack(o[4..]) < WORD - 1 && n == o[..4] + Pack(Unpack(o[4..]) + 1)
  {
    assert n[..4] == o[..4] by {
      assert n[..i][..4] == n[..4] && o[..i][..4] == o[..4];
    }
    assert forall k | 4 <= k < i :: n[k] == o[k] by {
      forall k | 4 <= k < i
        ensures n[k] == o[k]
      {
        assert n[..i][k] == o[..i][k];
      }
    }
    assert Unpack(n[4..]) == Unpack(o[4..]) + 1;
    PackUnpack(n[4..]);
    assert n == n[..4] + n[4..];
  }

  /** `laterThan` fails only for a stored day past the end of its month, with the second word full. */
  lemma LaterSucceeds(self: Raw, o: Raw)
    ensures var p := UnpackParts(o);
      Later(self, o).Err? <==>
        Memcmp(self, o) <= 0 && Unpack(o[4..]) == WORD - 1 && p.d > DaysInMonth(p.y, p.m - 1)
    ensures Later(self, o).Err? ==> Later(self, o).error == ValueError
  {
  }

  /** The first word one minute later, before it is wrapped. */
  lemma NextMinuteMinutes(o: Raw)
    requires UnpackParts(o).d <= DaysInMonth(UnpackParts(o).y, UnpackParts(o).m - 1)
    ensures var n := PartsMinutes(NextMinute(UnpackParts(o)));
      n > Unpack(o) && (n == Unpack(o) + 1 || (n % MINUTES_PER_MONTH == 0 && n <= Unpack(o) + 4 * MINUTES_PER_DAY))
  {
    UnpackMinutes(o);
    var p := UnpackParts(o);
    var q := NextMinute(p);
    if p.mi >= 1439 && p.d == DaysInMonth(p.y, p.m - 1) {
      var k := (q.y - 1900) * 12 + q.m - 1;
      assert k == (p.y - 1900) * 12 + p.m;
      assert PartsMinutes(q) == k * MINUTES_PER_MONTH;
      assert (k * MINUTES_PER_MONTH) % MINUTES_PER_MONTH == 0 by {
        DivModUnique(k * MINUTES_PER_MONTH, MINUTES_PER_MONTH, k, 0);
      }
    }
  }

  /**
   * What `laterThan` returns is later than `other`, unless `other` is the
   * largest stamp: then the minutes wrap to the smallest one.
   */
  lemma LaterIsLater(self: Raw, o: Raw)
    requires Later(self, o).Ok? && o != [255, 255, 255, 255, 255, 255, 255, 255]
    ensures Py.BytesLess(o, Later(self, o).value)
  {
    MemcmpOrder(self, o);
    if Memcmp(self, o) <= 0 {
      if Unpack(o[4..]) < WORD - 1 {
        CarryIsLater(o);
      } else {
        RolloverIsLater(o);
      }
    }
  }

  /** The value of raw bytes from the two unpacked words. */
  lemma RawWords(o: Raw)
    ensures BigEndian(o) == Unpack(o) * WORD + Unpack(o[4..])
  {
    Py.RawValue(o);
    UnpackIsBigEndian(o[..4]);
    UnpackIsBigEndian(o[4..]);
    assert o[..4][..4] == o[..4];
  }

  /** One more second word is later. */
  lemma CarryIsLater(o: Raw)
    requires Unpack(o[4..]) < WORD - 1
    ensures Py.BytesLess(o, o[..4] + Pack(Unpack(o[4..]) + 1))
  {
    var r: Raw := o[..4] + Pack(Unpack(o[4..]) + 1);
    RawWords(o);
    RawWords(r);
    UnpackPack(Unpack(o[4..]) + 1);
    assert r[..4] == o[..4] && r[4..] == Pack(Unpack(o[4..]) + 1);
    Py.BytesLessNumeric(o, r);
  }

  /** The next minute with zero seconds is later, unless the first word was full. */
  lemma RolloverIsLater(o: Raw)
    requires Unpack(o[4..]) == WORD - 1 && CalendarNext(o).Ok?
    requires o != [255, 255, 255, 255, 255, 255, 255, 255]
    ensures Py.BytesLess(o, CalendarNext(o).value)
  {
    var r := CalendarNext(o).value;
    var a := Unpack(o);
    NextMinuteMinutes(o);
    var q := NextMinute(UnpackParts(o));
    var n := PartsMinutes(q);
    assert n < WORD by {
      if n == a + 1 {
        if a == WORD - 1 {
          MaximumStamp(o);
        }
      } else {
        MonthStartFits(n, a);
      }
    }
    WrappedMinutesOf(q.y, q.m, q.d, q.mi / 60, q.mi % 60);
    assert Py.Minutes(Py.Date(q.y, q.m, q.d, q.mi / 60, q.mi % 60)) == n;
    DivModUnique(n, WORD, 0, n);
    RawWords(o);
    RawWords(r);
    LeadingDigit(a, WORD - 1, n, 0, WORD);
    Py.BytesLessNumeric(o, r);
  }

  /** Both words full is the all-255 stamp. */
  lemma MaximumStamp(o: Raw)
    requires Unpack(o) == WORD - 1 && Unpack(o[4..]) == WORD - 1
    ensures o == [255, 255, 255, 255, 255, 255, 255, 255]
  {
    PackUnpack(o[..4]);
    PackUnpack(o[4..]);
    assert o[..4][..4] == o[..4];
    UnpackPack(WORD - 1);
    assert o == o[..4] + o[4..];
  }

  /** A month start at most four days after a word is a word. */
  lemma MonthStartFits(n: nat, a: Word)
    requires n % MINUTES_PER_MONTH == 0 && n <= a + 4 * MINUTES_PER_DAY
    ensures n < WORD
  {
    var k := n / MINUTES_PER_MONTH;
    assert n == k * MINUTES_PER_MONTH;
    assert k < 96214;
  }

  /** The largest stamp is followed by the smallest: its minutes wrap past 2^32. */
  lemma LaterWrapsAtMaximum(self: Raw)
    ensures Later(self, [255, 255, 255, 255, 255, 255, 255, 255]) == Ok(ZERO)
  {
    var o: Raw := [255, 255, 255, 255, 255, 255, 255, 255];
    MemcmpOrder(self, o);
    assert Unpack(o) == WORD - 1 && Unpack(o[4..]) == WORD - 1;
    RawWords(o);
    RawWords(self);
    Py.BytesLessNumeric(o, self);
    MaximumParts(o);
    assert NextMinute(UnpackParts(o)) == Parts(9917, 10, 14, 256);
    MaximumNextMinuteWraps();
    assert Pack(0) + Pack(0) == ZERO;
  }

  /** The largest stamp is 14 October 9917, 04:15. */
  lemma MaximumParts(o: Raw)
    requires Unpack(o) == WORD - 1
    ensures UnpackParts(o) == Parts(9917, 10, 14, 255)
  {
    DivModUnique(WORD - 1, MINUTES_PER_YEAR, 8017, 420735);
    DivModUnique(420735, MINUTES_PER_MONTH, 9, 18975);
    DivModUnique(WORD - 1, MINUTES_PER_MONTH, 96213, 18975);
    DivModUnique(18975, MINUTES_PER_DAY, 13, 255);
    DivModUnique(WORD - 1, MINUTES_PER_DAY, 2982616, 255);
  }

  /** One minute after the largest stamp is a valid date whose minutes are 2^32, wrapped to 0. */
  lemma MaximumNextMinuteWraps()
    ensures DaysInMonth(9917, 9) == 31 && ValidDate(9917, 10, 14, 4, 16)
    ensures WrappedMinutes(9917, 10, 14, 4, 16) == 0
  {
  }

  // ---------------------------------------------------------------- hash

  /** `TimeStamp_hash`: the `long` is held as its 64-bit two's-complement pattern. */
  method Hash(data: Raw) returns (h: int)
    ensures h == Py.HashOf(data)
  {
    var x: nat := data[0] as nat * 128;
    Pow2Long();
    DivModUnique(x, LONG, 0, x);
    var len := 8;
    var p := 0;
    while len > 0
      invariant 0 <= len <= 8 && p == 8 - len
      invariant x < LONG && x == Py.HashAcc(data, p) % LONG
    {
      len := len - 1;
      HashStep(data, p, x);
      x := Xor((1000003 * x) % LONG, data[p] as nat);
      p := p + 1;
    }
    XorMod(Py.HashAcc(data, 8), 8, 64);
    DivModUnique(8, LONG, 0, 8);
    x := Xor(x, 8);
    XorBound(x, 8, 64);
    h := if x >= LONG_HALF then x - LONG else x;
    if h == -1 {
      h := -2;
    }
  }

  lemma Pow2Long()
    ensures Pow2(64) == LONG
  {
    assert Pow2(8) == 256 by {
      assert Pow2(1) == 2 && Pow2(2) == 4 && Pow2(3) == 8 && Pow2(4) == 16;
      assert Pow2(5) == 32 && Pow2(6) == 64 && Pow2(7) == 128;
    }
    Pow2Add(8, 8);
    Pow2Add(16, 16);
    Pow2Add(32, 32);
  }

  /** One step of the wrapping loop tracks the unbounded accumulator. */
  lemma HashStep(data: Raw, p: nat, x: nat)
    requires p < 8 && x == Py.HashAcc(data, p) % LONG
    ensures Xor((1000003 * x) % LONG, data[p] as nat) == Py.HashAcc(data, p + 1) % LONG
    ensures Xor((1000003 * x) % LONG, data[p] as nat) < LONG
  {
    var acc := Py.HashAcc(data, p);
    var b := data[p] as nat;
    Pow2Long();
    ModMul(acc, 1000003, LONG);
    assert acc * 1000003 == 1000003 * acc && x * 1000003 == 1000003 * x;
    XorMod(1000003 * acc, b, 64);
    DivModUnique(b, LONG, 0, b);
    XorBound((1000003 * x) % LONG, b, 64);
  }

  // ---------------------------------------------------------------- constructor

  /** The arguments `TimeStamp_TimeStamp` parses. */
  datatype Args =
    | RawBytes(b: Bytes)                                       // "y#"
    | Ints(y: int, mo: int, d: int, h: Option<int>, mi: Option<int>, sec: Option<Word>)  // "iii|iid"
    | Unparsable                                               // neither format

  predicate IsCInt(x: int)
  {
    -0x8000_0000 <= x < 0x8000_0000
  }

  /** `TimeStamp_TimeStamp`: eight bytes, or a date whose hour, minute and seconds default to 0. */
  function New(args: Args): (r: Result<Raw>)
    ensures args.RawBytes? ==> (r.Ok? <==> |args.b| == 8) && (r.Ok? ==> r.value == args.b)
    ensures args.RawBytes? && r.Err? ==> r.error == ValueError
    ensures args.Unparsable? ==> r == Err(TypeError)
    ensures args.Ints? && r.Err? ==> r.error in {OverflowError, ValueError}
    ensures args.Ints? ==> (r.Err? && r.error == OverflowError <==>
      !(IsCInt(args.y) && IsCInt(args.mo) && IsCInt(args.d)
        && (args.h.None? || IsCInt(args.h.value)) && (args.mi.None? || IsCInt(args.mi.value))))
    ensures (args.Ints? && IsCInt(args.y) && IsCInt(args.mo) && IsCInt(args.d)
             && (args.h.None? || IsCInt(args.h.value)) && (args.mi.None? || IsCInt(args.mi.value))) ==>
        var hour := if args.h.Some? then args.h.value else 0;
        var min := if args.mi.Some? then args.mi.value else 0;
        && r == FromDate(args.y, args.mo, args.d, hour, min, if args.sec.Some? then args.sec.value else 0)
        && (r.Ok? <==> ValidDate(args.y, args.mo, args.d, hour, min))
  {
    match args
    case RawBytes(b) => if |b| != 8 then Err(ValueError) else Ok(b)
    case Unparsable => Err(TypeError)
    case Ints(y, mo, d, h, mi, sec) =>
      var hour := if h.Some? then h.value else 0;
      var min := if mi.Some? then mi.value else 0;
      if !(IsCInt(y) && IsCInt(mo) && IsCInt(d) && IsCInt(hour) && IsCInt(min)) then Err(OverflowError)
      else FromDate(y, mo, d, hour, min, if sec.Some? then sec.value else 0)
  }
}
