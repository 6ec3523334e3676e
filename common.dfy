/** Shared vocabulary: optional values, Python/C error kinds, bytes and jars. */
module Common {

  datatype Option<T> = None | Some(value: T)

  /** The exception classes the modelled code raises. */
  datatype Error =
    | TypeError
    | ValueError
    | KeyError
    | AttributeError
    | AssertionError
    | SystemError
    | StructError
    | OverflowError
    | IndexError
    /** An exception raised by code outside the model (a jar, an overridden hook). */
    | CallbackError

  /** The result of a call that returns nothing or raises. */
  datatype Outcome = Pass | Fail(error: Error)
  {
    predicate IsFailure() { Fail? }
  }

  datatype Result<+T> = Ok(value: T) | Err(error: Error)

  newtype byte = x: int | 0 <= x < 256

  type Bytes = seq<byte>

  /** An argument that is bytes or something else. */
  datatype BytesArg = BytesValue(b: Bytes) | NotBytes

  /** 256 to the power `n`: the number of values `n` bytes hold. */
  function Pow256(n: nat): (r: nat)
    ensures r >= 1
  {
    if n == 0 then 1 else 256 * Pow256(n - 1)
  }

  /** The big-endian unsigned value of a byte string (`struct.unpack` with `>I` or `>Q`). */
  function BigEndian(b: Bytes): (v: nat)
    ensures v < Pow256(|b|)
  {
    if b == [] then 0 else BigEndian(b[..|b| - 1]) * 256 + b[|b| - 1] as nat
  }

  /** `v` written as `n` big-endian bytes (`struct.pack` with `>I` for n = 4). */
  function ToBigEndian(v: nat, n: nat): (b: Bytes)
    requires v < Pow256(n)
    ensures |b| == n && BigEndian(b) == v
  {
    if n == 0 then []
    else
      var r := ToBigEndian(v / 256, n - 1) + [(v % 256) as byte];
      assert r[..n - 1] == ToBigEndian(v / 256, n - 1);
      r
  }

  /** Writing back the value read from some bytes gives those bytes. */
  lemma {:induction false} ToBigEndianOf(b: Bytes)
    ensures ToBigEndian(BigEndian(b), |b|) == b
  {
    if b != [] {
      var p := b[..|b| - 1];
      ToBigEndianOf(p);
      assert BigEndian(b) / 256 == BigEndian(p) && BigEndian(b) % 256 == b[|b| - 1] as nat;
      assert b == p + [b[|b| - 1]];
    }
  }

  lemma MulAssoc(a: int, b: int, c: int)
    ensures a * (b * c) == (a * b) * c
  {
  }

  /** The value of a concatenation: the first part shifted past the second. */
  lemma {:induction false} BigEndianConcat(a: Bytes, b: Bytes)
    ensures BigEndian(a + b) == BigEndian(a) * Pow256(|b|) + BigEndian(b)
    decreases |b|
  {
    if b == [] {
      assert a + b == a;
    } else {
      var c := a + b;
      var p := b[..|b| - 1];
      assert c[..|c| - 1] == a + p;
      BigEndianConcat(a, p);
      var A, P, Q, x := BigEndian(a), Pow256(|p|), BigEndian(p), b[|b| - 1] as nat;
      assert BigEndian(c) == (A * P + Q) * 256 + x;
      MulAssoc(A, P, 256);
      assert Pow256(|b|) == P * 256 && BigEndian(b) == Q * 256 + x;
    }
  }

  /** Object ids are byte strings. */
  type Oid = Bytes

  /** A data manager ("jar") is external; only its identity matters here. */
  datatype Jar = Jar(id: nat)

  /** A Python argument seen only through its truth value (or None). */
  datatype Truth = PyNone | Truthy | Falsy

  /** The length of an 8-byte serial or timestamp. */
  const SERIAL_LEN: nat := 8

  /** Eight zero bytes: the serial of an object that has none. */
  const ZERO: Bytes := [0, 0, 0, 0, 0, 0, 0, 0]

  predicate StartsWith(s: string, prefix: string)
  {
    |prefix| <= |s| && s[..|prefix|] == prefix
  }

  /** The elements of `s`. */
  function SetOf<T(!new)>(s: seq<T>): (r: set<T>)
    ensures forall x :: x in r <==> x in s
  {
    set x | x in s
  }

  /** The elements of a prefix one longer. */
  lemma SetOfPrefix<T(!new)>(s: seq<T>, i: nat)
    requires i < |s|
    ensures SetOf(s[..i + 1]) == SetOf(s[..i]) + {s[i]}
  {
    assert s[..i + 1] == s[..i] + [s[i]];
  }

  /** What a prefix one longer holds. */
  lemma PrefixMembers<T>(s: seq<T>, i: nat)
    requires i < |s|
    ensures forall x :: x in s[..i + 1] <==> x in s[..i] || x == s[i]
  {
    assert s[..i + 1] == s[..i] + [s[i]];
  }

  /** Removing keys one more at a time. */
  lemma MapRemoveMore<K, V>(m: map<K, V>, s: set<K>, x: K)
    ensures m - s - {x} == m - (s + {x})
  {
  }

  predicate Distinct<T(==)>(s: seq<T>)
  {
    forall i, j :: 0 <= i < j < |s| ==> s[i] != s[j]
  }

  /** The position of the first occurrence of `x` in `s`. */
  function IndexOf<T(==)>(s: seq<T>, x: T): (i: nat)
    requires x in s
    ensures i < |s| && s[i] == x && x !in s[..i]
  {
    if s[0] == x then 0 else 1 + IndexOf(s[1..], x)
  }

  /** `s` without the element at position `k`. */
  function RemoveAt<T>(s: seq<T>, k: nat): (r: seq<T>)
    requires k < |s|
    ensures |r| == |s| - 1
    ensures forall i {:trigger r[i]} :: 0 <= i < k ==> r[i] == s[i]
    ensures forall i {:trigger r[i]} :: k <= i < |r| ==> r[i] == s[i + 1]
  {
    s[..k] + s[k + 1..]
  }

  /** A position holding `x` before which `x` does not occur is the one `IndexOf` finds. */
  lemma IndexOfFirst<T>(s: seq<T>, x: T, i: nat)
    requires i < |s| && s[i] == x && x !in s[..i]
    ensures IndexOf(s, x) == i
  {
  }

  /** The elements of `s` whose positions are not in `drop`, in order. */
  function Keep<T>(s: seq<T>, drop: set<int>): (r: seq<T>)
    ensures |r| <= |s|
  {
    if s == [] then []
    else Keep(s[..|s| - 1], drop) + (if |s| - 1 in drop then [] else [s[|s| - 1]])
  }

  /** Positions at or past the end of `s` do not affect `Keep`. */
  lemma {:induction false} KeepIgnoresBeyond<T>(s: seq<T>, drop: set<int>, m: int)
    requires m >= |s|
    ensures Keep(s, drop + {m}) == Keep(s, drop)
    decreases |s|
  {
    if s != [] {
      KeepIgnoresBeyond(s[..|s| - 1], drop, m);
    }
  }

  /**
   * Removing position `m` and then the positions of `drop`, all before `m`,
   * is dropping `drop` and `m` at once: earlier positions do not move.
   */
  lemma {:induction false} KeepAfterRemove<T>(s: seq<T>, drop: set<int>, m: nat)
    requires m < |s| && forall x | x in drop :: x < m
    ensures Keep(RemoveAt(s, m), drop) == Keep(s, drop + {m})
    decreases |s|
  {
    var t := s[..|s| - 1];
    if m == |s| - 1 {
      assert RemoveAt(s, m) == t;
      KeepIgnoresBeyond(t, drop, m);
    } else {
      assert RemoveAt(s, m) == RemoveAt(t, m) + [s[|s| - 1]];
      assert RemoveAt(s, m)[..|s| - 2] == RemoveAt(t, m);
      KeepAfterRemove(t, drop, m);
    }
  }

  /** Extending a prefix by a dropped position, later than all the others, adds nothing. */
  lemma KeepExtendDropped<T>(s: seq<T>, drop: set<int>, i: nat)
    requires i < |s| && forall x | x in drop :: x < i
    ensures Keep(s[..i + 1], drop + {i}) == Keep(s[..i], drop)
  {
    assert s[..i + 1][..i] == s[..i];
    KeepIgnoresBeyond(s[..i], drop, i);
  }

  /** When every dropped position is before `i`, everything from `i` on is kept as it is. */
  lemma {:induction false} KeepTail<T>(s: seq<T>, drop: set<int>, i: nat)
    requires i <= |s| && forall x | x in drop :: x < i
    ensures Keep(s, drop) == Keep(s[..i], drop) + s[i..]
    decreases |s|
  {
    if |s| == i {
      assert s[..i] == s;
    } else {
      var t := s[..|s| - 1];
      KeepTail(t, drop, i);
      assert t[..i] == s[..i];
      assert t[i..] + [s[|s| - 1]] == s[i..];
    }
  }

  /** Dropping no position keeps everything. */
  lemma {:induction false} KeepNone<T>(s: seq<T>)
    ensures Keep(s, {}) == s
    decreases |s|
  {
    if s != [] {
      KeepNone(s[..|s| - 1]);
    }
  }

  /** Dropping positions of `s` shortens it by as many elements. */
  lemma {:induction false} KeepLength<T>(s: seq<T>, drop: set<int>)
    requires forall x | x in drop :: 0 <= x < |s|
    ensures |Keep(s, drop)| == |s| - |drop|
    decreases |s|
  {
    if s != [] {
      var n := |s| - 1;
      var rest := drop - {n};
      KeepIgnoresBeyond(s[..n], rest, n);
      KeepLength(s[..n], rest);
      assert Keep(s, drop) == Keep(s[..n], drop) + (if n in drop then [] else [s[n]]);
      if n in drop {
        assert drop == rest + {n};
        assert Keep(s[..n], drop) == Keep(s[..n], rest);
      } else {
        assert drop == rest;
      }
    } else {
      assert drop == {} by {
        forall x | x in drop
          ensures false
        {
        }
      }
    }
  }

  /**
   * With every dropped position before `i`, the element at position `i`
   * is at position `j` of what is kept, and removing it there is dropping
   * `i` as well.
   */
  lemma KeepDropNext<T>(s: seq<T>, drop: set<int>, i: nat, j: nat)
    requires i < |s| && j + |drop| == i && forall x | x in drop :: 0 <= x < i
    ensures j < |Keep(s, drop)| && Keep(s, drop)[j] == s[i]
    ensures RemoveAt(Keep(s, drop), j) == Keep(s, drop + {i}) && |drop + {i}| == |drop| + 1
  {
    var kept := Keep(s[..i], drop);
    KeepTail(s, drop, i);
    KeepLength(s[..i], drop);
    assert i !in drop;
    KeepTail(s, drop + {i}, i + 1);
    KeepExtendDropped(s, drop, i);
    assert s[i..] == [s[i]] + s[i + 1..];
    RemoveAtJoin(kept, s[i..]);
  }

  /**
   * In a sequence without repeats, an element is kept exactly when its
   * position is not dropped, and nothing that was not there is kept.
   */
  lemma {:induction false} KeepMember<T>(s: seq<T>, drop: set<int>, x: nat)
    requires Distinct(s) && x < |s|
    ensures s[x] in Keep(s, drop) <==> x !in drop
    decreases |s|
  {
    var n := |s| - 1;
    var t := s[..n];
    assert Keep(s, drop) == Keep(t, drop) + (if n in drop then [] else [s[n]]);
    KeepWithin(t, drop);
    if x == n {
      assert s[n] !in t by {
        forall i | 0 <= i < |t|
          ensures t[i] != s[n]
        {
          assert t[i] == s[i];
        }
      }
    } else {
      assert Distinct(t) by {
        forall i, j | 0 <= i < j < |t|
          ensures t[i] != t[j]
        {
          assert t[i] == s[i] && t[j] == s[j];
        }
      }
      assert t[x] == s[x] && s[x] != s[n];
      KeepMember(t, drop, x);
    }
  }

  /** Everything kept comes from the sequence. */
  lemma {:induction false} KeepWithin<T>(s: seq<T>, drop: set<int>)
    ensures forall y | y in Keep(s, drop) :: y in s
    decreases |s|
  {
    if s != [] {
      var n := |s| - 1;
      var t := s[..n];
      KeepWithin(t, drop);
      assert Keep(s, drop) == Keep(t, drop) + (if n in drop then [] else [s[n]]);
      forall y | y in Keep(s, drop)
        ensures y in s
      {
        if y in Keep(t, drop) {
          var i :| 0 <= i < |t| && t[i] == y;
          assert s[i] == y;
        }
      }
    }
  }

  /** Removing the first element of the second part of a concatenation. */
  lemma RemoveAtJoin<T>(a: seq<T>, b: seq<T>)
    requires |b| > 0
    ensures RemoveAt(a + b, |a|) == a + b[1..]
  {
    assert (a + b)[..|a|] == a;
    assert (a + b)[|a| + 1..] == b[1..];
  }

  /** In a sequence without repeats, the position of an element is where `IndexOf` finds it. */
  lemma DistinctIndexOf<T>(s: seq<T>, k: nat)
    requires Distinct(s) && k < |s|
    ensures IndexOf(s, s[k]) == k
  {
    assert s[k] !in s[..k];
    IndexOfFirst(s, s[k], k);
  }

  /** In a sequence without repeats, removing an element removes its only occurrence. */
  lemma DistinctRemoved<T>(s: seq<T>, k: nat)
    requires Distinct(s) && k < |s|
    ensures s[k] !in RemoveAt(s, k)
  {
    var r := RemoveAt(s, k);
    forall i | 0 <= i < |r|
      ensures r[i] != s[k]
    {
      assert r[i] == s[if i < k then i else i + 1];
    }
  }

  /** Removing an element brings in nothing new. */
  lemma RemoveAtSubset<T>(s: seq<T>, k: nat, x: T)
    requires k < |s| && x !in s
    ensures x !in RemoveAt(s, k)
  {
    var r := RemoveAt(s, k);
    forall i | 0 <= i < |r|
      ensures r[i] != x
    {
      assert r[i] == s[if i < k then i else i + 1];
    }
  }

  /** Removing the element at `k` keeps every other value exactly when it was there. */
  lemma RemovedMembers<T>(s: seq<T>, k: nat, x: T)
    requires k < |s| && x != s[k]
    ensures x in RemoveAt(s, k) <==> x in s
  {
    var r := RemoveAt(s, k);
    if x in s {
      var i :| 0 <= i < |s| && s[i] == x;
      assert r[if i < k then i else i - 1] == x;
    }
    if x in r {
      var i :| 0 <= i < |r| && r[i] == x;
      assert s[if i < k then i else i + 1] == x;
    }
  }

  /** Removing the element at `k` keeps every other element and brings in nothing new. */
  lemma RemoveAtWithin<T>(s: seq<T>, k: nat)
    requires k < |s|
    ensures forall x | x in RemoveAt(s, k) :: x in s
    ensures forall x | x in s && x != s[k] :: x in RemoveAt(s, k)
  {
    forall x | x in RemoveAt(s, k) && x != s[k]
      ensures x in s
    {
      RemovedMembers(s, k, x);
    }
    forall x | x in s && x != s[k]
      ensures x in RemoveAt(s, k)
    {
      RemovedMembers(s, k, x);
    }
  }

  /** `pos` gives each element of `s` its position, so no element of `s` occurs twice. */
  ghost predicate PositionedBy<T>(s: seq<T>, pos: map<T, nat>)
  {
    forall x | 0 <= x < |s| :: s[x] in pos && pos[s[x]] == x
  }

  /** A sequence without repeats has a map of positions. */
  lemma DistinctPositions<T>(s: seq<T>) returns (pos: map<T, nat>)
    requires Distinct(s)
    ensures PositionedBy(s, pos)
  {
    pos := map x | 0 <= x < |s| :: s[x] := x;
    forall x | 0 <= x < |s|
      ensures s[x] in pos && pos[s[x]] == x
    {
    }
  }


  /** Appending an element not yet present keeps a sequence free of repeats. */
  lemma DistinctAppend<T(!new)>(s: seq<T>, x: T)
    requires Distinct(s) && x !in s
    ensures Distinct(s + [x]) && SetOf(s + [x]) == SetOf(s) + {x}
  {
    var t := s + [x];
    forall i, j | 0 <= i < j < |t|
      ensures t[i] != t[j]
    {
      assert t[i] == s[i];
      if j < |s| {
        assert t[j] == s[j];
      }
    }
  }

  /** Removing an element from a sequence without repeats removes just that element. */
  lemma DistinctRemoveAt<T(!new)>(s: seq<T>, k: nat)
    requires Distinct(s) && k < |s|
    ensures Distinct(RemoveAt(s, k)) && SetOf(RemoveAt(s, k)) == SetOf(s) - {s[k]}
  {
    var r := RemoveAt(s, k);
    DistinctRemoved(s, k);
    forall i, j | 0 <= i < j < |r|
      ensures r[i] != r[j]
    {
      assert r[i] == s[if i < k then i else i + 1] && r[j] == s[if j < k then j else j + 1];
    }
    forall x | x in s && x != s[k]
      ensures x in r
    {
      var i :| 0 <= i < |s| && s[i] == x;
      assert r[if i < k then i else i - 1] == x;
    }
  }

  /** A sequence without repeats has as many elements as its set. */
  lemma {:induction false} DistinctCard<T(!new)>(s: seq<T>)
    requires Distinct(s)
    ensures |SetOf(s)| == |s|
  {
    if s != [] {
      var init := s[..|s| - 1];
      assert Distinct(init) by {
        forall i, j | 0 <= i < j < |init|
          ensures init[i] != init[j]
        {
          assert init[i] == s[i] && init[j] == s[j];
        }
      }
      DistinctCard(init);
      assert s == init + [s[|s| - 1]];
      DistinctAppend(init, s[|s| - 1]);
    }
  }

  /** The elements of `s` that are not in `drop`, in order. */
  function Filter<T>(s: seq<T>, drop: set<T>): seq<T>
  {
    if s == [] then []
    else
      var init := Filter(s[..|s| - 1], drop);
      if s[|s| - 1] in drop then init else init + [s[|s| - 1]]
  }

  /** Filtering out elements that do not occur changes nothing. */
  lemma {:induction false} FilterUntouched<T>(s: seq<T>, drop: set<T>)
    requires forall x | x in drop :: x !in s
    ensures Filter(s, drop) == s
  {
    if s != [] {
      FilterUntouched(s[..|s| - 1], drop);
      assert s == s[..|s| - 1] + [s[|s| - 1]];
    }
  }

  /** The elements of a filtered sequence are those of the sequence outside `drop`. */
  lemma {:induction false} FilterMembers<T>(s: seq<T>, drop: set<T>, x: T)
    ensures x in Filter(s, drop) <==> x in s && x !in drop
  {
    if s != [] {
      FilterMembers(s[..|s| - 1], drop, x);
      assert s == s[..|s| - 1] + [s[|s| - 1]];
    }
  }

  /** Filtering twice is filtering by both sets. */
  lemma {:induction false} FilterMore<T>(s: seq<T>, drop: set<T>, x: T)
    ensures Filter(Filter(s, drop), {x}) == Filter(s, drop + {x})
  {
    if s != [] {
      var init, last := s[..|s| - 1], s[|s| - 1];
      FilterMore(init, drop, x);
      var f := Filter(init, drop);
      if last !in drop {
        assert (f + [last])[..|f|] == f;
      }
    }
  }

  /** In a sequence without repeats, removing a position is filtering out its element. */
  lemma {:induction false} FilterRemoveAt<T>(s: seq<T>, k: nat)
    requires Distinct(s) && k < |s|
    ensures RemoveAt(s, k) == Filter(s, {s[k]})
  {
    var n := |s| - 1;
    var init := s[..n];
    if k == n {
      FilterUntouched(init, {s[k]});
      assert RemoveAt(s, k) == init;
    } else {
      assert Distinct(init) by {
        forall i, j | 0 <= i < j < |init|
          ensures init[i] != init[j]
        {
          assert init[i] == s[i] && init[j] == s[j];
        }
      }
      FilterRemoveAt(init, k);
      assert init[k] == s[k] && s[n] != s[k];
      assert RemoveAt(s, k) == RemoveAt(init, k) + [s[n]];
    }
  }

  /** Every object of `objs` is a value of `d`. */
  ghost predicate AllStored<K, V>(objs: seq<V>, d: map<K, V>)
  {
    forall i | 0 <= i < |objs| :: objs[i] in d.Values
  }

  lemma StoredAfterPut<K, V>(objs: seq<V>, d: map<K, V>, k: K, p: V)
    requires AllStored(objs, d) && (k in d ==> d[k] == p)
    ensures AllStored(objs, d[k := p])
  {
    forall i | 0 <= i < |objs|
      ensures objs[i] in d[k := p].Values
    {
      assert objs[i] in d.Values;
      var k' :| k' in d && d[k'] == objs[i];
      if k' == k {
        assert d[k := p][k] == objs[i];
      } else {
        assert d[k := p][k'] == objs[i];
      }
    }
  }

  lemma StoredAfterAppend<K, V>(objs: seq<V>, d: map<K, V>, p: V)
    requires AllStored(objs, d) && p in d.Values
    ensures AllStored(objs + [p], d)
  {
    assert forall i | 0 <= i < |objs| :: (objs + [p])[i] == objs[i];
  }

  lemma StoredAfterRemove<K, V>(objs: seq<V>, d: map<K, V>, k: nat)
    requires AllStored(objs, d) && k < |objs|
    ensures AllStored(RemoveAt(objs, k), d)
  {
    var r := RemoveAt(objs, k);
    forall i | 0 <= i < |r|
      ensures r[i] in d.Values
    {
      assert r[i] == objs[if i < k then i else i + 1];
    }
  }

  lemma StoredAfterMove<K, V>(objs: seq<V>, d: map<K, V>, k: nat)
    requires AllStored(objs, d) && k < |objs|
    ensures AllStored(RemoveAt(objs, k) + [objs[k]], d)
  {
    StoredAfterRemove(objs, d, k);
    StoredAfterAppend(RemoveAt(objs, k), d, objs[k]);
  }

  lemma StoredAfterDelete<K, V>(objs: seq<V>, d: map<K, V>, k: K)
    requires AllStored(objs, d) && k in d && d[k] !in objs
    ensures AllStored(objs, d - {k})
  {
    forall i | 0 <= i < |objs|
      ensures objs[i] in (d - {k}).Values
    {
      var k' :| k' in d && d[k'] == objs[i];
      assert k' != k;
      assert (d - {k})[k'] == objs[i];
    }
  }

  lemma {:induction false} StoredAfterKeep<K, V>(objs: seq<V>, d: map<K, V>, drop: set<int>)
    requires AllStored(objs, d)
    ensures AllStored(Keep(objs, drop), d)
  {
    if objs != [] {
      var n := |objs| - 1;
      StoredAfterKeep(objs[..n], d, drop);
      assert objs[n] in d.Values;
      var kept := Keep(objs[..n], drop);
      var r := Keep(objs, drop);
      assert r == kept + (if n in drop then [] else [objs[n]]);
      forall i | 0 <= i < |r|
        ensures r[i] in d.Values
      {
        if i < |kept| {
          assert r[i] == kept[i];
        }
      }
    }
  }

  /** The elements at the positions `drop` names. */
  ghost function AtPositions<T>(s: seq<T>, drop: set<int>): set<T>
  {
    set i | i in drop && 0 <= i < |s| :: s[i]
  }

  /**
   * Keeping the positions of a sequence without repeats that `drop` does not
   * name leaves a sequence without repeats holding all but the dropped elements.
   */
  lemma {:induction false} KeepDistinct<T(!new)>(s: seq<T>, drop: set<int>)
    requires Distinct(s)
    ensures Distinct(Keep(s, drop))
    ensures SetOf(Keep(s, drop)) == SetOf(s) - AtPositions(s, drop)
  {
    if s != [] {
      var n := |s| - 1;
      var t := s[..n];
      assert Distinct(t) by {
        forall i, j | 0 <= i < j < |t|
          ensures t[i] != t[j]
        {
          assert t[i] == s[i] && t[j] == s[j];
        }
      }
      KeepDistinct(t, drop);
      var kept := Keep(t, drop);
      assert s == t + [s[n]];
      assert s[n] !in t by {
        forall i | 0 <= i < |t|
          ensures t[i] != s[n]
        {
          assert t[i] == s[i];
        }
      }
      assert AtPositions(t, drop) <= SetOf(t);
      if n in drop {
        assert AtPositions(s, drop) == AtPositions(t, drop) + {s[n]};
      } else {
        assert AtPositions(s, drop) == AtPositions(t, drop);
        DistinctAppend(kept, s[n]);
      }
    }
  }
}
