/** Shared vocabulary of the model: optional values, the decimal number
    parsers the Go handlers call (strconv.Atoi, strconv.ParseUint), Go's
    integer conversions, and the sequence operations that stand for SQL
    filters and updates over in-memory tables. */
module Common {

  datatype Option<T> = None | Some(value: T)

  /** 2^64 and 2^63: the ranges of Go's uint64 and int64. */
  const TwoTo64: nat := 0x1_0000_0000_0000_0000
  const TwoTo63: nat := 0x8000_0000_0000_0000

  // ---------------------------------------------------------------------
  // Decimal numerals
  // ---------------------------------------------------------------------

  predicate IsDigit(c: char) { '0' <= c <= '9' }

  predicate AllDigits(s: string) { forall i :: 0 <= i < |s| ==> IsDigit(s[i]) }

  function DigitValue(c: char): nat
    requires IsDigit(c)
  {
    c as int - '0' as int
  }

  function DigitChar(d: nat): (c: char)
    requires d < 10
    ensures IsDigit(c) && DigitValue(c) == d
  {
    ('0' as int + d) as char
  }

  /** The value of a string of decimal digits, read left to right. */
  function DecimalValue(s: string): nat
    requires AllDigits(s)
  {
    if |s| == 0 then 0 else 10 * DecimalValue(s[..|s| - 1]) + DigitValue(s[|s| - 1])
  }

  /** Decimal rendering of a natural number without leading zeros, as Go's
      strconv.Itoa and JavaScript's String(n) produce it. */
  function NatToString(n: nat): (r: string)
    ensures |r| > 0 && AllDigits(r)
    ensures DecimalValue(r) == n
    ensures |r| > 1 ==> r[0] != '0'
  {
    if n < 10 then [DigitChar(n)]
    else
      var prefix := NatToString(n / 10);
      var r := prefix + [DigitChar(n % 10)];
      assert r[..|r| - 1] == prefix;
      r
  }

  /** strconv.ParseUint(s, 10, 64): one or more digits, no sign, below 2^64. */
  function ParseUint(s: string): (r: Option<nat>)
    ensures r.Some? <==> |s| > 0 && AllDigits(s) && DecimalValue(s) < TwoTo64
    ensures r.Some? ==> r.value == DecimalValue(s)
  {
    if |s| > 0 && AllDigits(s) && DecimalValue(s) < TwoTo64 then Some(DecimalValue(s)) else None
  }

  /** strconv.Atoi(s) on a 64-bit platform: an optional sign followed by one
      or more digits, the value within the int64 range. */
  function Atoi(s: string): (r: Option<int>)
    ensures r.Some? ==> -(TwoTo63 as int) <= r.value < TwoTo63
    ensures r.Some? ==> |s| > 0
  {
    if |s| > 0 && (s[0] == '+' || s[0] == '-') then
      var body := s[1..];
      if |body| > 0 && AllDigits(body) then
        var v: int := DecimalValue(body);
        if s[0] == '-' then (if v <= TwoTo63 then Some(-v) else None)
        else (if v < TwoTo63 then Some(v) else None)
      else None
    else if |s| > 0 && AllDigits(s) && DecimalValue(s) < TwoTo63 then Some(DecimalValue(s) as int)
    else None
  }

  /** An id rendered by a client with String(n) is read back unchanged by the
      server's Atoi and ParseUint. */
  lemma AtoiReadsRenderedId(n: nat)
    requires n < TwoTo63
    ensures Atoi(NatToString(n)) == Some(n)
    ensures ParseUint(NatToString(n)) == Some(n)
  {
    var s := NatToString(n);
    assert s[0] != '+' && s[0] != '-' by { assert IsDigit(s[0]); }
  }

  /** Go's conversion uint(x) of an int: two's-complement wrap-around. */
  function ToUint64(x: int): (r: nat)
    ensures r < TwoTo64
    ensures 0 <= x < TwoTo64 ==> r == x
  {
    x % TwoTo64
  }

  /** Go's conversion int(u) of a uint64: values of 2^63 and above wrap to negatives. */
  function ToInt64(u: nat): (r: int)
    requires u < TwoTo64
    ensures -(TwoTo63 as int) <= r < TwoTo63
    ensures u < TwoTo63 ==> r == u
  {
    if u < TwoTo63 then u else u - TwoTo64
  }

  // ---------------------------------------------------------------------
  // Tables as sequences
  // ---------------------------------------------------------------------

  /** The rows of s that satisfy keep, in their stored order (a SQL WHERE). */
  function Filter<T(==,!new)>(s: seq<T>, keep: T -> bool): (r: seq<T>)
    ensures |r| <= |s|
    ensures forall x :: x in r <==> x in s && keep(x)
    ensures (forall x :: x in s ==> keep(x)) ==> r == s
  {
    if |s| == 0 then []
    else
      var rest := Filter(s[1..], keep);
      assert s == [s[0]] + s[1..];
      if keep(s[0]) then [s[0]] + rest else rest
  }

  /** A filter that keeps no row of s yields no row. */
  lemma {:induction false} FilterKeepsNone<T(!new)>(s: seq<T>, keep: T -> bool)
    requires forall x :: x in s ==> !keep(x)
    ensures Filter(s, keep) == []
  {
    if |s| > 0 {
      assert s[0] in s;
      assert forall x :: x in s[1..] ==> x in s;
      FilterKeepsNone(s[1..], keep);
    }
  }

  /** Every row of s passed through f, in order (a SQL UPDATE without WHERE). */
  function MapRows<T>(s: seq<T>, f: T -> T): (r: seq<T>)
    ensures |r| == |s|
    ensures forall i :: 0 <= i < |s| ==> r[i] == f(s[i])
  {
    seq(|s|, i requires 0 <= i < |s| => f(s[i]))
  }

  /** f applied to the first n elements of s, built one element at a time
      (the shape of a Go loop that appends to a result slice). */
  function MapPrefix<A, B>(s: seq<A>, n: nat, f: A -> B): seq<B>
    requires n <= |s|
  {
    if n == 0 then [] else MapPrefix(s, n - 1, f) + [f(s[n - 1])]
  }

  lemma {:induction false} MapPrefixSpec<A, B>(s: seq<A>, n: nat, f: A -> B)
    requires n <= |s|
    ensures |MapPrefix(s, n, f)| == n
    ensures forall k :: 0 <= k < n ==> MapPrefix(s, n, f)[k] == f(s[k])
  {
    if n > 0 {
      MapPrefixSpec(s, n - 1, f);
    }
  }

  /** The parts of the first n elements of s, concatenated in order (the
      shape of a Go loop nest that appends every item of every row). */
  function Flatten<A, B>(s: seq<A>, n: nat, part: A -> seq<B>): seq<B>
    requires n <= |s|
  {
    if n == 0 then [] else Flatten(s, n - 1, part) + part(s[n - 1])
  }

  /** An item is in the concatenation exactly when it is in the part of one
      of the first n elements. */
  lemma {:induction false} FlattenMember<A, B>(s: seq<A>, n: nat, part: A -> seq<B>, x: B)
    requires n <= |s|
    ensures x in Flatten(s, n, part) <==> exists i :: 0 <= i < n && x in part(s[i])
  {
    if n > 0 {
      FlattenMember(s, n - 1, part, x);
      if x in part(s[n - 1]) {
        assert 0 <= n - 1 < n && x in part(s[n - 1]);
      }
    }
  }

  /** The rows of s that satisfy sel passed through f, the others unchanged,
      in order (a SQL UPDATE ... WHERE). */
  function UpdateWhere<T>(s: seq<T>, sel: T -> bool, f: T -> T): (r: seq<T>)
    ensures |r| == |s|
    ensures forall i :: 0 <= i < |s| ==> r[i] == if sel(s[i]) then f(s[i]) else s[i]
  {
    MapRows(s, (x: T) => if sel(x) then f(x) else x)
  }

  /** Some row of s has key k (a compiled lookup). */
  predicate HasKey<T, K(==)>(s: seq<T>, key: T -> K, k: K)
  {
    exists i :: 0 <= i < |s| && key(s[i]) == k
  }

  /** The first row of s whose key is k (GORM's First, rows in id order). */
  function First<T, K(==)>(s: seq<T>, key: T -> K, k: K): (r: Option<T>)
    ensures r.None? <==> !HasKey(s, key, k)
    ensures r.Some? ==> r.value in s && key(r.value) == k
    ensures r.Some? ==> r.value == s[FindIndex(s, key, k)]
  {
    var i := FindIndex(s, key, k);
    if i < 0 then None else Some(s[i])
  }

  /** With distinct keys, First finds the only row with key k. */
  lemma FirstUnique<T, K>(s: seq<T>, key: T -> K, x: T)
    requires KeysDistinct(s, key)
    requires x in s
    ensures First(s, key, key(x)) == Some(x)
  {
    var i :| 0 <= i < |s| && s[i] == x;
    assert forall m :: 0 <= m < |s| && m != i ==> key(s[m]) != key(s[i]);
  }

  /** No two rows of s share a key. */
  ghost predicate KeysDistinct<T, K>(s: seq<T>, key: T -> K)
  {
    forall i, j :: 0 <= i < j < |s| ==> key(s[i]) != key(s[j])
  }

  /** The set of keys of the rows of s. */
  ghost function KeySet<T(!new), K>(s: seq<T>, key: T -> K): (r: set<K>)
    ensures forall x :: x in s ==> key(x) in r
    ensures forall k :: k in r ==> exists x :: x in s && key(x) == k
  {
    set x | x in s :: key(x)
  }

  lemma {:induction false} FilterKeepsKeysDistinct<T(!new), K>(s: seq<T>, keep: T -> bool, key: T -> K)
    requires KeysDistinct(s, key)
    ensures KeysDistinct(Filter(s, keep), key)
  {
    if |s| > 0 {
      var rest := Filter(s[1..], keep);
      FilterKeepsKeysDistinct(s[1..], keep, key);
      if keep(s[0]) {
        var r := [s[0]] + rest;
        forall i, j | 0 <= i < j < |r| ensures key(r[i]) != key(r[j]) {
          if i == 0 {
            assert r[j] in s[1..];
            var k :| 0 <= k < |s[1..]| && s[1..][k] == r[j];
            assert s[k + 1] == r[j];
          } else {
            assert r[i] == rest[i - 1] && r[j] == rest[j - 1];
          }
        }
      }
    }
  }

  lemma MapRowsKeepsKeysDistinct<T, K>(s: seq<T>, f: T -> T, key: T -> K)
    requires KeysDistinct(s, key)
    requires forall x :: key(f(x)) == key(x)
    ensures KeysDistinct(MapRows(s, f), key)
  {
    var r := MapRows(s, f);
    forall i, j | 0 <= i < j < |r| ensures key(r[i]) != key(r[j]) {
      assert key(r[i]) == key(f(s[i])) == key(s[i]);
      assert key(r[j]) == key(f(s[j])) == key(s[j]);
    }
  }

  lemma AppendKeepsKeysDistinct<T(!new), K>(s: seq<T>, x: T, key: T -> K)
    requires KeysDistinct(s, key)
    requires key(x) !in KeySet(s, key)
    ensures KeysDistinct(s + [x], key)
  {
    var r := s + [x];
    forall i, j | 0 <= i < j < |r| ensures key(r[i]) != key(r[j]) {
      if j == |s| {
        assert r[i] in s;
      } else {
        assert r[i] == s[i] && r[j] == s[j];
      }
    }
  }

  /** The key of every row of s is below the returned bound, which is at least 1:
      the next value of an auto-increment primary key. */
  function NextId<T(==,!new)>(s: seq<T>, id: T -> nat): (r: nat)
    ensures r >= 1
    ensures forall x :: x in s ==> id(x) < r
  {
    if |s| == 0 then 1
    else
      var rest := NextId(s[1..], id);
      assert forall x :: x in s ==> x == s[0] || x in s[1..];
      if id(s[0]) < rest then rest else id(s[0]) + 1
  }

  /** Index of the first row of s whose key is k, or -1 (Array.prototype.findIndex). */
  function FindIndex<T, K(==)>(s: seq<T>, key: T -> K, k: K): (r: int)
    ensures -1 <= r < |s|
    ensures r >= 0 ==> key(s[r]) == k && forall i :: 0 <= i < r ==> key(s[i]) != k
    ensures r == -1 <==> forall i :: 0 <= i < |s| ==> key(s[i]) != k
  {
    if |s| == 0 then -1
    else if key(s[0]) == k then 0
    else
      var rest := FindIndex(s[1..], key, k);
      assert forall i :: 1 <= i < |s| ==> s[i] == s[1..][i - 1];
      if rest == -1 then -1 else rest + 1
  }
}
