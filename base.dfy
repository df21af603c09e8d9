/** Shared vocabulary: optional values and results, the clock arithmetic that
    .NET's DateTime performs, and the LINQ operators the services use
    (Where, OrderBy/ThenBy, FirstOrDefault) as functions over sequences. */
module Base {

  datatype Option<T> = None | Some(value: T)

  /** A call that either returns a value or throws. */
  datatype Result<T, E> = Ok(value: T) | Err(error: E)

  // ---------------------------------------------------------------------------
  // Time. A DateTime is a whole number of minutes since 0001-01-01 00:00, the
  // epoch of .NET's DateTime, which fell on a Monday.
  // ---------------------------------------------------------------------------

  const MinutesPerHour: int := 60
  const MinutesPerDay: int := 24 * MinutesPerHour

  /** DateTime.Date: midnight of the same calendar day. */
  function DateOf(t: int): (d: int)
    ensures d % MinutesPerDay == 0
    ensures d <= t < d + MinutesPerDay
  {
    t - t % MinutesPerDay
  }

  /** DateTime.TimeOfDay, in minutes past midnight. */
  function TimeOfDay(t: int): (m: int)
    ensures 0 <= m < MinutesPerDay
    ensures DateOf(t) + m == t
  {
    t % MinutesPerDay
  }

  /** DateTime.DayOfWeek with .NET's numbering: Sunday = 0, Monday = 1, ... */
  function DayOfWeek(t: int): (d: int)
    ensures 0 <= d < 7
  {
    (t / MinutesPerDay + 1) % 7
  }

  /** Midnight plus a time of day that stays within the day lands on that day. */
  lemma SameDay(t: int, m: int)
    requires 0 <= m < MinutesPerDay
    ensures DateOf(DateOf(t) + m) == DateOf(t)
    ensures TimeOfDay(DateOf(t) + m) == m
    ensures DayOfWeek(DateOf(t) + m) == DayOfWeek(t)
  {
    var k := t / MinutesPerDay;
    assert DateOf(t) == k * MinutesPerDay;
    assert (k * MinutesPerDay + m) / MinutesPerDay == k;
    assert (k * MinutesPerDay + m) % MinutesPerDay == m;
  }

  // ---------------------------------------------------------------------------
  // Where
  // ---------------------------------------------------------------------------

  /** Enumerable.Where: the elements satisfying `p`, in their original order. */
  function Filter<T(!new)>(s: seq<T>, p: T -> bool): (r: seq<T>)
    ensures |r| <= |s|
    ensures forall x :: multiset(r)[x] == if p(x) then multiset(s)[x] else 0
    ensures forall x :: x in r <==> x in s && p(x)
  {
    if s == [] then []
    else
      var rest := Filter(s[1..], p);
      assert s == [s[0]] + s[1..];
      if p(s[0]) then [s[0]] + rest else rest
  }

  /** Splitting a sequence by a predicate and its negation loses nothing. */
  lemma FilterPartition<T(!new)>(s: seq<T>, p: T -> bool, q: T -> bool)
    requires forall x :: q(x) == !p(x)
    ensures multiset(Filter(s, p)) + multiset(Filter(s, q)) == multiset(s)
    ensures |Filter(s, p)| + |Filter(s, q)| == |s|
  {
    var a, b := multiset(Filter(s, p)), multiset(Filter(s, q));
    forall x ensures (a + b)[x] == multiset(s)[x] {
      assert q(x) == !p(x);
    }
    assert a + b == multiset(s);
    assert |a + b| == |a| + |b|;
  }

  /** Filtering a sequence with a known first element. */
  lemma FilterCons<T(!new)>(x: T, s: seq<T>, p: T -> bool)
    ensures Filter([x] + s, p) == (if p(x) then [x] else []) + Filter(s, p)
  {
    var f := [x] + s;
    assert f[0] == x && f[1..] == s;
  }

  /** Filtering twice is filtering once by the conjunction. */
  lemma {:induction false} FilterFilter<T(!new)>(s: seq<T>, p: T -> bool, q: T -> bool, pq: T -> bool)
    requires forall x :: pq(x) == (p(x) && q(x))
    ensures Filter(Filter(s, p), q) == Filter(s, pq)
  {
    if s != [] {
      var x := s[0];
      FilterFilter(s[1..], p, q, pq);
      FilterCons(x, s[1..], p);
      FilterCons(x, Filter(s[1..], p), q);
      FilterCons(x, s[1..], pq);
      assert pq(x) == (p(x) && q(x));
    }
  }

  // ---------------------------------------------------------------------------
  // OrderBy / ThenBy: a stable insertion sort on a primary and a secondary
  // integer key (a single-key OrderBy passes a constant secondary key;
  // OrderByDescending negates the key).
  // ---------------------------------------------------------------------------

  predicate InOrder<T>(a: T, b: T, k1: T -> int, k2: T -> int) {
    k1(a) < k1(b) || (k1(a) == k1(b) && k2(a) <= k2(b))
  }

  predicate SortedBy<T>(s: seq<T>, k1: T -> int, k2: T -> int) {
    forall i, j :: 0 <= i < j < |s| ==> InOrder(s[i], s[j], k1, k2)
  }

  /** Places `x` before the first element it does not come after. */
  function Insert<T>(x: T, s: seq<T>, k1: T -> int, k2: T -> int): (r: seq<T>)
    ensures multiset(r) == multiset(s) + multiset{x}
    ensures |r| == |s| + 1
  {
    if s == [] || InOrder(x, s[0], k1, k2) then [x] + s
    else
      assert s == [s[0]] + s[1..];
      [s[0]] + Insert(x, s[1..], k1, k2)
  }

  lemma {:induction false} InsertSorted<T>(x: T, s: seq<T>, k1: T -> int, k2: T -> int)
    requires SortedBy(s, k1, k2)
    ensures SortedBy(Insert(x, s, k1, k2), k1, k2)
  {
    if s != [] && !InOrder(x, s[0], k1, k2) {
      InsertSorted(x, s[1..], k1, k2);
      HeadPrecedesInsert(x, s, k1, k2);
      ConsSorted(s[0], Insert(x, s[1..], k1, k2), k1, k2);
    }
  }

  /** When `x` goes after the head, the head precedes everything it is
      inserted among. */
  lemma HeadPrecedesInsert<T>(x: T, s: seq<T>, k1: T -> int, k2: T -> int)
    requires SortedBy(s, k1, k2) && s != [] && !InOrder(x, s[0], k1, k2)
    ensures forall y :: y in Insert(x, s[1..], k1, k2) ==> InOrder(s[0], y, k1, k2)
  {
    var rest := Insert(x, s[1..], k1, k2);
    forall y | y in rest ensures InOrder(s[0], y, k1, k2) {
      assert y in multiset(rest);
      if y != x {
        assert y in multiset(s[1..]);
        var j :| 0 <= j < |s[1..]| && s[1..][j] == y;
        assert s[j + 1] == y;
      }
    }
  }

  /** A head that precedes every element of a sorted tail keeps it sorted. */
  lemma ConsSorted<T>(h: T, rest: seq<T>, k1: T -> int, k2: T -> int)
    requires SortedBy(rest, k1, k2) && forall y :: y in rest ==> InOrder(h, y, k1, k2)
    ensures SortedBy([h] + rest, k1, k2)
  {
    var r := [h] + rest;
    forall i, j | 0 <= i < j < |r| ensures InOrder(r[i], r[j], k1, k2) {
      if i == 0 {
        assert r[j] == rest[j - 1];
        assert rest[j - 1] in rest;
      } else {
        assert r[i] == rest[i - 1] && r[j] == rest[j - 1];
      }
    }
  }

  /** Enumerable.OrderBy(k1).ThenBy(k2). */
  function SortBy<T>(s: seq<T>, k1: T -> int, k2: T -> int): (r: seq<T>)
    ensures multiset(r) == multiset(s)
    ensures |r| == |s|
    ensures SortedBy(r, k1, k2)
  {
    if s == [] then []
    else
      assert s == [s[0]] + s[1..];
      var rest := SortBy(s[1..], k1, k2);
      InsertSorted(s[0], rest, k1, k2);
      Insert(s[0], rest, k1, k2)
  }

  /** The constant secondary key of a single-key OrderBy. */
  function NoKey<T>(x: T): int { 0 }

  // ---------------------------------------------------------------------------
  // FirstOrDefault / Find by primary key
  // ---------------------------------------------------------------------------

  /** Position of the first element whose key is `k`, or -1. */
  function IndexOf<T>(s: seq<T>, key: T -> int, k: int): (r: int)
    ensures -1 <= r < |s|
    ensures 0 <= r ==> key(s[r]) == k && forall j :: 0 <= j < r ==> key(s[j]) != k
    ensures r < 0 <==> forall j :: 0 <= j < |s| ==> key(s[j]) != k
  {
    if s == [] then -1
    else if key(s[0]) == k then 0
    else
      var r := IndexOf(s[1..], key, k);
      if r < 0 then -1 else r + 1
  }

  /** Primary keys are positive, below the next key to hand out, and distinct. */
  ghost predicate KeysValid<T>(s: seq<T>, key: T -> int, next: int) {
    && (forall i :: 0 <= i < |s| ==> 0 < key(s[i]) < next)
    && (forall i, j :: 0 <= i < j < |s| ==> key(s[i]) != key(s[j]))
  }

  /** With distinct keys, the first match is the only match. */
  lemma KeyedIndexUnique<T>(s: seq<T>, key: T -> int, next: int, k: int, i: int)
    requires KeysValid(s, key, next)
    requires 0 <= i < |s| && key(s[i]) == k
    ensures IndexOf(s, key, k) == i
  {
    var r := IndexOf(s, key, k);
    assert 0 <= r <= i;
    assert key(s[r]) == key(s[i]);
  }

  lemma AppendKeepsKeysValid<T>(s: seq<T>, key: T -> int, next: int, x: T)
    requires KeysValid(s, key, next) && 0 < next && key(x) == next
    ensures KeysValid(s + [x], key, next + 1)
  {
    var r := s + [x];
    forall i, j | 0 <= i < j < |r| ensures key(r[i]) != key(r[j]) {
      if j < |s| { assert r[i] == s[i] && r[j] == s[j]; } else { assert r[i] == s[i]; }
    }
  }

  lemma ReplaceKeepsKeysValid<T>(s: seq<T>, key: T -> int, next: int, i: int, x: T)
    requires KeysValid(s, key, next) && 0 <= i < |s| && key(x) == key(s[i])
    ensures KeysValid(s[i := x], key, next)
  {
  }

  /** Replacing the row found by key: keys stay valid, and exactly the rows
      with that key now hold the replacement. */
  lemma ReplaceByKey<T>(s: seq<T>, key: T -> int, next: int, k: int, x: T)
    requires KeysValid(s, key, next) && 0 <= IndexOf(s, key, k) && key(x) == k
    ensures KeysValid(s[IndexOf(s, key, k) := x], key, next)
    ensures forall j :: 0 <= j < |s| ==> s[IndexOf(s, key, k) := x][j] == if key(s[j]) == k then x else s[j]
  {
    var i := IndexOf(s, key, k);
    forall j | 0 <= j < |s| && key(s[j]) == k ensures j == i {
      KeyedIndexUnique(s, key, next, k, j);
    }
    ReplaceKeepsKeysValid(s, key, next, i, x);
  }

  lemma RemoveKeepsKeysValid<T>(s: seq<T>, key: T -> int, next: int, i: int)
    requires KeysValid(s, key, next) && 0 <= i < |s|
    ensures KeysValid(s[..i] + s[i + 1..], key, next)
  {
    var r := s[..i] + s[i + 1..];
    forall a, b | 0 <= a < b < |r| ensures key(r[a]) != key(r[b]) {
      var a' := if a < i then a else a + 1;
      var b' := if b < i then b else b + 1;
      assert r[a] == s[a'] && r[b] == s[b'] && a' < b';
    }
  }

  ghost predicate DistinctKeys<T>(s: seq<T>, key: T -> int) {
    forall i, j :: 0 <= i < j < |s| ==> key(s[i]) != key(s[j])
  }

  lemma ConsDistinctKeys<T>(x: T, rest: seq<T>, key: T -> int)
    requires DistinctKeys(rest, key)
    requires forall y :: y in rest ==> key(y) != key(x)
    ensures DistinctKeys([x] + rest, key)
  {
    var r := [x] + rest;
    forall i, j | 0 <= i < j < |r| ensures key(r[i]) != key(r[j]) {
      assert r[j] == rest[j - 1] && r[j] in rest;
      if 0 < i {
        assert r[i] == rest[i - 1];
      }
    }
  }

  lemma {:induction false} FilterKeepsDistinctKeys<T(!new)>(s: seq<T>, key: T -> int, p: T -> bool)
    requires DistinctKeys(s, key)
    ensures DistinctKeys(Filter(s, p), key)
  {
    if s != [] {
      var tail := s[1..];
      assert DistinctKeys(tail, key) by {
        forall i, j | 0 <= i < j < |tail| ensures key(tail[i]) != key(tail[j]) {
          assert tail[i] == s[i + 1] && tail[j] == s[j + 1];
        }
      }
      FilterKeepsDistinctKeys(tail, key, p);
      var rest := Filter(tail, p);
      assert s == [s[0]] + tail;
      assert Filter(s, p) == if p(s[0]) then [s[0]] + rest else rest;
      if p(s[0]) {
        forall y | y in rest ensures key(y) != key(s[0]) {
          var j :| 0 <= j < |tail| && tail[j] == y;
          assert s[j + 1] == y;
        }
        ConsDistinctKeys(s[0], rest, key);
      }
    }
  }

  /** Keeping only some rows keeps the keys valid. */
  lemma FilterKeepsKeysValid<T(!new)>(s: seq<T>, key: T -> int, next: int, p: T -> bool)
    requires KeysValid(s, key, next)
    ensures KeysValid(Filter(s, p), key, next)
  {
    var r := Filter(s, p);
    forall i | 0 <= i < |r| ensures 0 < key(r[i]) < next {
      assert r[i] in r;
      var k :| 0 <= k < |s| && s[k] == r[i];
    }
    assert DistinctKeys(s, key);
    FilterKeepsDistinctKeys(s, key, p);
  }

  /** Removing the element at `i` keeps every other element, in order. */
  function RemoveAt<T>(s: seq<T>, i: int): (r: seq<T>)
    requires 0 <= i < |s|
    ensures |r| == |s| - 1
    ensures multiset(r) == multiset(s) - multiset{s[i]}
  {
    assert s == s[..i] + [s[i]] + s[i + 1..];
    s[..i] + s[i + 1..]
  }

  /** With distinct keys, removing the row at `i` removes exactly the rows
      with its key and keeps the keys valid. */
  lemma RemoveKeyed<T>(s: seq<T>, key: T -> int, next: int, i: int)
    requires KeysValid(s, key, next) && 0 <= i < |s|
    ensures KeysValid(RemoveAt(s, i), key, next)
    ensures forall x :: x in RemoveAt(s, i) <==> x in s && key(x) != key(s[i])
  {
    var r := RemoveAt(s, i);
    RemoveKeepsKeysValid(s, key, next, i);
    forall x ensures x in r <==> x in s && key(x) != key(s[i]) {
      if x in s && key(x) != key(s[i]) {
        var k :| 0 <= k < |s| && s[k] == x;
        assert k != i;
        assert x == if k < i then r[k] else r[k - 1];
      }
      if x in r {
        var k :| 0 <= k < |r| && r[k] == x;
        var k' := if k < i then k else k + 1;
        assert x == s[k'] && k' != i;
      }
    }
  }

  // ---------------------------------------------------------------------------
  // Int32.ToString() in the invariant culture
  // ---------------------------------------------------------------------------

  predicate IsDigit(c: char) { '0' <= c <= '9' }

  /** The decimal digits of a non-negative number, most significant first. */
  function NaturalString(n: nat): (s: string)
    ensures 0 < |s|
    ensures forall i :: 0 <= i < |s| ==> IsDigit(s[i])
  {
    var last := ('0' as int + n % 10) as char;
    if n < 10 then [last] else NaturalString(n / 10) + [last]
  }

  /** A '-' for a negative number, then its digits: every character after
      the first is a digit. */
  function DecimalString(n: int): (s: string)
    ensures 0 < |s|
    ensures forall i :: 0 < i < |s| ==> IsDigit(s[i])
    ensures IsDigit(s[0]) <==> 0 <= n
  {
    if n < 0 then "-" + NaturalString(-n) else NaturalString(n)
  }
}
