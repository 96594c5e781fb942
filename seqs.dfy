/**
 * Small sequence functions that stand in for the Python built-ins the source
 * uses: `set(s)`, `collections.Counter`, list comprehensions that drop a value,
 * slicing `s[:n]`, `sorted(...)`, `reversed(...)` and `max(...)`.
 */
module Seqs {

  /** `set(s)` */
  function Elems<T>(s: seq<T>): set<T> {
    set x | x in s
  }

  predicate NoDups<T(==)>(s: seq<T>) {
    forall i, j :: 0 <= i < j < |s| ==> s[i] != s[j]
  }

  /** `Counter(s)[x]`: the number of occurrences of `x` in `s`. */
  function Count<T(==)>(s: seq<T>, x: T): (n: nat)
    ensures n == multiset(s)[x]
    ensures n <= |s|
  {
    if s == [] then 0
    else
      assert s == [s[0]] + s[1..];
      (if s[0] == x then 1 else 0) + Count(s[1..], x)
  }

  /** `[y for y in s if y != x]` */
  function Remove<T(==,!new)>(s: seq<T>, x: T): (r: seq<T>)
    ensures multiset(r) == multiset(s)[x := 0]
    ensures forall y :: y in r <==> y in s && y != x
    ensures |r| == |s| - Count(s, x)
  {
    if s == [] then []
    else
      assert s == [s[0]] + s[1..];
      if s[0] == x then Remove(s[1..], x) else [s[0]] + Remove(s[1..], x)
  }

  /** `s[:n]` (Python slicing never fails: a short list is returned whole). */
  function Take<T>(s: seq<T>, n: nat): (r: seq<T>)
    ensures |r| == if n <= |s| then n else |s|
    ensures forall i :: 0 <= i < |r| ==> r[i] == s[i]
  {
    if n <= |s| then s[..n] else s
  }

  /** `max(s)` of a non-empty list. */
  function Max(s: seq<int>): (m: int)
    requires |s| > 0
    ensures m in s
    ensures forall y :: y in s ==> y <= m
  {
    if |s| == 1 then s[0]
    else
      var t := Max(s[1..]);
      assert forall y :: y in s ==> y == s[0] || y in s[1..];
      if s[0] >= t then s[0] else t
  }

  predicate Ascending(s: seq<int>) {
    forall i, j :: 0 <= i < j < |s| ==> s[i] <= s[j]
  }

  predicate Descending(s: seq<int>) {
    forall i, j :: 0 <= i < j < |s| ==> s[i] >= s[j]
  }

  predicate StrictlyAscending(s: seq<int>) {
    forall i, j :: 0 <= i < j < |s| ==> s[i] < s[j]
  }

  predicate StrictlyDescending(s: seq<int>) {
    forall i, j :: 0 <= i < j < |s| ==> s[i] > s[j]
  }

  function Insert(x: int, s: seq<int>): (r: seq<int>)
    requires Ascending(s)
    ensures Ascending(r)
    ensures multiset(r) == multiset(s) + multiset{x}
  {
    if s == [] then [x]
    else if x <= s[0] then [x] + s
    else
      assert s == [s[0]] + s[1..];
      var t := Insert(x, s[1..]);
      InsertLowerBound(s[0], x, s[1..], t);
      [s[0]] + t
  }

  lemma InsertLowerBound(lo: int, x: int, s: seq<int>, t: seq<int>)
    requires lo <= x && forall y :: y in s ==> lo <= y
    requires multiset(t) == multiset(s) + multiset{x}
    ensures forall j :: 0 <= j < |t| ==> lo <= t[j]
  {
    forall j | 0 <= j < |t| ensures lo <= t[j] {
      assert t[j] in multiset(t);
      assert t[j] == x || t[j] in multiset(s);
      if t[j] != x { assert t[j] in s; }
    }
  }

  /** `sorted(s)` */
  function SortAsc(s: seq<int>): (r: seq<int>)
    ensures Ascending(r)
    ensures multiset(r) == multiset(s)
  {
    if s == [] then []
    else
      assert s == [s[0]] + s[1..];
      Insert(s[0], SortAsc(s[1..]))
  }

  /** `reversed(s)` */
  function Reverse<T>(s: seq<T>): (r: seq<T>)
    ensures |r| == |s|
    ensures forall i :: 0 <= i < |s| ==> r[i] == s[|s| - 1 - i]
    ensures multiset(r) == multiset(s)
  {
    if s == [] then []
    else
      assert s == [s[0]] + s[1..];
      Reverse(s[1..]) + [s[0]]
  }

  /** `sorted(s, reverse=True)`: on integers this is `reversed(sorted(s))`. */
  function SortDesc(s: seq<int>): (r: seq<int>)
    ensures Descending(r)
    ensures multiset(r) == multiset(s)
  {
    Reverse(SortAsc(s))
  }

  /** One copy of each element of `s` (the list behind `set(s)`). */
  function Dedup<T(==,!new)>(s: seq<T>): (r: seq<T>)
    ensures NoDups(r)
    ensures forall x :: x in r <==> x in s
  {
    if s == [] then []
    else if s[0] in s[1..] then Dedup(s[1..])
    else [s[0]] + Dedup(s[1..])
  }

  /** `sorted(set(s), reverse=True)` */
  function UniqueDesc(s: seq<int>): (r: seq<int>)
    ensures StrictlyDescending(r)
    ensures forall x :: x in r <==> x in s
  {
    var d := Dedup(s);
    var r := SortDesc(d);
    NoDupsMultiset(d, r);
    assert forall x :: x in r <==> x in multiset(d);
    r
  }

  lemma {:induction false} SortedUnique(a: seq<int>, b: seq<int>)
    requires Ascending(a) && Ascending(b)
    requires multiset(a) == multiset(b)
    ensures a == b
  {
    if a != [] {
      SameMultisetNonEmpty(a, b);
      AscendingHead(a, b[0]);
      AscendingHead(b, a[0]);
      TailMultiset(a, b);
      SortedUnique(a[1..], b[1..]);
      assert a == [a[0]] + a[1..] && b == [b[0]] + b[1..];
    }
  }

  lemma {:induction false} DescendingUnique(a: seq<int>, b: seq<int>)
    requires Descending(a) && Descending(b)
    requires multiset(a) == multiset(b)
    ensures a == b
  {
    if a != [] {
      SameMultisetNonEmpty(a, b);
      DescendingHead(a, b[0]);
      DescendingHead(b, a[0]);
      TailMultiset(a, b);
      DescendingUnique(a[1..], b[1..]);
      assert a == [a[0]] + a[1..] && b == [b[0]] + b[1..];
    }
  }

  lemma AscendingHead(a: seq<int>, x: int)
    requires Ascending(a) && x in multiset(a)
    ensures a[0] <= x
  {
    var j :| 0 <= j < |a| && a[j] == x;
  }

  lemma DescendingHead(a: seq<int>, x: int)
    requires Descending(a) && x in multiset(a)
    ensures a[0] >= x
  {
    var j :| 0 <= j < |a| && a[j] == x;
  }

  lemma SameMultisetNonEmpty<T>(a: seq<T>, b: seq<T>)
    requires multiset(a) == multiset(b) && a != []
    ensures b != []
  {
    assert |multiset(b)| == |multiset(a)|;
  }

  /** Two lists with the same elements and the same head have tails with the same elements. */
  lemma TailMultiset<T>(a: seq<T>, b: seq<T>)
    requires a != [] && b != [] && a[0] == b[0]
    requires multiset(a) == multiset(b)
    ensures multiset(a[1..]) == multiset(b[1..])
  {
    assert a == [a[0]] + a[1..] && b == [b[0]] + b[1..];
    assert multiset(a[1..]) == multiset(a) - multiset{a[0]};
    assert multiset(b[1..]) == multiset(b) - multiset{b[0]};
  }

  /** A strictly descending list is determined by its elements. */
  lemma StrictlyDescendingUnique(a: seq<int>, b: seq<int>)
    requires StrictlyDescending(a) && StrictlyDescending(b)
    requires forall x :: x in a <==> x in b
    ensures a == b
  {
    forall x ensures multiset(a)[x] == multiset(b)[x] {
      NoDupsCount(a, x);
      NoDupsCount(b, x);
      assert x in a <==> x in multiset(a);
      assert x in b <==> x in multiset(b);
    }
    assert multiset(a) == multiset(b);
    DescendingUnique(a, b);
  }

  /** A strictly ascending list is determined by its elements. */
  lemma StrictlyAscendingUnique(a: seq<int>, b: seq<int>)
    requires StrictlyAscending(a) && StrictlyAscending(b)
    requires forall x :: x in a <==> x in b
    ensures a == b
  {
    forall x ensures multiset(a)[x] == multiset(b)[x] {
      NoDupsCount(a, x);
      NoDupsCount(b, x);
      assert x in a <==> x in multiset(a);
      assert x in b <==> x in multiset(b);
    }
    assert multiset(a) == multiset(b);
    SortedUnique(a, b);
  }

  lemma NoDupsCount<T>(s: seq<T>, x: T)
    requires NoDups(s)
    ensures Count(s, x) <= 1
  {
    if s != [] {
      NoDupsCount(s[1..], x);
      if s[0] == x {
        assert x !in s[1..];
      }
    }
  }

  lemma DupCount<T>(s: seq<T>, i: int, j: int)
    requires 0 <= i < j < |s| && s[i] == s[j]
    ensures Count(s, s[i]) >= 2
  {
    var x := s[i];
    assert s == s[..i] + [x] + s[i+1..j] + [x] + s[j+1..];
    assert multiset(s) == multiset(s[..i]) + multiset{x} + multiset(s[i+1..j]) + multiset{x} + multiset(s[j+1..]);
  }

  /** Having no duplicates is a property of the multiset. */
  lemma NoDupsMultiset<T>(a: seq<T>, b: seq<T>)
    requires NoDups(a) && multiset(a) == multiset(b)
    ensures NoDups(b)
  {
    if !NoDups(b) {
      var i, j :| 0 <= i < j < |b| && b[i] == b[j];
      DupCount(b, i, j);
      NoDupsCount(a, b[i]);
      assert false;
    }
  }

  lemma MultisetElems<T>(a: seq<T>, b: seq<T>)
    requires multiset(a) == multiset(b)
    ensures Elems(a) == Elems(b)
  {
    assert forall x :: x in a <==> x in multiset(b);
  }

  /** Two distinct values together occur at most |s| times. */
  lemma CountPair<T>(s: seq<T>, a: T, b: T)
    requires a != b
    ensures Count(s, a) + Count(s, b) <= |s|
  {
    if s != [] {
      CountPair(s[1..], a, b);
    }
  }

  /** If two values occur fewer than |s| times together, a third one occurs. */
  lemma OtherElement<T>(s: seq<T>, a: T, b: T) returns (y: T)
    requires Count(s, a) + Count(s, b) < |s|
    ensures y in s && y != a && y != b
  {
    if s[0] != a && s[0] != b {
      y := s[0];
    } else {
      y := OtherElement(s[1..], a, b);
    }
  }

  /** Filtering keeps a strictly descending list strictly descending. */
  lemma {:induction false} RemoveDescending(s: seq<int>, x: int)
    requires StrictlyDescending(s)
    ensures StrictlyDescending(Remove(s, x))
  {
    if s != [] {
      var t := s[1..];
      assert StrictlyDescending(t);
      RemoveDescending(t, x);
      if s[0] != x {
        BelowHead(s);
        ConsDescending(s[0], Remove(t, x));
      }
    }
  }

  lemma BelowHead(s: seq<int>)
    requires StrictlyDescending(s) && s != []
    ensures forall y :: y in s[1..] ==> y < s[0]
  {
    forall y | y in s[1..] ensures y < s[0] {
      var k :| 0 <= k < |s[1..]| && s[1..][k] == y;
      assert s[k + 1] == y;
    }
  }

  lemma ConsDescending(h: int, r: seq<int>)
    requires StrictlyDescending(r)
    requires forall y :: y in r ==> y < h
    ensures StrictlyDescending([h] + r)
  {
    var hr := [h] + r;
    forall i, j | 0 <= i < j < |hr| ensures hr[i] > hr[j] {
      assert hr[j] == r[j - 1];
      if i > 0 {
        assert hr[i] == r[i - 1];
      } else {
        assert r[j - 1] in r;
      }
    }
  }

  /** Three distinct values cannot occur more often, together, than the list is long. */
  lemma CountTriple<T>(s: seq<T>, a: T, b: T, c: T)
    requires a != b && b != c && a != c
    ensures Count(s, a) + Count(s, b) + Count(s, c) <= |s|
  {
    if s != [] {
      CountTriple(s[1..], a, b, c);
    }
  }

  /** An element other than `x`, when not every element is `x`. */
  lemma OtherThan<T>(s: seq<T>, x: T) returns (y: T)
    requires Count(s, x) < |s|
    ensures y in s && y != x
  {
    if s[0] != x {
      y := s[0];
    } else {
      y := OtherThan(s[1..], x);
    }
  }

  /** A list without duplicates has as many elements as its set. */
  lemma DistinctCardinality<T>(s: seq<T>)
    ensures |Elems(s)| <= |s|
    ensures |Elems(s)| == |s| <==> NoDups(s)
  {
    if s == [] {
      assert Elems(s) == {};
    } else {
      var t := s[1..];
      DistinctCardinality(t);
      assert Elems(s) == {s[0]} + Elems(t);
      if s[0] in t {
        assert Elems(s) == Elems(t);
        var j :| 0 <= j < |t| && t[j] == s[0];
        assert s[0] == s[j + 1];
      } else {
        assert |Elems(s)| == |Elems(t)| + 1;
        assert NoDups(s) <==> NoDups(t) by {
          if NoDups(t) {
            forall i, j | 0 <= i < j < |s| ensures s[i] != s[j] {
              if i == 0 { assert s[j] == t[j - 1]; }
            }
          }
          if NoDups(s) {
            forall i, j | 0 <= i < j < |t| ensures t[i] != t[j] {
              assert t[i] == s[i + 1] && t[j] == s[j + 1];
            }
          }
        }
      }
    }
  }
}
