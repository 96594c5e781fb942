/**
 * The five-card evaluator (hand_rank5.py). A hand's rank is a tuple
 * (category, tiebreaks...) compared lexicographically; categories run from 0
 * (high card) to 8 (straight flush).
 */
module HandRank5 {
  import opened Results
  import opened Seqs
  import opened Cards
  import opened TupleOrder

  // ---------------------------------------------------------------------------
  // _straight_high

  /** The sequence the scan runs over: a low ace (1) in front when 14 is present and 1 is not. */
  function WithLowAce(u: seq<int>): seq<int> {
    if 14 in u && 1 !in u then [1] + u else u
  }

  /** The value of `run` once the scan has looked at index i. */
  function RunLen(s: seq<int>, i: nat): nat
    requires i < |s|
  {
    if i == 0 then 1
    else if s[i] == s[i - 1] + 1 then RunLen(s, i - 1) + 1
    else if s[i] != s[i - 1] then 1
    else RunLen(s, i - 1)
  }

  /** The value of `best_high` once the scan has looked at indices 1..n-1. */
  function BestHigh(s: seq<int>, n: nat): Option<int>
    requires n <= |s|
  {
    if n <= 1 then None
    else if s[n - 1] == s[n - 2] + 1 && RunLen(s, n - 1) >= 5 then Some(s[n - 1])
    else BestHigh(s, n - 1)
  }

  /** `_straight_high(u)`: None for fewer than five values, else the last run end found. */
  function StraightHigh(u: seq<int>): Option<int> {
    if |u| < 5 then None
    else
      var s := WithLowAce(u);
      BestHigh(s, |s|)
  }

  /** `_straight_high`, as the source writes it: one pass updating `run` and `best_high`. */
  method ScanStraightHigh(u: seq<int>) returns (best: Option<int>)
    ensures best == StraightHigh(u)
  {
    if |u| < 5 {
      return None;
    }
    var s := u;
    if 14 in s && 1 !in s {
      s := [1] + s;
    }
    var run := 1;
    best := None;
    for i := 1 to |s|
      invariant run == RunLen(s, i - 1)
      invariant best == BestHigh(s, i)
    {
      if s[i] == s[i - 1] + 1 {
        run := run + 1;
        if run >= 5 {
          best := Some(s[i]);
        }
      } else if s[i] != s[i - 1] {
        run := 1;
      }
    }
  }

  /** The five values h-4..h all occur in s. */
  predicate FiveRun(s: seq<int>, h: int) {
    h in s && h - 1 in s && h - 2 in s && h - 3 in s && h - 4 in s
  }

  /** Index i ends five consecutive values s[i-4], ..., s[i]. */
  predicate RunEndsAt(s: seq<int>, i: int)
    requires 0 <= i < |s|
  {
    && 4 <= i
    && s[i - 1] == s[i] - 1 && s[i - 2] == s[i] - 2
    && s[i - 3] == s[i] - 3 && s[i - 4] == s[i] - 4
  }

  lemma RunLenStep(s: seq<int>, i: nat)
    requires StrictlyAscending(s) && 0 < i < |s|
    ensures RunLen(s, i) == if s[i] == s[i - 1] + 1 then RunLen(s, i - 1) + 1 else 1
  {
  }

  /** On a strictly ascending sequence, `run` reaches 5 exactly at the end of five consecutive values. */
  lemma RunLenFive(s: seq<int>, i: nat)
    requires StrictlyAscending(s) && i < |s|
    ensures RunLen(s, i) >= 5 <==> RunEndsAt(s, i)
  {
    if i >= 4 {
      RunLenStep(s, i);
      RunLenStep(s, i - 1);
      RunLenStep(s, i - 2);
      RunLenStep(s, i - 3);
    } else if i > 0 {
      RunLenStep(s, i);
      if i > 1 {
        RunLenStep(s, i - 1);
        if i > 2 {
          RunLenStep(s, i - 2);
        }
      }
    }
  }

  lemma IndexOfValue(s: seq<int>, x: int) returns (i: nat)
    requires x in s
    ensures i < |s| && s[i] == x
  {
    i :| 0 <= i < |s| && s[i] == x;
  }

  /** On a strictly ascending sequence, five consecutive values sit at consecutive positions. */
  lemma FiveRunAt(s: seq<int>, h: int) returns (i: nat)
    requires StrictlyAscending(s) && FiveRun(s, h)
    ensures i < |s| && s[i] == h && RunEndsAt(s, i)
  {
    i := IndexOfValue(s, h);
    var j1 := IndexOfValue(s, h - 1);
    var j2 := IndexOfValue(s, h - 2);
    var j3 := IndexOfValue(s, h - 3);
    var j4 := IndexOfValue(s, h - 4);
    assert j4 < j3 < j2 < j1 < i;
    assert s[j1] <= s[i - 1] < s[i];
    assert s[j2] <= s[i - 2] < s[i - 1];
    assert s[j3] <= s[i - 3] < s[i - 2];
    assert s[j4] <= s[i - 4] < s[i - 3];
  }

  /** What `best_high` holds after n steps over a strictly ascending sequence. */
  lemma {:induction false} BestHighMeaning(s: seq<int>, n: nat)
    requires StrictlyAscending(s) && n <= |s|
    ensures BestHigh(s, n).None? <==> forall i :: 0 <= i < n ==> !RunEndsAt(s, i)
    ensures BestHigh(s, n).Some? ==>
      && (exists i :: 0 <= i < n && s[i] == BestHigh(s, n).value && RunEndsAt(s, i))
      && (forall i :: 0 <= i < n && RunEndsAt(s, i) ==> s[i] <= BestHigh(s, n).value)
  {
    if n <= 1 {
      assert forall i :: 0 <= i < n ==> !RunEndsAt(s, i);
    } else {
      BestHighMeaning(s, n - 1);
      BestHighStep(s, n);
      if RunEndsAt(s, n - 1) {
        forall i | 0 <= i < n && RunEndsAt(s, i) ensures s[i] <= s[n - 1] {
        }
      } else {
        assert forall i :: 0 <= i < n && RunEndsAt(s, i) ==> i < n - 1;
      }
    }
  }

  /** One step of the scan: a run end replaces `best_high`, anything else keeps it. */
  lemma BestHighStep(s: seq<int>, n: nat)
    requires StrictlyAscending(s) && 2 <= n <= |s|
    ensures RunEndsAt(s, n - 1) ==> BestHigh(s, n) == Some(s[n - 1])
    ensures !RunEndsAt(s, n - 1) ==> BestHigh(s, n) == BestHigh(s, n - 1)
  {
    RunLenFive(s, n - 1);
    RunLenStep(s, n - 1);
  }

  /**
   * On a strictly ascending scan sequence, `_straight_high` is the largest h
   * such that h-4..h all occur (the low ace counting as 1), and None when
   * there is no such h or fewer than five values.
   */
  lemma StraightHighMeaning(u: seq<int>)
    requires StrictlyAscending(WithLowAce(u))
    ensures StraightHigh(u).Some? <==> |u| >= 5 && exists h :: FiveRun(WithLowAce(u), h)
    ensures StraightHigh(u).Some? ==>
      && FiveRun(WithLowAce(u), StraightHigh(u).value)
      && forall h :: FiveRun(WithLowAce(u), h) ==> h <= StraightHigh(u).value
  {
    var s := WithLowAce(u);
    BestHighMeaning(s, |s|);
    if |u| >= 5 {
      BestHighUpper(s);
      if BestHigh(s, |s|).Some? {
        BestHighAttained(s);
      }
    }
  }

  lemma BestHighUpper(s: seq<int>)
    requires StrictlyAscending(s)
    requires forall i :: 0 <= i < |s| && RunEndsAt(s, i) ==> BestHigh(s, |s|).Some? && s[i] <= BestHigh(s, |s|).value
    ensures forall h :: FiveRun(s, h) ==> BestHigh(s, |s|).Some? && h <= BestHigh(s, |s|).value
  {
    forall h | FiveRun(s, h) ensures BestHigh(s, |s|).Some? && h <= BestHigh(s, |s|).value {
      var i := FiveRunAt(s, h);
    }
  }

  lemma BestHighAttained(s: seq<int>)
    requires BestHigh(s, |s|).Some?
    requires exists i :: 0 <= i < |s| && s[i] == BestHigh(s, |s|).value && RunEndsAt(s, i)
    ensures FiveRun(s, BestHigh(s, |s|).value)
  {
    var i :| 0 <= i < |s| && s[i] == BestHigh(s, |s|).value && RunEndsAt(s, i);
    assert s[i - 1] in s && s[i - 2] in s && s[i - 3] in s && s[i - 4] in s;
  }

  /** Values of real cards (2..14), distinct and ascending, keep the scan sequence strictly ascending. */
  lemma WithLowAceAscending(u: seq<int>)
    requires StrictlyAscending(u)
    requires forall i :: 0 <= i < |u| ==> u[i] >= 1
    ensures StrictlyAscending(WithLowAce(u))
  {
    if 14 in u && 1 !in u {
      var s := [1] + u;
      forall i, j | 0 <= i < j < |s| ensures s[i] < s[j] {
        if i > 0 {
          assert s[i] == u[i - 1] && s[j] == u[j - 1];
        } else {
          assert s[j] == u[j - 1] && u[j - 1] != 1;
        }
      }
    }
  }

  /**
   * On cards of value 1..14, a straight is five consecutive values among the
   * hand's (the ace also low), and its top is the highest such run's.
   */
  lemma IsStraightMeaning(h: seq<Card>)
    requires forall i :: 0 <= i < |h| ==> 1 <= h[i].value <= 14
    ensures var s := WithLowAce(UniqueAsc(Values(h)));
      && (IsStraight(h) <==> |UniqueAsc(Values(h))| >= 5 && exists top :: FiveRun(s, top))
      && (IsStraight(h) ==> var top := StraightHigh(UniqueAsc(Values(h))).value;
            FiveRun(s, top) && top <= 14 && forall t :: FiveRun(s, t) ==> t <= top)
  {
    var vals := Values(h);
    var u := UniqueAsc(vals);
    forall i | 0 <= i < |u| ensures u[i] >= 1 {
      assert u[i] in u && u[i] in vals;
    }
    WithLowAceAscending(u);
    StraightHighMeaning(u);
    if IsStraight(h) {
      var top := StraightHigh(u).value;
      assert top in WithLowAce(u);
      if top != 1 {
        assert top in u && top in vals;
      }
    }
  }

  lemma StraightTopBound(h: seq<Card>, top: int)
    requires forall i :: 0 <= i < |h| ==> 1 <= h[i].value <= 14
    requires StraightHigh(UniqueAsc(Values(h))) == Some(top)
    ensures top <= 14
  {
    IsStraightMeaning(h);
  }

  /** The wheel counts the ace low; broadway counts it high. */
  lemma StraightExamples()
    ensures StraightHigh([2, 3, 4, 5, 14]) == Some(5)
    ensures StraightHigh([10, 11, 12, 13, 14]) == Some(14)
    ensures StraightHigh([9, 10, 11, 12, 13]) == Some(13)
    ensures StraightHigh([2, 3, 4, 5, 6, 14]) == Some(6)
    ensures StraightHigh([2, 3, 4, 5, 13]) == None
    ensures StraightHigh([2, 3, 4, 5]) == None
  {
    StraightWheel();
    StraightBroadway();
    StraightNineHigh();
    StraightSixHigh();
    StraightMissing();
  }

  /** The ace counts low: 1-2-3-4-5. */
  lemma StraightWheel()
    ensures StraightHigh([2, 3, 4, 5, 14]) == Some(5)
  {
    assert WithLowAce([2, 3, 4, 5, 14]) == [1, 2, 3, 4, 5, 14];
    assert RunLen([1, 2, 3, 4, 5, 14], 4) == 5;
    assert BestHigh([1, 2, 3, 4, 5, 14], 6) == BestHigh([1, 2, 3, 4, 5, 14], 5) == Some(5);
  }

  lemma StraightBroadway()
    ensures StraightHigh([10, 11, 12, 13, 14]) == Some(14)
  {
  }

  lemma StraightNineHigh()
    ensures StraightHigh([9, 10, 11, 12, 13]) == Some(13)
  {
  }

  /** With an ace as well, the longer run still ends at six. */
  lemma StraightSixHigh()
    ensures StraightHigh([2, 3, 4, 5, 6, 14]) == Some(6)
  {
    assert WithLowAce([2, 3, 4, 5, 6, 14]) == [1, 2, 3, 4, 5, 6, 14];
    assert RunLen([1, 2, 3, 4, 5, 6, 14], 5) == 6;
    assert BestHigh([1, 2, 3, 4, 5, 6, 14], 7) == BestHigh([1, 2, 3, 4, 5, 6, 14], 6) == Some(6);
  }

  lemma StraightMissing()
    ensures StraightHigh([2, 3, 4, 5, 13]) == None
    ensures StraightHigh([2, 3, 4, 5]) == None
  {
  }

  // ---------------------------------------------------------------------------
  // Counts: Counter(vals) and by_count

  function Values(cards: seq<Card>): (vs: seq<int>)
    ensures |vs| == |cards| && forall i :: 0 <= i < |cards| ==> vs[i] == cards[i].value
  {
    seq(|cards|, i requires 0 <= i < |cards| => cards[i].value)
  }

  function SuitsOf(cards: seq<Card>): (ss: seq<char>)
    ensures |ss| == |cards| && forall i :: 0 <= i < |cards| ==> ss[i] == cards[i].suit
  {
    seq(|cards|, i requires 0 <= i < |cards| => cards[i].suit)
  }

  /** The sort key of `by_count`: first the count, then the value. */
  predicate KeyLess(a: (int, nat), b: (int, nat)) {
    a.1 < b.1 || (a.1 == b.1 && a.0 < b.0)
  }

  predicate KeyDescending(bc: seq<(int, nat)>) {
    forall i, j :: 0 <= i < j < |bc| ==> KeyLess(bc[j], bc[i])
  }

  /** The values of u whose count in vals is c, paired with c, in u's order. */
  function WithCount(u: seq<int>, vals: seq<int>, c: nat): (r: seq<(int, nat)>)
    ensures forall p :: p in r <==> p.0 in u && p.1 == c && Count(vals, p.0) == c
  {
    if u == [] then []
    else (if Count(vals, u[0]) == c then [(u[0], c)] else []) + WithCount(u[1..], vals, c)
  }

  /** The blocks for counts c, c-1, ..., 1, one after another. */
  function ByCountFrom(u: seq<int>, vals: seq<int>, c: nat): (r: seq<(int, nat)>)
    ensures forall p :: p in r <==> p.0 in u && 1 <= p.1 <= c && Count(vals, p.0) == p.1
  {
    if c == 0 then [] else WithCount(u, vals, c) + ByCountFrom(u, vals, c - 1)
  }

  /**
   * `sorted(Counter(vals).items(), key=lambda x: (x[1], x[0]), reverse=True)`,
   * built block by block: the distinct values with the highest count first,
   * larger values first within a block.
   */
  function ByCount(vals: seq<int>): (bc: seq<(int, nat)>)
    ensures |vals| > 0 ==> |bc| > 0
  {
    var bc := ByCountFrom(UniqueDesc(vals), vals, |vals|);
    if |vals| > 0 then
      assert vals[0] in UniqueDesc(vals) && vals[0] in multiset(vals);
      assert (vals[0], Count(vals, vals[0])) in bc;
      bc
    else bc
  }

  /** `[v for v, c in bc if c == k]` */
  function KeysWithCount(bc: seq<(int, nat)>, k: nat): (r: seq<int>)
    ensures forall x :: x in r <==> (x, k) in bc
  {
    if bc == [] then []
    else
      assert forall p :: p in bc <==> p == bc[0] || p in bc[1..];
      (if bc[0].1 == k then [bc[0].0] else []) + KeysWithCount(bc[1..], k)
  }

  lemma KeyDescendingConcat(a: seq<(int, nat)>, b: seq<(int, nat)>)
    requires KeyDescending(a) && KeyDescending(b)
    requires forall x, y :: x in a && y in b ==> KeyLess(y, x)
    ensures KeyDescending(a + b)
  {
    var ab := a + b;
    forall i, j | 0 <= i < j < |ab| ensures KeyLess(ab[j], ab[i]) {
      if j < |a| {
        assert ab[i] == a[i] && ab[j] == a[j];
      } else if i >= |a| {
        assert ab[i] == b[i - |a|] && ab[j] == b[j - |a|];
      } else {
        assert ab[i] in a && ab[j] in b;
      }
    }
  }

  lemma {:induction false} WithCountSorted(u: seq<int>, vals: seq<int>, c: nat)
    requires StrictlyDescending(u)
    ensures KeyDescending(WithCount(u, vals, c))
  {
    if u != [] {
      var t := u[1..];
      assert StrictlyDescending(t);
      WithCountSorted(t, vals, c);
      var head: seq<(int, nat)> := if Count(vals, u[0]) == c then [(u[0], c)] else [];
      forall x, y | x in head && y in WithCount(t, vals, c) ensures KeyLess(y, x) {
        var j :| 0 <= j < |t| && t[j] == y.0;
        assert u[j + 1] == y.0;
      }
      KeyDescendingConcat(head, WithCount(t, vals, c));
    }
  }

  lemma {:induction false} ByCountFromSorted(u: seq<int>, vals: seq<int>, c: nat)
    requires StrictlyDescending(u)
    ensures KeyDescending(ByCountFrom(u, vals, c))
  {
    if c > 0 {
      ByCountFromSorted(u, vals, c - 1);
      ByCountFromStep(u, vals, c);
    }
  }

  lemma ByCountFromStep(u: seq<int>, vals: seq<int>, c: nat)
    requires StrictlyDescending(u) && c > 0
    requires KeyDescending(ByCountFrom(u, vals, c - 1))
    ensures KeyDescending(ByCountFrom(u, vals, c))
  {
    WithCountSorted(u, vals, c);
    BlocksOrdered(u, vals, c);
    KeyDescendingConcat(WithCount(u, vals, c), ByCountFrom(u, vals, c - 1));
  }

  /** Every entry of the block for count c sorts above the blocks for smaller counts. */
  lemma BlocksOrdered(u: seq<int>, vals: seq<int>, c: nat)
    requires c > 0
    ensures forall x, y :: x in WithCount(u, vals, c) && y in ByCountFrom(u, vals, c - 1) ==> KeyLess(y, x)
  {
  }

  /**
   * `by_count` is strictly decreasing in (count, value) and lists each value
   * of the hand once with its count, which is what Python's sort of
   * `Counter.items()` by that key returns.
   */
  lemma ByCountSpec(vals: seq<int>)
    ensures KeyDescending(ByCount(vals))
    ensures forall p :: p in ByCount(vals) <==> p.0 in vals && p.1 == Count(vals, p.0)
  {
    ByCountFromSorted(UniqueDesc(vals), vals, |vals|);
    forall v | v in vals ensures Count(vals, v) >= 1 {
      assert v in multiset(vals);
    }
  }

  lemma KeyHeadsEqual(a: seq<(int, nat)>, b: seq<(int, nat)>, i: nat, j: nat)
    requires KeyDescending(a) && KeyDescending(b)
    requires i < |a| && j < |b| && a[i] == b[0] && b[j] == a[0]
    ensures a[0] == b[0]
  {
  }

  /** A sequence sorted by a strict order is determined by its elements. */
  lemma KeyDescendingUnique(a: seq<(int, nat)>, b: seq<(int, nat)>)
    requires KeyDescending(a) && KeyDescending(b)
    requires forall p :: p in a <==> p in b
    ensures a == b
  {
    assert a != [] ==> a[0] in b;
    assert b != [] ==> b[0] in a;
    if a != [] && b != [] {
      var i :| 0 <= i < |a| && a[i] == b[0];
      var j :| 0 <= j < |b| && b[j] == a[0];
      KeyHeadsEqual(a, b, i, j);
      forall p ensures p in a[1..] <==> p in b[1..] {
        if p in a[1..] {
          TailMember(a, p);
          assert p in b;
          var j :| 0 <= j < |b| && b[j] == p;
          assert j != 0;
          assert b[1..][j - 1] == p;
        }
        if p in b[1..] {
          TailMember(b, p);
          assert p in a;
          var j :| 0 <= j < |a| && a[j] == p;
          assert j != 0;
          assert a[1..][j - 1] == p;
        }
      }
      KeyDescendingUnique(a[1..], b[1..]);
    }
  }

  lemma TailMember(a: seq<(int, nat)>, p: (int, nat))
    requires KeyDescending(a) && |a| > 0 && p in a[1..]
    ensures p in a && p != a[0]
  {
    var i :| 0 <= i < |a[1..]| && a[1..][i] == p;
    assert a[i + 1] == p;
  }

  /** by_count[0] carries the highest count, and the highest value among those with it. */
  lemma ByCountHead(vals: seq<int>)
    requires |vals| > 0
    ensures |ByCount(vals)| > 0
    ensures ByCount(vals)[0].0 in vals && ByCount(vals)[0].1 == Count(vals, ByCount(vals)[0].0)
    ensures forall v :: v in vals ==> Count(vals, v) <= ByCount(vals)[0].1
    ensures forall v :: v in vals && Count(vals, v) == ByCount(vals)[0].1 ==> v <= ByCount(vals)[0].0
  {
    ByCountSpec(vals);
    var bc := ByCount(vals);
    assert (vals[0], Count(vals, vals[0])) in bc;
    forall v | v in vals ensures KeyLess((v, Count(vals, v)), bc[0]) || v == bc[0].0 {
      KeyDescendingHead(bc, (v, Count(vals, v)));
    }
  }

  /** The head of a list sorted by the (count, value) order is its largest entry. */
  lemma KeyDescendingHead(bc: seq<(int, nat)>, p: (int, nat))
    requires KeyDescending(bc) && p in bc
    ensures p == bc[0] || KeyLess(p, bc[0])
  {
    var i :| 0 <= i < |bc| && bc[i] == p;
  }

  /** `[v for v, c in by_count if c == k]` lists the values of count k, largest first. */
  lemma KeysWithCountSpec(vals: seq<int>, k: nat)
    ensures StrictlyDescending(KeysWithCount(ByCount(vals), k))
    ensures forall x :: x in KeysWithCount(ByCount(vals), k) <==> x in vals && Count(vals, x) == k
  {
    ByCountSpec(vals);
    KeysSorted(ByCount(vals), k);
  }

  lemma {:induction false} KeysSorted(bc: seq<(int, nat)>, k: nat)
    requires KeyDescending(bc)
    ensures StrictlyDescending(KeysWithCount(bc, k))
  {
    if bc != [] {
      var t := bc[1..];
      assert KeyDescending(t);
      KeysSorted(t, k);
      var rest := KeysWithCount(t, k);
      if bc[0].1 == k {
        var r := [bc[0].0] + rest;
        forall i, j | 0 <= i < j < |r| ensures r[i] > r[j] {
          if i == 0 {
            assert r[j] in rest;
            var m :| 0 <= m < |t| && t[m] == (r[j], k);
            assert bc[m + 1] == t[m];
          } else {
            assert r[i] == rest[i - 1] && r[j] == rest[j - 1];
          }
        }
      }
    }
  }

  /** Every value of the hand, counted with its multiplicity, over the distinct values u. */
  function SumCounts(u: seq<int>, vals: seq<int>): nat {
    if u == [] then 0 else Count(vals, u[0]) + SumCounts(u[1..], vals)
  }

  lemma {:induction false} SumCountsCons(u: seq<int>, x: int, rest: seq<int>)
    ensures SumCounts(u, [x] + rest) == Count(u, x) + SumCounts(u, rest)
  {
    if u != [] {
      SumCountsCons(u[1..], x, rest);
      assert ([x] + rest)[1..] == rest;
    }
  }

  /** Summing the counts of the distinct values gives the number of values. */
  lemma {:induction false} SumCountsAll(u: seq<int>, vals: seq<int>)
    requires NoDups(u) && forall y :: y in vals ==> y in u
    ensures SumCounts(u, vals) == |vals|
  {
    if vals != [] {
      var x, rest := vals[0], vals[1..];
      assert vals == [x] + rest;
      assert x in vals;
      assert forall y :: y in rest ==> y in vals;
      SumCountsAll(u, rest);
      SumCountsCons(u, x, rest);
      NoDupsCount(u, x);
      assert x in u;
      assert x in multiset(u);
      assert Count(u, x) == 1;
    } else {
      SumCountsEmpty(u);
    }
  }

  lemma SumCountsEmpty(u: seq<int>)
    ensures SumCounts(u, []) == 0
  {
  }

  lemma {:induction false} SumCountsRemove(u: seq<int>, vals: seq<int>, x: int)
    requires NoDups(u) && x in u
    ensures SumCounts(u, vals) == Count(vals, x) + SumCounts(Remove(u, x), vals)
  {
    if u[0] == x {
      RemoveAbsent(u[1..], x);
    } else {
      SumCountsRemove(u[1..], vals, x);
      assert Remove(u, x) == [u[0]] + Remove(u[1..], x);
      assert ([u[0]] + Remove(u[1..], x))[1..] == Remove(u[1..], x);
    }
  }

  lemma RemoveAbsent(s: seq<int>, x: int)
    requires x !in s
    ensures Remove(s, x) == s
  {
  }

  /** When every value in r occurs once, r contributes |r| to the sum. */
  lemma {:induction false} SumCountsOnes(r: seq<int>, vals: seq<int>)
    requires forall y :: y in r ==> Count(vals, y) == 1
    ensures SumCounts(r, vals) == |r|
  {
    if r != [] {
      assert r[0] in r;
      assert Count(vals, r[0]) == 1;
      assert forall y :: y in r[1..] ==> y in r;
      SumCountsOnes(r[1..], vals);
      assert SumCounts(r, vals) == Count(vals, r[0]) + SumCounts(r[1..], vals);
    }
  }

  /** The sum over the distinct values other than x is what remains once x's count is taken. */
  lemma SumOthers(vals: seq<int>, x: int)
    requires x in vals
    ensures SumCounts(Remove(UniqueDesc(vals), x), vals) == |vals| - Count(vals, x)
    ensures |Remove(UniqueDesc(vals), x)| == |UniqueDesc(vals)| - 1
  {
    var u := UniqueDesc(vals);
    assert NoDups(u);
    SumCountsAll(u, vals);
    SumCountsRemove(u, vals, x);
    NoDupsCount(u, x);
    assert x in multiset(u);
  }

  // ---------------------------------------------------------------------------
  // rank5

  /** `len(set(suits)) == 1` */
  predicate IsFlush(cards: seq<Card>) {
    |Elems(SuitsOf(cards))| == 1
  }

  lemma QuadKicker(vals: seq<int>, q: int)
    requires |vals| == 5 && q in vals && Count(vals, q) == 4
    ensures |Remove(UniqueDesc(vals), q)| > 0
  {
    var y := OtherThan(vals, q);
    assert y in UniqueDesc(vals);
  }

  lemma TwoPairKicker(vals: seq<int>, pairs: seq<int>, sp: seq<int>)
    requires |vals| == 5 && pairs == KeysWithCount(ByCount(vals), 2) && |pairs| == 2
    requires multiset(sp) == multiset(pairs)
    ensures |sp| == 2 && sp[0] != sp[1]
    ensures Count(vals, sp[0]) == 2 && Count(vals, sp[1]) == 2
    ensures |Remove(Remove(UniqueDesc(vals), sp[0]), sp[1])| > 0
  {
    KeysWithCountSpec(vals, 2);
    SortedPairs(vals, pairs, sp);
    RemainingKicker(vals, sp[0], sp[1]);
  }

  lemma SortedPairs(vals: seq<int>, pairs: seq<int>, sp: seq<int>)
    requires StrictlyDescending(pairs) && |pairs| == 2
    requires forall x :: x in pairs <==> x in vals && Count(vals, x) == 2
    requires multiset(sp) == multiset(pairs)
    ensures |sp| == 2 && sp[0] != sp[1]
    ensures Count(vals, sp[0]) == 2 && Count(vals, sp[1]) == 2
  {
    assert |sp| == |multiset(sp)| == |multiset(pairs)|;
    assert NoDups(pairs);
    NoDupsMultiset(pairs, sp);
    assert sp[0] in multiset(pairs) && sp[1] in multiset(pairs);
  }

  /** Two pairs in five values leave a fifth value. */
  lemma RemainingKicker(vals: seq<int>, a: int, b: int)
    requires |vals| == 5 && a != b && Count(vals, a) == 2 && Count(vals, b) == 2
    ensures |Remove(Remove(UniqueDesc(vals), a), b)| > 0
  {
    var y := OtherElement(vals, a, b);
    assert y in UniqueDesc(vals);
    assert y in Remove(UniqueDesc(vals), a);
    assert y in Remove(Remove(UniqueDesc(vals), a), b);
  }

  /**
   * `rank5` on exactly five cards: the hand's values, their descending sort,
   * the distinct values, `by_count` and the flush test, then the branches.
   */
  function Evaluate5(cards: seq<Card>): (r: seq<int>)
    requires |cards| == 5
    ensures |r| > 0
  {
    var vals := Values(cards);
    Decide(IsFlush(cards), vals, SortDesc(vals), UniqueDesc(vals), ByCount(vals))
  }

  /** The branches of `rank5`, in the source's order, on what it has computed from the hand. */
  function Decide(isFlush: bool, ghost vals: seq<int>, sortedDesc: seq<int>, uniqueDesc: seq<int>, bc: seq<(int, nat)>): (r: seq<int>)
    requires |vals| == 5
    requires sortedDesc == SortDesc(vals) && uniqueDesc == UniqueDesc(vals) && bc == ByCount(vals)
    ensures |r| > 0
  {
    ByCountHead(vals);
    var sHigh := StraightHigh(Reverse(uniqueDesc));
    if isFlush && sHigh.Some? then [8, sHigh.value]
    else if bc[0].1 == 4 then
      var quad := bc[0].0;
      QuadKicker(vals, quad);
      [7, quad, Max(Remove(uniqueDesc, quad))]
    else
      var trips := KeysWithCount(bc, 3);
      var pairs := KeysWithCount(bc, 2);
      if |trips| > 0 && |pairs| > 0 then [6, trips[0], pairs[0]]
      else if isFlush then [5] + sortedDesc
      else if sHigh.Some? then [4, sHigh.value]
      else if bc[0].1 == 3 then [3, bc[0].0] + Take(Remove(uniqueDesc, bc[0].0), 2)
      else if |pairs| == 2 then
        var sp := SortDesc(pairs);
        TwoPairKicker(vals, pairs, sp);
        [2, sp[0], sp[1], Remove(Remove(uniqueDesc, sp[0]), sp[1])[0]]
      else if |pairs| == 1 then [1, pairs[0]] + Take(Remove(uniqueDesc, pairs[0]), 3)
      else [0] + sortedDesc
  }

  /** `rank5`: exactly five cards, or the error the source raises. */
  function Rank5(cards: seq<Card>): (r: Result<seq<int>>)
    ensures r.Err? <==> |cards| != 5
    ensures r.Err? ==> r.error == WrongCardCount
    ensures r.Ok? ==> r.value == Evaluate5(cards)
  {
    if |cards| != 5 then Err(WrongCardCount) else Ok(Evaluate5(cards))
  }

  // ---------------------------------------------------------------------------
  // What rank5 computes

  /** `list(reversed(vals_unique_desc))`, the list given to `_straight_high`. */
  function UniqueAsc(vals: seq<int>): (u: seq<int>)
    ensures StrictlyAscending(u)
    ensures forall x :: x in u <==> x in vals
  {
    ReverseDescending(UniqueDesc(vals));
    Reverse(UniqueDesc(vals))
  }

  lemma ReverseDescending(d: seq<int>)
    requires StrictlyDescending(d)
    ensures StrictlyAscending(Reverse(d))
    ensures forall x :: x in Reverse(d) <==> x in d
  {
    var u := Reverse(d);
    forall i, j | 0 <= i < j < |u| ensures u[i] < u[j] {
      assert u[i] == d[|d| - 1 - i] && u[j] == d[|d| - 1 - j];
    }
    MultisetElems(d, u);
  }

  /** Some value occurs exactly c times. */
  ghost predicate HasCount(vals: seq<int>, c: nat) {
    exists v :: v in vals && Count(vals, v) == c
  }

  /** Two different values each occur exactly twice. */
  ghost predicate TwoPairs(vals: seq<int>) {
    exists p, q :: p in vals && q in vals && p != q && Count(vals, p) == 2 && Count(vals, q) == 2
  }

  /** The hand contains a straight (the largest five-long run, the ace also low). */
  predicate IsStraight(cards: seq<Card>) {
    StraightHigh(UniqueAsc(Values(cards))).Some?
  }

  /**
   * The hand categories in poker's order of precedence, from the hand's flush,
   * straight and value multiplicities: a reference definition for `rank5`'s
   * first component.
   */
  ghost function Category(cards: seq<Card>): (c: int)
    ensures 0 <= c <= 8
  {
    var vals := Values(cards);
    if IsFlush(cards) && IsStraight(cards) then 8
    else if HasCount(vals, 4) then 7
    else if HasCount(vals, 3) && HasCount(vals, 2) then 6
    else if IsFlush(cards) then 5
    else if IsStraight(cards) then 4
    else if HasCount(vals, 3) then 3
    else if TwoPairs(vals) then 2
    else if HasCount(vals, 2) then 1
    else 0
  }

  /** The length of `rank5`'s tuple for each category. */
  function TupleLength(category: int): nat {
    if category == 8 || category == 4 then 2
    else if category == 7 || category == 6 then 3
    else if category == 5 || category == 0 then 6
    else if category == 3 || category == 2 then 4
    else 5
  }

  /** With five values there are at most two pairs. */
  lemma AtMostTwoPairs(vals: seq<int>)
    requires |vals| == 5
    ensures |KeysWithCount(ByCount(vals), 2)| <= 2
  {
    var pairs := KeysWithCount(ByCount(vals), 2);
    KeysWithCountSpec(vals, 2);
    if |pairs| > 2 {
      assert pairs[0] in pairs && pairs[1] in pairs && pairs[2] in pairs;
      CountTriple(vals, pairs[0], pairs[1], pairs[2]);
    }
  }

  /** A value that occurs c >= 3 times out of five carries the highest count. */
  lemma TopCountOf(vals: seq<int>, v: int)
    requires |vals| == 5 && v in vals && Count(vals, v) >= 3
    ensures ByCount(vals)[0].1 == Count(vals, v)
  {
    ByCountHead(vals);
    var top := ByCount(vals)[0];
    if v != top.0 {
      CountPair(vals, v, top.0);
    }
  }

  /** The highest count is 4 (or 3) exactly when some value occurs four (or three) times. */
  lemma TopCount(vals: seq<int>)
    requires |vals| == 5
    ensures ByCount(vals)[0].1 == 4 <==> HasCount(vals, 4)
    ensures ByCount(vals)[0].1 == 3 <==> HasCount(vals, 3)
  {
    ByCountHead(vals);
    var top := ByCount(vals)[0];
    assert top.0 in vals && Count(vals, top.0) == top.1;
    forall v | v in vals && Count(vals, v) >= 3 ensures top.1 == Count(vals, v) {
      TopCountOf(vals, v);
    }
  }

  lemma PairsMeaning(vals: seq<int>)
    requires |vals| == 5
    ensures |KeysWithCount(ByCount(vals), 2)| == 2 <==> TwoPairs(vals)
    ensures |KeysWithCount(ByCount(vals), 2)| > 0 <==> HasCount(vals, 2)
  {
    TwoPairsMeaning(vals);
    SomePairMeaning(vals);
  }

  lemma TwoPairsMeaning(vals: seq<int>)
    requires |vals| == 5
    ensures |KeysWithCount(ByCount(vals), 2)| == 2 <==> TwoPairs(vals)
  {
    var pairs := KeysWithCount(ByCount(vals), 2);
    KeysWithCountSpec(vals, 2);
    AtMostTwoPairs(vals);
    if |pairs| == 2 {
      assert pairs[0] in pairs && pairs[1] in pairs;
      assert pairs[0] != pairs[1];
    }
    if TwoPairs(vals) {
      var p, q :| p in vals && q in vals && p != q && Count(vals, p) == 2 && Count(vals, q) == 2;
      assert p in pairs && q in pairs;
      var i :| 0 <= i < |pairs| && pairs[i] == p;
      var j :| 0 <= j < |pairs| && pairs[j] == q;
      assert i != j;
    }
  }

  lemma SomePairMeaning(vals: seq<int>)
    ensures |KeysWithCount(ByCount(vals), 2)| > 0 <==> HasCount(vals, 2)
  {
    var pairs := KeysWithCount(ByCount(vals), 2);
    KeysWithCountSpec(vals, 2);
    if HasCount(vals, 2) {
      var v :| v in vals && Count(vals, v) == 2;
      assert v in pairs;
    }
    if |pairs| > 0 {
      assert pairs[0] in pairs;
    }
  }

  lemma TripsMeaning(vals: seq<int>)
    ensures |KeysWithCount(ByCount(vals), 3)| > 0 <==> HasCount(vals, 3)
  {
    var trips := KeysWithCount(ByCount(vals), 3);
    KeysWithCountSpec(vals, 3);
    if HasCount(vals, 3) {
      var v :| v in vals && Count(vals, v) == 3;
      assert v in trips;
    }
    if |trips| > 0 {
      assert trips[0] in trips;
    }
  }

  // Each branch of `rank5`, as a lemma of its own: the hand conditions that
  // reach it and the tuple it returns.

  function Top(vals: seq<int>): (int, nat)
    requires |vals| > 0
  {
    ByCount(vals)[0]
  }

  function Trips(vals: seq<int>): seq<int> {
    KeysWithCount(ByCount(vals), 3)
  }

  function Pairs(vals: seq<int>): seq<int> {
    KeysWithCount(ByCount(vals), 2)
  }

  lemma CategoryFacts(vals: seq<int>)
    requires |vals| == 5
    ensures Top(vals).1 == 4 <==> HasCount(vals, 4)
    ensures Top(vals).1 == 3 <==> HasCount(vals, 3)
    ensures |Pairs(vals)| == 2 <==> TwoPairs(vals)
    ensures |Pairs(vals)| > 0 <==> HasCount(vals, 2)
    ensures |Trips(vals)| > 0 <==> HasCount(vals, 3)
    ensures |Pairs(vals)| <= 2
  {
    AtMostTwoPairs(vals);
    TopCount(vals);
    PairsMeaning(vals);
    TripsMeaning(vals);
  }

  lemma BranchStraightFlush(cards: seq<Card>)
    requires |cards| == 5 && IsFlush(cards) && IsStraight(cards)
    ensures Evaluate5(cards) == [8, StraightHigh(UniqueAsc(Values(cards))).value]
    ensures Category(cards) == 8
  {
    CategoryFacts(Values(cards));
  }

  lemma BranchQuads(cards: seq<Card>)
    requires |cards| == 5 && !(IsFlush(cards) && IsStraight(cards))
    requires Top(Values(cards)).1 == 4
    ensures var q := Top(Values(cards)).0;
      |Remove(UniqueDesc(Values(cards)), q)| > 0 &&
      Evaluate5(cards) == [7, q, Max(Remove(UniqueDesc(Values(cards)), q))]
    ensures Category(cards) == 7
  {
    CategoryFacts(Values(cards));
    ByCountHead(Values(cards));
    QuadKicker(Values(cards), Top(Values(cards)).0);
  }

  lemma BranchFullHouse(cards: seq<Card>)
    requires |cards| == 5 && !(IsFlush(cards) && IsStraight(cards))
    requires Top(Values(cards)).1 != 4
    requires |Trips(Values(cards))| > 0 && |Pairs(Values(cards))| > 0
    ensures Evaluate5(cards) == [6, Trips(Values(cards))[0], Pairs(Values(cards))[0]]
    ensures Category(cards) == 6
  {
    CategoryFacts(Values(cards));
  }

  lemma BranchFlush(cards: seq<Card>)
    requires |cards| == 5 && IsFlush(cards) && !IsStraight(cards)
    requires Top(Values(cards)).1 != 4
    requires !(|Trips(Values(cards))| > 0 && |Pairs(Values(cards))| > 0)
    ensures Evaluate5(cards) == [5] + SortDesc(Values(cards))
    ensures Category(cards) == 5
  {
    CategoryFacts(Values(cards));
  }

  lemma BranchStraight(cards: seq<Card>)
    requires |cards| == 5 && !IsFlush(cards) && IsStraight(cards)
    requires Top(Values(cards)).1 != 4
    requires !(|Trips(Values(cards))| > 0 && |Pairs(Values(cards))| > 0)
    ensures Evaluate5(cards) == [4, StraightHigh(UniqueAsc(Values(cards))).value]
    ensures Category(cards) == 4
  {
    CategoryFacts(Values(cards));
  }

  lemma BranchTrips(cards: seq<Card>)
    requires |cards| == 5 && !IsFlush(cards) && !IsStraight(cards)
    requires Top(Values(cards)).1 == 3
    requires !(|Trips(Values(cards))| > 0 && |Pairs(Values(cards))| > 0)
    ensures var t := Top(Values(cards)).0;
      Evaluate5(cards) == [3, t] + Take(Remove(UniqueDesc(Values(cards)), t), 2)
    ensures Category(cards) == 3
  {
    CategoryFacts(Values(cards));
  }

  lemma BranchTwoPair(cards: seq<Card>)
    requires |cards| == 5 && !IsFlush(cards) && !IsStraight(cards)
    requires Top(Values(cards)).1 != 4 && Top(Values(cards)).1 != 3
    requires !(|Trips(Values(cards))| > 0 && |Pairs(Values(cards))| > 0)
    requires |Pairs(Values(cards))| == 2
    ensures var vals := Values(cards);
      var sp := SortDesc(Pairs(vals));
      |sp| == 2 && |Remove(Remove(UniqueDesc(vals), sp[0]), sp[1])| > 0 &&
      Evaluate5(cards) == [2, sp[0], sp[1], Remove(Remove(UniqueDesc(vals), sp[0]), sp[1])[0]]
    ensures Category(cards) == 2
  {
    CategoryFacts(Values(cards));
    var vals := Values(cards);
    TwoPairKicker(vals, Pairs(vals), SortDesc(Pairs(vals)));
  }

  lemma BranchOnePair(cards: seq<Card>)
    requires |cards| == 5 && !IsFlush(cards) && !IsStraight(cards)
    requires Top(Values(cards)).1 != 4 && Top(Values(cards)).1 != 3
    requires !(|Trips(Values(cards))| > 0 && |Pairs(Values(cards))| > 0)
    requires |Pairs(Values(cards))| == 1
    ensures var p := Pairs(Values(cards))[0];
      Evaluate5(cards) == [1, p] + Take(Remove(UniqueDesc(Values(cards)), p), 3)
    ensures Category(cards) == 1
  {
    CategoryFacts(Values(cards));
  }

  lemma BranchHighCard(cards: seq<Card>)
    requires |cards| == 5 && !IsFlush(cards) && !IsStraight(cards)
    requires Top(Values(cards)).1 != 4 && Top(Values(cards)).1 != 3
    requires !(|Trips(Values(cards))| > 0 && |Pairs(Values(cards))| > 0)
    requires |Pairs(Values(cards))| != 2 && |Pairs(Values(cards))| != 1
    ensures Evaluate5(cards) == [0] + SortDesc(Values(cards))
    ensures Category(cards) == 0
  {
    CategoryFacts(Values(cards));
  }

  /** `rank5`'s category is the poker category of the hand. */
  lemma Evaluate5Category(cards: seq<Card>)
    requires |cards| == 5
    ensures Evaluate5(cards)[0] == Category(cards)
  {
    var vals := Values(cards);
    if IsFlush(cards) && IsStraight(cards) {
      BranchStraightFlush(cards);
    } else if Top(vals).1 == 4 {
      BranchQuads(cards);
    } else if |Trips(vals)| > 0 && |Pairs(vals)| > 0 {
      BranchFullHouse(cards);
    } else if IsFlush(cards) {
      BranchFlush(cards);
    } else if IsStraight(cards) {
      BranchStraight(cards);
    } else if Top(vals).1 == 3 {
      BranchTrips(cards);
    } else if |Pairs(vals)| == 2 {
      BranchTwoPair(cards);
    } else if |Pairs(vals)| == 1 {
      BranchOnePair(cards);
    } else {
      BranchHighCard(cards);
    }
  }

  lemma {:induction false} SumCountsMember(r: seq<int>, vals: seq<int>, y: int)
    requires y in r
    ensures Count(vals, y) <= SumCounts(r, vals)
  {
    if r[0] != y {
      assert y in r[1..];
      SumCountsMember(r[1..], vals, y);
    }
  }

  lemma InValsCounted(vals: seq<int>, y: int)
    requires y in vals
    ensures Count(vals, y) >= 1
  {
    assert y in multiset(vals);
  }

  /**
   * The distinct values other than x each occur once, when (out of five)
   * none of them can occur twice or more: then there are 5 - Count(x) of them,
   * largest first.
   */
  lemma Singles(vals: seq<int>, x: int)
    requires |vals| == 5 && x in vals
    requires forall y :: y in vals && y != x ==> Count(vals, y) != 2 && Count(vals, y) != 3
    requires Count(vals, x) >= 2
    ensures var r := Remove(UniqueDesc(vals), x);
      && |r| == 5 - Count(vals, x)
      && StrictlyDescending(r)
      && (forall y :: y in r <==> y in vals && y != x)
      && (forall y :: y in r ==> Count(vals, y) == 1)
  {
    var r := Remove(UniqueDesc(vals), x);
    SumOthers(vals, x);
    RemoveDescending(UniqueDesc(vals), x);
    forall y | y in r ensures Count(vals, y) == 1 {
      SumCountsMember(r, vals, y);
      InValsCounted(vals, y);
    }
    SumCountsOnes(r, vals);
  }

  // The tiebreak parts of each branch's tuple, from the values alone.

  lemma NoValueWithCount(vals: seq<int>, y: int, c: nat)
    requires !HasCount(vals, c) && y in vals
    ensures Count(vals, y) != c
  {
  }

  lemma NoSecondPair(vals: seq<int>, p: int, y: int)
    requires !TwoPairs(vals) && p in vals && y in vals && p != y && Count(vals, p) == 2
    ensures Count(vals, y) != 2
  {
  }

  lemma QuadsFacts(vals: seq<int>)
    requires |vals| == 5 && Top(vals).1 == 4
    ensures var q := Top(vals).0;
      var rest := Remove(UniqueDesc(vals), q);
      && |rest| > 0
      && Count(vals, q) == 4
      && Max(rest) in vals && Count(vals, Max(rest)) == 1
  {
    ByCountHead(vals);
    var q := Top(vals).0;
    QuadKicker(vals, q);
    var k := Max(Remove(UniqueDesc(vals), q));
    assert k in vals && k != q;
    CountPair(vals, q, k);
    InValsCounted(vals, k);
  }

  lemma TripsFacts(vals: seq<int>)
    requires |vals| == 5 && Top(vals).1 == 3 && !HasCount(vals, 2)
    ensures var t := Top(vals).0;
      var ks := Take(Remove(UniqueDesc(vals), t), 2);
      && Count(vals, t) == 3
      && |ks| == 2 && ks[0] > ks[1]
      && ks[0] in vals && Count(vals, ks[0]) == 1
      && ks[1] in vals && Count(vals, ks[1]) == 1
  {
    ByCountHead(vals);
    TripsKickers(vals, Top(vals).0);
  }

  lemma TripsKickers(vals: seq<int>, t: int)
    requires |vals| == 5 && t in vals && Count(vals, t) == 3 && !HasCount(vals, 2)
    ensures var ks := Take(Remove(UniqueDesc(vals), t), 2);
      && |ks| == 2 && ks[0] > ks[1]
      && ks[0] in vals && Count(vals, ks[0]) == 1
      && ks[1] in vals && Count(vals, ks[1]) == 1
  {
    forall y | y in vals && y != t ensures Count(vals, y) != 2 && Count(vals, y) != 3 {
      NoValueWithCount(vals, y, 2);
      CountPair(vals, t, y);
    }
    Singles(vals, t);
    TwoKickers(vals, Remove(UniqueDesc(vals), t));
  }

  lemma TwoKickers(vals: seq<int>, rest: seq<int>)
    requires |rest| == 2 && StrictlyDescending(rest)
    requires forall y :: y in rest ==> y in vals && Count(vals, y) == 1
    ensures var ks := Take(rest, 2);
      && |ks| == 2 && ks[0] > ks[1]
      && ks[0] in vals && Count(vals, ks[0]) == 1
      && ks[1] in vals && Count(vals, ks[1]) == 1
  {
    assert Take(rest, 2) == rest;
    assert rest[0] in rest && rest[1] in rest;
  }

  lemma TwoPairFacts(vals: seq<int>)
    requires |vals| == 5 && |Pairs(vals)| == 2
    ensures var sp := SortDesc(Pairs(vals));
      && |sp| == 2 && sp[0] > sp[1]
      && Count(vals, sp[0]) == 2 && Count(vals, sp[1]) == 2
      && var rest := Remove(Remove(UniqueDesc(vals), sp[0]), sp[1]);
         |rest| > 0 && rest[0] in vals && Count(vals, rest[0]) == 1
  {
    var sp := SortDesc(Pairs(vals));
    TwoPairKicker(vals, Pairs(vals), sp);
    var rest := Remove(Remove(UniqueDesc(vals), sp[0]), sp[1]);
    var k := rest[0];
    assert k in rest;
    assert k in vals && k != sp[0] && k != sp[1];
    CountTriple(vals, sp[0], sp[1], k);
    InValsCounted(vals, k);
  }

  lemma OnePairFacts(vals: seq<int>)
    requires |vals| == 5 && |Pairs(vals)| == 1 && !HasCount(vals, 3) && !TwoPairs(vals)
    ensures var p := Pairs(vals)[0];
      var ks := Take(Remove(UniqueDesc(vals), p), 3);
      && Count(vals, p) == 2
      && |ks| == 3 && ks[0] > ks[1] > ks[2]
      && (forall i :: 0 <= i < 3 ==> ks[i] in vals && Count(vals, ks[i]) == 1)
  {
    KeysWithCountSpec(vals, 2);
    var p := Pairs(vals)[0];
    assert p in Pairs(vals);
    forall y | y in vals && y != p ensures Count(vals, y) != 2 && Count(vals, y) != 3 {
      NoSecondPair(vals, p, y);
      NoValueWithCount(vals, y, 3);
    }
    Singles(vals, p);
    ThreeKickers(vals, Remove(UniqueDesc(vals), p));
  }

  lemma ThreeKickers(vals: seq<int>, rest: seq<int>)
    requires |rest| == 3 && StrictlyDescending(rest)
    requires forall y :: y in rest ==> y in vals && Count(vals, y) == 1
    ensures var ks := Take(rest, 3);
      && |ks| == 3 && ks[0] > ks[1] > ks[2]
      && (forall i :: 0 <= i < 3 ==> ks[i] in vals && Count(vals, ks[i]) == 1)
  {
    assert Take(rest, 3) == rest;
    assert rest[0] in rest && rest[1] in rest && rest[2] in rest;
  }

  /** (7, quad, kicker): the value occurring four times, then the remaining one. */
  lemma QuadsTiebreak(cards: seq<Card>)
    requires |cards| == 5 && Category(cards) == 7
    ensures var r, vals := Evaluate5(cards), Values(cards);
      && |r| == 3 && r[0] == 7
      && Count(vals, r[1]) == 4
      && r[2] in vals && Count(vals, r[2]) == 1
  {
    CategoryFacts(Values(cards));
    BranchQuads(cards);
    QuadsFacts(Values(cards));
  }

  /** (6, trips, pair): the value occurring three times, then the one occurring twice. */
  lemma FullHouseTiebreak(cards: seq<Card>)
    requires |cards| == 5 && Category(cards) == 6
    ensures var r, vals := Evaluate5(cards), Values(cards);
      && |r| == 3 && r[0] == 6
      && Count(vals, r[1]) == 3 && Count(vals, r[2]) == 2
  {
    CategoryFacts(Values(cards));
    BranchFullHouse(cards);
    FullHouseShape(Values(cards), Evaluate5(cards));
  }

  lemma FullHouseShape(vals: seq<int>, r: seq<int>)
    requires |vals| == 5 && |Trips(vals)| > 0 && |Pairs(vals)| > 0
    requires r == [6, Trips(vals)[0], Pairs(vals)[0]]
    ensures |r| == 3 && r[0] == 6 && Count(vals, r[1]) == 3 && Count(vals, r[2]) == 2
  {
    KeysWithCountSpec(vals, 3);
    KeysWithCountSpec(vals, 2);
    assert Trips(vals)[0] in Trips(vals) && Pairs(vals)[0] in Pairs(vals);
  }

  /** (5, five values): a flush carries the five values, largest first. */
  lemma FlushTiebreak(cards: seq<Card>)
    requires |cards| == 5 && Category(cards) == 5
    ensures var r := Evaluate5(cards);
      && |r| == 6 && r[0] == 5
      && Descending(r[1..]) && multiset(r[1..]) == multiset(Values(cards))
  {
    CategoryFacts(Values(cards));
    BranchFlush(cards);
    var sorted := SortDesc(Values(cards));
    assert ([5] + sorted)[1..] == sorted;
  }

  /** (0, five values): high card carries the five values, largest first. */
  lemma HighCardTiebreak(cards: seq<Card>)
    requires |cards| == 5 && Category(cards) == 0
    ensures var r := Evaluate5(cards);
      && |r| == 6 && r[0] == 0
      && Descending(r[1..]) && multiset(r[1..]) == multiset(Values(cards))
  {
    CategoryFacts(Values(cards));
    BranchHighCard(cards);
    var sorted := SortDesc(Values(cards));
    assert ([0] + sorted)[1..] == sorted;
  }

  /** Straight and straight flush: the top of the straight. */
  lemma StraightTiebreak(cards: seq<Card>)
    requires |cards| == 5 && (Category(cards) == 8 || Category(cards) == 4)
    ensures var r := Evaluate5(cards);
      && |r| == 2 && r[0] == Category(cards)
      && StraightHigh(UniqueAsc(Values(cards))) == Some(r[1])
  {
    CategoryFacts(Values(cards));
    if Category(cards) == 8 {
      BranchStraightFlush(cards);
    } else {
      BranchStraight(cards);
    }
  }

  lemma TripsConditions(cards: seq<Card>)
    requires |cards| == 5 && Category(cards) == 3
    ensures !IsFlush(cards) && !IsStraight(cards) && !HasCount(Values(cards), 2)
    ensures Top(Values(cards)).1 == 3
    ensures !(|Trips(Values(cards))| > 0 && |Pairs(Values(cards))| > 0)
  {
    CategoryFacts(Values(cards));
  }

  /** (3, trips, two kickers): the value occurring three times, then the two single values, largest first. */
  lemma TripsTiebreak(cards: seq<Card>)
    requires |cards| == 5 && Category(cards) == 3
    ensures var r, vals := Evaluate5(cards), Values(cards);
      && |r| == 4 && r[0] == 3
      && Count(vals, r[1]) == 3
      && r[2] > r[3]
      && r[2] in vals && Count(vals, r[2]) == 1
      && r[3] in vals && Count(vals, r[3]) == 1
  {
    TripsConditions(cards);
    BranchTrips(cards);
    TripsShape(Values(cards), Evaluate5(cards));
  }

  lemma TripsShape(vals: seq<int>, r: seq<int>)
    requires |vals| == 5 && Top(vals).1 == 3 && !HasCount(vals, 2)
    requires r == [3, Top(vals).0] + Take(Remove(UniqueDesc(vals), Top(vals).0), 2)
    ensures && |r| == 4 && r[0] == 3
      && Count(vals, r[1]) == 3
      && r[2] > r[3]
      && r[2] in vals && Count(vals, r[2]) == 1
      && r[3] in vals && Count(vals, r[3]) == 1
  {
    TripsFacts(vals);
    var t := Top(vals).0;
    KickersShape(3, t, Take(Remove(UniqueDesc(vals), t), 2), r);
  }

  /** A tuple (category, value, kickers...) read off from the kickers' own facts. */
  lemma KickersShape(c: int, v: int, ks: seq<int>, r: seq<int>)
    requires r == [c, v] + ks
    ensures |r| == 2 + |ks| && r[0] == c && r[1] == v
    ensures forall i :: 0 <= i < |ks| ==> r[i + 2] == ks[i]
  {
  }

  /** (2, high pair, low pair, kicker). */
  lemma TwoPairTiebreak(cards: seq<Card>)
    requires |cards| == 5 && Category(cards) == 2
    ensures var r, vals := Evaluate5(cards), Values(cards);
      && |r| == 4 && r[0] == 2
      && r[1] > r[2]
      && Count(vals, r[1]) == 2 && Count(vals, r[2]) == 2
      && r[3] in vals && Count(vals, r[3]) == 1
  {
    CategoryFacts(Values(cards));
    BranchTwoPair(cards);
    TwoPairShape(Values(cards), Evaluate5(cards));
  }

  lemma TwoPairShape(vals: seq<int>, r: seq<int>)
    requires |vals| == 5 && |Pairs(vals)| == 2
    requires var sp := SortDesc(Pairs(vals));
      |sp| == 2 && |Remove(Remove(UniqueDesc(vals), sp[0]), sp[1])| > 0 &&
      r == [2, sp[0], sp[1], Remove(Remove(UniqueDesc(vals), sp[0]), sp[1])[0]]
    ensures && |r| == 4 && r[0] == 2
      && r[1] > r[2]
      && Count(vals, r[1]) == 2 && Count(vals, r[2]) == 2
      && r[3] in vals && Count(vals, r[3]) == 1
  {
    TwoPairFacts(vals);
    var sp := SortDesc(Pairs(vals));
    var rest := Remove(Remove(UniqueDesc(vals), sp[0]), sp[1]);
    assert r[1] == sp[0] && r[2] == sp[1] && r[3] == rest[0];
  }

  /** (1, pair, three kickers): the value occurring twice, then the three single values, largest first. */
  lemma OnePairTiebreak(cards: seq<Card>)
    requires |cards| == 5 && Category(cards) == 1
    ensures var r, vals := Evaluate5(cards), Values(cards);
      && |r| == 5 && r[0] == 1
      && Count(vals, r[1]) == 2
      && r[2] > r[3] > r[4]
      && (forall i :: 2 <= i < 5 ==> r[i] in vals && Count(vals, r[i]) == 1)
  {
    CategoryFacts(Values(cards));
    BranchOnePair(cards);
    var vals := Values(cards);
    OnePairFacts(vals);
    var p := Pairs(vals)[0];
    KickersShape(1, p, Take(Remove(UniqueDesc(vals), p), 3), Evaluate5(cards));
  }

  /** Every category has its fixed tuple length. */
  lemma Evaluate5Shape(cards: seq<Card>)
    requires |cards| == 5
    ensures 0 <= Evaluate5(cards)[0] <= 8
    ensures |Evaluate5(cards)| == TupleLength(Evaluate5(cards)[0])
  {
    Evaluate5Category(cards);
    var c := Category(cards);
    if c == 8 || c == 4 {
      StraightTiebreak(cards);
    } else if c == 7 {
      QuadsTiebreak(cards);
    } else if c == 6 {
      FullHouseTiebreak(cards);
    } else if c == 5 {
      FlushTiebreak(cards);
    } else if c == 0 {
      HighCardTiebreak(cards);
    } else if c == 3 {
      TripsTiebreak(cards);
    } else if c == 2 {
      TwoPairTiebreak(cards);
    } else {
      OnePairTiebreak(cards);
    }
  }

  // ---------------------------------------------------------------------------
  // rank5 sees only the multisets of values and suits

  lemma SameValuesFeatures(va: seq<int>, vb: seq<int>)
    requires multiset(va) == multiset(vb)
    ensures UniqueDesc(va) == UniqueDesc(vb)
    ensures UniqueAsc(va) == UniqueAsc(vb)
    ensures SortDesc(va) == SortDesc(vb)
    ensures ByCount(va) == ByCount(vb)
  {
    assert forall x :: x in va <==> x in multiset(vb);
    StrictlyDescendingUnique(UniqueDesc(va), UniqueDesc(vb));
    DescendingUnique(SortDesc(va), SortDesc(vb));
    ByCountSpec(va);
    ByCountSpec(vb);
    KeyDescendingUnique(ByCount(va), ByCount(vb));
  }

  /**
   * The rank of five cards depends only on the multiset of their values and
   * the set of their suits, so in particular not on the order of the cards.
   */
  lemma Evaluate5SameValuesAndSuits(a: seq<Card>, b: seq<Card>)
    requires |a| == 5 && |b| == 5
    requires multiset(Values(a)) == multiset(Values(b))
    requires Elems(SuitsOf(a)) == Elems(SuitsOf(b))
    ensures Evaluate5(a) == Evaluate5(b)
  {
    var va, vb := Values(a), Values(b);
    SameValuesFeatures(va, vb);
    DecideSameFeatures(IsFlush(a), va, vb, SortDesc(va), UniqueDesc(va), ByCount(va));
  }

  /** `Decide` reads the hand only through what it is given. */
  lemma DecideSameFeatures(isFlush: bool, va: seq<int>, vb: seq<int>, sortedDesc: seq<int>, uniqueDesc: seq<int>, bc: seq<(int, nat)>)
    requires |va| == 5 && sortedDesc == SortDesc(va) && uniqueDesc == UniqueDesc(va) && bc == ByCount(va)
    requires |vb| == 5 && sortedDesc == SortDesc(vb) && uniqueDesc == UniqueDesc(vb) && bc == ByCount(vb)
    ensures Decide(isFlush, va, sortedDesc, uniqueDesc, bc) == Decide(isFlush, vb, sortedDesc, uniqueDesc, bc)
  {
  }

  lemma ValuesSuitsOfPermutation(a: seq<Card>, b: seq<Card>)
    requires multiset(a) == multiset(b)
    ensures multiset(Values(a)) == multiset(Values(b))
    ensures Elems(SuitsOf(a)) == Elems(SuitsOf(b))
  {
    ValuesPermutation(a, b);
    SuitsPermutation(a, b);
    MultisetElems(SuitsOf(a), SuitsOf(b));
  }

  lemma {:induction false} ValuesPermutation(a: seq<Card>, b: seq<Card>)
    requires multiset(a) == multiset(b)
    ensures multiset(Values(a)) == multiset(Values(b))
  {
    if a != [] {
      var k := IndexOf(b, a[0]);
      RemoveAtMultiset(b, k);
      assert a == [a[0]] + a[1..];
      assert multiset(a[1..]) == multiset(b[..k] + b[k + 1..]);
      ValuesPermutation(a[1..], b[..k] + b[k + 1..]);
      ValuesStep(a, b, k);
    } else {
      assert |multiset(b)| == 0;
    }
  }

  lemma ValuesStep(a: seq<Card>, b: seq<Card>, k: nat)
    requires |a| > 0 && k < |b| && b[k] == a[0]
    requires multiset(Values(a[1..])) == multiset(Values(b[..k] + b[k + 1..]))
    ensures multiset(Values(a)) == multiset(Values(b))
  {
    var c, p, q := a[0], b[..k], b[k + 1..];
    assert b == p + [c] + q;
    assert a == [] + [c] + a[1..];
    ValuesSplit(p, c, q);
    ValuesSplit([], c, a[1..]);
    ValuesConcat(p, q);
  }

  lemma ValuesSplit(x: seq<Card>, c: Card, y: seq<Card>)
    ensures multiset(Values(x + [c] + y)) == multiset(Values(x)) + multiset{c.value} + multiset(Values(y))
  {
    assert Values(x + [c] + y) == Values(x) + [c.value] + Values(y);
  }

  lemma {:induction false} SuitsPermutation(a: seq<Card>, b: seq<Card>)
    requires multiset(a) == multiset(b)
    ensures multiset(SuitsOf(a)) == multiset(SuitsOf(b))
  {
    if a != [] {
      var c := a[0];
      var k := IndexOf(b, c);
      var b' := b[..k] + b[k + 1..];
      RemoveAtMultiset(b, k);
      assert a == [c] + a[1..];
      assert multiset(a[1..]) == multiset(b');
      SuitsPermutation(a[1..], b');
      SuitsStep(a, b, k);
    } else {
      assert |multiset(b)| == 0;
    }
  }

  lemma SuitsStep(a: seq<Card>, b: seq<Card>, k: nat)
    requires |a| > 0 && k < |b| && b[k] == a[0]
    requires multiset(SuitsOf(a[1..])) == multiset(SuitsOf(b[..k] + b[k + 1..]))
    ensures multiset(SuitsOf(a)) == multiset(SuitsOf(b))
  {
    var c, p, q := a[0], b[..k], b[k + 1..];
    assert b == p + [c] + q;
    assert a == [] + [c] + a[1..];
    SuitsSplit(p, c, q);
    SuitsSplit([], c, a[1..]);
    SuitsOfConcat(p, q);
  }

  lemma SuitsSplit(x: seq<Card>, c: Card, y: seq<Card>)
    ensures multiset(SuitsOf(x + [c] + y)) == multiset(SuitsOf(x)) + multiset{c.suit} + multiset(SuitsOf(y))
  {
    assert SuitsOf(x + [c] + y) == SuitsOf(x) + [c.suit] + SuitsOf(y);
  }

  lemma ValuesConcat(x: seq<Card>, y: seq<Card>)
    ensures Values(x + y) == Values(x) + Values(y)
  {
  }

  lemma SuitsOfConcat(x: seq<Card>, y: seq<Card>)
    ensures SuitsOf(x + y) == SuitsOf(x) + SuitsOf(y)
  {
  }

  /** Permuting the five cards does not change the rank. */
  lemma Evaluate5Permutation(a: seq<Card>, b: seq<Card>)
    requires |a| == 5 && multiset(a) == multiset(b)
    ensures |b| == 5 && Evaluate5(a) == Evaluate5(b)
  {
    assert |multiset(a)| == |multiset(b)|;
    ValuesSuitsOfPermutation(a, b);
    Evaluate5SameValuesAndSuits(a, b);
  }

  // ---------------------------------------------------------------------------
  // Category order and the wheel

  /** A hand of a higher category beats any hand of a lower one. */
  lemma CategoryOrder(a: seq<Card>, b: seq<Card>)
    requires |a| == 5 && |b| == 5 && Category(a) < Category(b)
    ensures Less(Evaluate5(a), Evaluate5(b))
  {
    Evaluate5Category(a);
    Evaluate5Category(b);
    LessByHead(Evaluate5(a), Evaluate5(b));
  }

  lemma WheelValues(vals: seq<int>)
    requires multiset(vals) == multiset{14, 2, 3, 4, 5}
    ensures UniqueAsc(vals) == [2, 3, 4, 5, 14]
  {
    var w := [2, 3, 4, 5, 14];
    WheelMembers(vals, w);
    UniqueAscIs(vals, w);
  }

  lemma WheelCounts(vals: seq<int>)
    requires multiset(vals) == multiset{14, 2, 3, 4, 5}
    ensures forall v :: Count(vals, v) <= 1
  {
  }

  lemma WheelMembers(vals: seq<int>, w: seq<int>)
    requires multiset(vals) == multiset{14, 2, 3, 4, 5} && w == [2, 3, 4, 5, 14]
    ensures forall x :: x in vals <==> x in w
  {
    assert forall x :: x in vals <==> x in multiset(vals);
  }

  /** `list(reversed(vals_unique_desc))` is the one strictly ascending list of the hand's values. */
  lemma UniqueAscIs(vals: seq<int>, w: seq<int>)
    requires StrictlyAscending(w) && forall x :: x in vals <==> x in w
    ensures UniqueAsc(vals) == w
  {
    StrictlyAscendingUnique(UniqueAsc(vals), w);
  }

  /**
   * The wheel A-2-3-4-5: the ace counts low, so the straight is five-high,
   * (8, 5) when suited and (4, 5) otherwise.
   */
  lemma Wheel(cards: seq<Card>)
    requires |cards| == 5 && multiset(Values(cards)) == multiset{14, 2, 3, 4, 5}
    ensures Evaluate5(cards) == if IsFlush(cards) then [8, 5] else [4, 5]
  {
    var vals := Values(cards);
    WheelValues(vals);
    WheelCounts(vals);
    StraightExamples();
    CategoryFacts(vals);
    ByCountHead(vals);
    if IsFlush(cards) {
      BranchStraightFlush(cards);
    } else {
      BranchStraight(cards);
    }
  }
}
