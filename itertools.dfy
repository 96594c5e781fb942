/**
 * `itertools.combinations` and `math.comb`, which hand_rank7.py and
 * equity_hu.py call, written out so that nothing about them is taken on trust.
 */
module Itertools {
  import opened Seqs

  /** `math.comb(n, k)` by Pascal's rule (0 when k > n). */
  function Binomial(n: nat, k: nat): nat {
    if k > n then 0
    else if k == 0 || k == n then 1
    else Binomial(n - 1, k - 1) + Binomial(n - 1, k)
  }

  function Factorial(n: nat): (f: nat)
    ensures f >= 1
  {
    if n == 0 then 1 else n * Factorial(n - 1)
  }

  lemma {:induction false} BinomialOne(n: nat)
    ensures Binomial(n, 1) == n
  {
    if n > 0 {
      BinomialOne(n - 1);
    }
  }

  lemma {:induction false} BinomialTwo(n: nat)
    ensures 2 * Binomial(n, 2) == n * (n - 1)
  {
    if n > 0 {
      BinomialTwo(n - 1);
      BinomialOne(n - 1);
    }
  }

  /** There is at least one way to choose k of n things when k <= n. */
  lemma {:induction false} BinomialPositive(n: nat, k: nat)
    requires k <= n
    ensures Binomial(n, k) > 0
  {
    if k > 0 && k < n {
      BinomialPositive(n - 1, k);
    }
  }

  /** Pascal's rule agrees with the factorial formula n! / (k! (n-k)!). */
  lemma {:induction false} BinomialFactorial(n: nat, k: nat)
    requires k <= n
    ensures Binomial(n, k) * Factorial(k) * Factorial(n - k) == Factorial(n)
  {
    if k == 0 {
    } else if k == n {
    } else {
      BinomialFactorial(n - 1, k - 1);
      BinomialFactorial(n - 1, k);
      assert n - 1 - (k - 1) == n - k;
      PascalStep(Binomial(n - 1, k - 1), Binomial(n - 1, k), k, n - k,
        Factorial(k - 1), Factorial(n - 1 - k), Factorial(n - 1));
    }
  }

  /** The arithmetic step of the induction above: k·f + (n-k)·f = n·f. */
  lemma PascalStep(a: int, b: int, k: int, m: int, x: int, y: int, f: int)
    requires a * x * (m * y) == f
    requires b * (k * x) * y == f
    ensures (a + b) * (k * x) * (m * y) == (k + m) * f
  {
    var p := k * x;
    var q := m * y;
    assert (a + b) * p * q == a * p * q + b * p * q;
    assert a * p * q == k * (a * x * q);
    assert b * p * q == m * (b * p * y);
  }

  /** Every k-subset of `s` formed by putting `x` in front. */
  function PrependAll<T>(x: T, cs: seq<seq<T>>): (r: seq<seq<T>>)
    ensures |r| == |cs|
    ensures forall i :: 0 <= i < |cs| ==> r[i] == [x] + cs[i]
  {
    seq(|cs|, i requires 0 <= i < |cs| => [x] + cs[i])
  }

  /**
   * `list(itertools.combinations(s, k))`: the k-element selections of `s`,
   * each in the order of `s`, listed in lexicographic order of the positions
   * chosen (all selections containing s[0] first).
   */
  function Combinations<T>(s: seq<T>, k: nat): (cs: seq<seq<T>>)
    ensures |cs| == Binomial(|s|, k)
    ensures forall c :: c in cs ==> |c| == k
    decreases |s|
  {
    if k == 0 then [[]]
    else if |s| < k then []
    else
      BinomialPascal(|s|, k);
      PrependAll(s[0], Combinations(s[1..], k - 1)) + Combinations(s[1..], k)
  }

  /** Pascal's rule, including the edge k == n where the second term is 0. */
  lemma BinomialPascal(n: nat, k: nat)
    requires 0 < k <= n
    ensures Binomial(n, k) == Binomial(n - 1, k - 1) + Binomial(n - 1, k)
  {
  }

  /** `idx` lists positions of a sequence of length `n` in increasing order. */
  predicate IsSelection(idx: seq<int>, n: int) {
    && (forall j :: 0 <= j < |idx| ==> 0 <= idx[j] < n)
    && (forall i, j :: 0 <= i < j < |idx| ==> idx[i] < idx[j])
  }

  /** The elements of `s` at positions `idx`, in that order. */
  function Pick<T>(s: seq<T>, idx: seq<int>): (r: seq<T>)
    requires forall j :: 0 <= j < |idx| ==> 0 <= idx[j] < |s|
    ensures |r| == |idx|
    ensures forall j :: 0 <= j < |idx| ==> r[j] == s[idx[j]]
  {
    seq(|idx|, j requires 0 <= j < |idx| => s[idx[j]])
  }

  function Shift(idx: seq<int>, d: int): (r: seq<int>)
    ensures |r| == |idx|
    ensures forall j :: 0 <= j < |idx| ==> r[j] == idx[j] + d
  {
    seq(|idx|, j requires 0 <= j < |idx| => idx[j] + d)
  }

  /** A selection cannot be longer than what it selects from. */
  lemma {:induction false} SelectionLength(idx: seq<int>, n: nat)
    requires IsSelection(idx, n)
    ensures |idx| <= n
    decreases |idx|
  {
    if idx != [] {
      var last := idx[|idx| - 1];
      var init := idx[..|idx| - 1];
      assert IsSelection(init, last);
      SelectionLength(init, last);
      assert |init| <= last < n;
    }
  }

  lemma CombinationsUnfold<T>(s: seq<T>, k: nat)
    requires 0 < k <= |s|
    ensures Combinations(s, k) == PrependAll(s[0], Combinations(s[1..], k - 1)) + Combinations(s[1..], k)
  {
  }

  lemma PickCons<T>(s: seq<T>, idx: seq<int>)
    requires |s| > 0 && IsSelection(idx, |s| - 1)
    ensures IsSelection([0] + Shift(idx, 1), |s|)
    ensures Pick(s, [0] + Shift(idx, 1)) == [s[0]] + Pick(s[1..], idx)
  {
    var idx1 := [0] + Shift(idx, 1);
    assert forall j :: 0 < j < |idx1| ==> idx1[j] == idx[j - 1] + 1;
  }

  lemma PickTail<T>(s: seq<T>, idx: seq<int>)
    requires |s| > 0 && IsSelection(idx, |s| - 1)
    ensures IsSelection(Shift(idx, 1), |s|)
    ensures Pick(s, Shift(idx, 1)) == Pick(s[1..], idx)
  {
  }

  /** Each combination is the subsequence at some increasing positions. */
  lemma {:induction false} CombinationIsSelection<T>(s: seq<T>, k: nat, c: seq<T>) returns (idx: seq<int>)
    requires c in Combinations(s, k)
    ensures |idx| == k && IsSelection(idx, |s|)
    ensures c == Pick(s, idx)
    decreases |s|
  {
    if k == 0 {
      idx := [];
    } else {
      var d, first := CombinationSplit(s, k, c);
      if first {
        var idx' := CombinationIsSelection(s[1..], k - 1, d);
        PickCons(s, idx');
        idx := [0] + Shift(idx', 1);
      } else {
        var idx' := CombinationIsSelection(s[1..], k, c);
        PickTail(s, idx');
        idx := Shift(idx', 1);
      }
    }
  }

  /** A combination either starts with `s[0]` followed by a shorter one of the rest, or is one of the rest. */
  lemma CombinationSplit<T>(s: seq<T>, k: nat, c: seq<T>) returns (d: seq<T>, first: bool)
    requires k > 0 && c in Combinations(s, k)
    ensures |s| >= k
    ensures first ==> d in Combinations(s[1..], k - 1) && c == [s[0]] + d
    ensures !first ==> c in Combinations(s[1..], k)
  {
    CombinationsUnfold(s, k);
    var ps := PrependAll(s[0], Combinations(s[1..], k - 1));
    first := c in ps;
    if first {
      var i :| 0 <= i < |ps| && ps[i] == c;
      d := Combinations(s[1..], k - 1)[i];
    } else {
      d := c;
    }
  }

  /** `s[0]` in front of a combination of the rest is a combination. */
  lemma CombinationsFromHead<T>(s: seq<T>, k: nat, d: seq<T>)
    requires |s| > 0 && k > 0 && d in Combinations(s[1..], k - 1)
    ensures [s[0]] + d in Combinations(s, k)
  {
    CombinationsUnfold(s, k);
    PrependMember(s[0], Combinations(s[1..], k - 1), d);
  }

  /** A combination of the rest is a combination. */
  lemma CombinationsFromTail<T>(s: seq<T>, k: nat, c: seq<T>)
    requires |s| > 0 && k > 0 && c in Combinations(s[1..], k)
    ensures c in Combinations(s, k)
  {
    CombinationsUnfold(s, k);
  }

  /** Every increasing choice of k positions gives one of the combinations. */
  lemma {:induction false} SelectionIsCombination<T>(s: seq<T>, idx: seq<int>)
    requires IsSelection(idx, |s|)
    ensures Pick(s, idx) in Combinations(s, |idx|)
    decreases |s|
  {
    if idx != [] {
      SelectionLength(idx, |s|);
      if idx[0] == 0 {
        var idx' := Shift(idx[1..], -1);
        SelectionHead(s, idx, idx');
        SelectionIsCombination(s[1..], idx');
        CombinationsFromHead(s, |idx|, Pick(s[1..], idx'));
      } else {
        var idx' := Shift(idx, -1);
        SelectionTail(s, idx, idx');
        SelectionIsCombination(s[1..], idx');
        CombinationsFromTail(s, |idx|, Pick(s[1..], idx'));
      }
    }
  }

  lemma PrependMember<T>(x: T, cs: seq<seq<T>>, c: seq<T>)
    requires c in cs
    ensures [x] + c in PrependAll(x, cs)
  {
    var i :| 0 <= i < |cs| && cs[i] == c;
    assert PrependAll(x, cs)[i] == [x] + c;
  }

  lemma HeadNotInTail<T>(s: seq<T>)
    requires NoDups(s) && |s| > 0
    ensures s[0] !in s[1..]
  {
  }

  lemma PrependHead<T>(x: T, cs: seq<seq<T>>, c: seq<T>)
    requires c in PrependAll(x, cs)
    ensures |c| > 0 && c[0] == x
  {
    var i :| 0 <= i < |cs| && PrependAll(x, cs)[i] == c;
  }

  lemma SelectionHead<T>(s: seq<T>, idx: seq<int>, idx': seq<int>)
    requires IsSelection(idx, |s|) && idx != [] && idx[0] == 0
    requires idx' == Shift(idx[1..], -1)
    ensures IsSelection(idx', |s| - 1)
    ensures Pick(s, idx) == [s[0]] + Pick(s[1..], idx')
  {
    assert [0] + Shift(idx', 1) == idx;
    PickCons(s, idx');
  }

  lemma SelectionTail<T>(s: seq<T>, idx: seq<int>, idx': seq<int>)
    requires IsSelection(idx, |s|) && idx != [] && idx[0] != 0
    requires idx' == Shift(idx, -1)
    ensures IsSelection(idx', |s| - 1)
    ensures Pick(s, idx) == Pick(s[1..], idx')
  {
    assert Shift(idx', 1) == idx;
    PickTail(s, idx');
  }

  /** A combination only holds elements of `s`, and no repeats when `s` has none. */
  lemma CombinationElements<T>(s: seq<T>, k: nat, c: seq<T>)
    requires c in Combinations(s, k)
    ensures forall x :: x in c ==> x in s
    ensures NoDups(s) ==> NoDups(c)
  {
    var idx := CombinationIsSelection(s, k, c);
    forall x | x in c ensures x in s {
      var j :| 0 <= j < |c| && c[j] == x;
      assert x == s[idx[j]];
    }
  }

  lemma NoDupsConcat<T>(a: seq<T>, b: seq<T>)
    requires NoDups(a) && NoDups(b)
    requires forall x :: x in a ==> x !in b
    ensures NoDups(a + b)
  {
    var ab := a + b;
    forall i, j | 0 <= i < j < |ab| ensures ab[i] != ab[j] {
      if i < |a| && j >= |a| {
        assert ab[i] in a && ab[j] in b;
      }
    }
  }

  lemma PrependAllDistinct<T>(x: T, cs: seq<seq<T>>)
    requires NoDups(cs)
    ensures NoDups(PrependAll(x, cs))
  {
    var ps := PrependAll(x, cs);
    forall i, j | 0 <= i < j < |ps| ensures ps[i] != ps[j] {
      assert ps[i][1..] == cs[i] && ps[j][1..] == cs[j];
    }
  }

  /** When `s` has no repeated element, no combination is listed twice. */
  lemma {:induction false} CombinationsDistinct<T>(s: seq<T>, k: nat)
    requires NoDups(s)
    ensures NoDups(Combinations(s, k))
    decreases |s|
  {
    if k > 0 && |s| >= k {
      var rest := s[1..];
      NoDupsTail(s);
      CombinationsDistinct(rest, k - 1);
      CombinationsDistinct(rest, k);
      DistinctStep(s, k);
    }
  }

  lemma NoDupsTail<T>(s: seq<T>)
    requires NoDups(s) && |s| > 0
    ensures NoDups(s[1..])
  {
    forall i, j | 0 <= i < j < |s| - 1 ensures s[1..][i] != s[1..][j] {
      assert s[1..][i] == s[i + 1] && s[1..][j] == s[j + 1];
    }
  }

  lemma DistinctStep<T>(s: seq<T>, k: nat)
    requires NoDups(s) && 0 < k <= |s|
    requires NoDups(Combinations(s[1..], k - 1)) && NoDups(Combinations(s[1..], k))
    ensures NoDups(Combinations(s, k))
  {
    var c1, c2 := Combinations(s[1..], k - 1), Combinations(s[1..], k);
    var first := PrependAll(s[0], c1);
    PrependAllDistinct(s[0], c1);
    forall x | x in first ensures x !in c2 {
      FirstBlockDisjoint(s, k, x);
    }
    NoDupsConcat(first, c2);
    CombinationsUnfold(s, k);
  }

  lemma FirstBlockDisjoint<T>(s: seq<T>, k: nat, x: seq<T>)
    requires NoDups(s) && 0 < k <= |s|
    requires x in PrependAll(s[0], Combinations(s[1..], k - 1))
    ensures x !in Combinations(s[1..], k)
  {
    PrependHead(s[0], Combinations(s[1..], k - 1), x);
    HeadNotInTail(s);
    if x in Combinations(s[1..], k) {
      CombinationElements(s[1..], k, x);
    }
  }
}
