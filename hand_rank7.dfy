/**
 * The seven-card evaluator (hand_rank7.py): the best rank among the 21
 * five-card subsets of seven distinct cards.
 */
module HandRank7 {
  import opened Results
  import opened Seqs
  import opened Cards
  import opened Itertools
  import opened TupleOrder
  import opened HandRank5

  /** `rank5` of every five-card subset, in `combinations(cards7, 5)` order. */
  function SubsetRanks(cards: seq<Card>): (rs: seq<seq<int>>)
    ensures |rs| == Binomial(|cards|, 5)
    ensures forall i :: 0 <= i < |rs| ==> rs[i] == Evaluate5(Combinations(cards, 5)[i])
  {
    var cs := Combinations(cards, 5);
    seq(|cs|, i requires 0 <= i < |cs| => assert cs[i] in cs; Evaluate5(cs[i]))
  }

  lemma SevenChooseFive()
    ensures Binomial(7, 5) == 21
  {
    BinomialFactorial(7, 5);
    assert Factorial(5) == 120 && Factorial(2) == 2 && Factorial(7) == 5040;
  }

  /** The value `rank7` returns for seven distinct cards: the largest subset rank. */
  function Best7(cards: seq<Card>): seq<int>
    requires |cards| == 7
  {
    BinomialPositive(|cards|, 5);
    Maximum(SubsetRanks(cards))
  }

  /**
   * `rank7`: the size and distinctness checks, then one pass over the
   * five-card subsets keeping the best rank seen (`best is None or r > best`).
   */
  method Rank7(cards: seq<Card>) returns (r: Result<seq<int>>)
    ensures r.Err? <==> |cards| != 7 || !NoDups(cards)
    ensures |cards| != 7 ==> r == Err(WrongCardCount)
    ensures |cards| == 7 && !NoDups(cards) ==> r == Err(DuplicateCards)
    ensures r.Ok? ==> |cards| == 7 && r.value == Best7(cards)
  {
    if |cards| != 7 {
      return Err(WrongCardCount);
    }
    DistinctCardinality(cards);
    if |Elems(cards)| != 7 {
      return Err(DuplicateCards);
    }
    var best := BestSubsetRank(cards);
    return Ok(best);
  }

  /** The loop of `rank7`: the running maximum of `rank5` over `combinations(cards7, 5)`. */
  method BestSubsetRank(cards: seq<Card>) returns (best: seq<int>)
    requires |cards| == 7
    ensures best == Best7(cards)
  {
    var fives := Combinations(cards, 5);
    ghost var ranks := SubsetRanks(cards);
    BinomialPositive(|cards|, 5);
    var found: Option<seq<int>> := None;
    for i := 0 to |fives|
      invariant found.None? <==> i == 0
      invariant found.Some? ==> found.value == Maximum(ranks[..i])
    {
      assert fives[i] in fives;
      var rank := Evaluate5(fives[i]);
      SubsetRankAt(cards, fives, i, rank);
      ghost var previous := found;
      if found.None? || Less(found.value, rank) {
        found := Some(rank);
      }
      RunningMaxStep(ranks, i, previous, rank, found);
    }
    MaximumWhole(ranks);
    best := found.value;
  }

  lemma RunningMaxStep(ranks: seq<seq<int>>, i: nat, previous: Option<seq<int>>, rank: seq<int>, next: Option<seq<int>>)
    requires i < |ranks| && rank == ranks[i]
    requires previous.None? <==> i == 0
    requires previous.Some? ==> previous.value == Maximum(ranks[..i])
    requires next == if previous.None? || Less(previous.value, rank) then Some(rank) else previous
    ensures next.Some? && next.value == Maximum(ranks[..i + 1])
  {
    MaximumSnoc(ranks, i);
  }

  lemma SubsetRankAt(cards: seq<Card>, fives: seq<seq<Card>>, i: nat, rank: seq<int>)
    requires fives == Combinations(cards, 5) && i < |fives| && |fives[i]| == 5
    requires rank == Evaluate5(fives[i])
    ensures i < |SubsetRanks(cards)| && rank == SubsetRanks(cards)[i]
  {
  }

  // ---------------------------------------------------------------------------
  // What rank7 computes

  /** No five-card subset ranks above the result. */
  lemma Best7Upper(cards: seq<Card>, five: seq<Card>)
    requires |cards| == 7 && five in Combinations(cards, 5)
    ensures |five| == 5 && LessEq(Evaluate5(five), Best7(cards))
  {
    var cs := Combinations(cards, 5);
    var i := IndexOf(cs, five);
    SubsetRankAt(cards, cs, i, Evaluate5(five));
    BinomialPositive(|cards|, 5);
  }

  /** The result is the rank of one of the subsets, five distinct cards of the seven. */
  lemma Best7Attained(cards: seq<Card>) returns (five: seq<Card>)
    requires |cards| == 7 && NoDups(cards)
    ensures five in Combinations(cards, 5) && |five| == 5
    ensures NoDups(five) && forall c :: c in five ==> c in cards
    ensures Evaluate5(five) == Best7(cards)
  {
    BinomialPositive(|cards|, 5);
    var rs := SubsetRanks(cards);
    var i := IndexOf(rs, Maximum(rs));
    five := Combinations(cards, 5)[i];
    CombinationElements(cards, 5, five);
  }

  /** The positions in `cards` of the cards of `h`. */
  lemma Positions(cards: seq<Card>, h: seq<Card>) returns (ix: seq<int>)
    requires forall c :: c in h ==> c in cards
    ensures |ix| == |h|
    ensures forall j :: 0 <= j < |ix| ==> 0 <= ix[j] < |cards| && cards[ix[j]] == h[j]
  {
    if h == [] {
      ix := [];
    } else {
      assert h[0] in h;
      var k := IndexOf(cards, h[0]);
      var rest := Positions(cards, h[1..]);
      ix := [k as int] + rest;
    }
  }

  lemma AscendingDistinct(s: seq<int>)
    requires Ascending(s) && NoDups(s)
    ensures StrictlyAscending(s)
  {
  }

  /**
   * Any five distinct cards among the seven, in any order, rank at most the
   * result: it is the best five-card hand the seven cards hold.
   */
  lemma Best7UpperAnyFive(cards: seq<Card>, h: seq<Card>)
    requires |cards| == 7 && |h| == 5 && NoDups(h)
    requires forall c :: c in h ==> c in cards
    ensures LessEq(Evaluate5(h), Best7(cards))
  {
    var ix := Positions(cards, h);
    assert Pick(cards, ix) == h;
    assert NoDups(ix) by {
      forall i, j | 0 <= i < j < |ix| ensures ix[i] != ix[j] {
        assert h[i] != h[j];
      }
    }
    var sorted := SortAsc(ix);
    NoDupsMultiset(ix, sorted);
    AscendingDistinct(sorted);
    assert |sorted| == 5 by { assert |multiset(sorted)| == |multiset(ix)|; }
    PickPermutation(cards, ix, sorted);
    assert IsSelection(sorted, |cards|);
    SelectionIsCombination(cards, sorted);
    var five := Pick(cards, sorted);
    Evaluate5Permutation(h, five);
    Best7Upper(cards, five);
  }

  // ---------------------------------------------------------------------------
  // The royal flush

  /** Cards of at most ace value rank at most a royal flush. */
  lemma RoyalIsTop(h: seq<Card>)
    requires |h| == 5 && forall i :: 0 <= i < 5 ==> 1 <= h[i].value <= 14
    ensures LessEq(Evaluate5(h), [8, 14])
  {
    Evaluate5Shape(h);
    Evaluate5Category(h);
    if Evaluate5(h)[0] == 8 {
      StraightTiebreak(h);
      StraightTopBound(h, Evaluate5(h)[1]);
    }
    BelowRoyal(Evaluate5(h));
  }

  lemma BelowRoyal(r: seq<int>)
    requires |r| > 0 && r[0] <= 8
    requires r[0] == 8 ==> |r| == 2 && r[1] <= 14
    ensures LessEq(r, [8, 14])
  {
    if r[0] == 8 {
      assert r[1..][1..] == [];
      assert [8, 14][1..][1..] == [];
    }
  }

  lemma BroadwayValues(vals: seq<int>, w: seq<int>)
    requires multiset(vals) == multiset{10, 11, 12, 13, 14} && w == [10, 11, 12, 13, 14]
    ensures forall x :: x in vals <==> x in w
    ensures NoDups(vals)
  {
    assert forall x :: x in vals <==> x in multiset(vals);
    NoDupsMultiset(w, vals);
  }

  /** Ten to ace of one suit is (8, 14). */
  lemma RoyalFlush(h: seq<Card>)
    requires |h| == 5 && IsFlush(h) && multiset(Values(h)) == multiset{10, 11, 12, 13, 14}
    ensures Evaluate5(h) == [8, 14]
    ensures NoDups(h)
  {
    var vals := Values(h);
    var w := [10, 11, 12, 13, 14];
    BroadwayValues(vals, w);
    UniqueAscIs(vals, w);
    StraightExamples();
    BranchStraightFlush(h);
    forall i, j | 0 <= i < j < 5 ensures h[i] != h[j] {
      assert vals[i] != vals[j];
    }
  }

  /** A royal flush among the seven cards gives (8, 14) whatever the other two are. */
  lemma RoyalOnBoard(cards: seq<Card>, board: seq<Card>)
    requires |cards| == 7 && forall i :: 0 <= i < 7 ==> ValidCard(cards[i])
    requires |board| == 5 && forall c :: c in board ==> c in cards
    requires IsFlush(board) && multiset(Values(board)) == multiset{10, 11, 12, 13, 14}
    ensures Best7(cards) == [8, 14]
  {
    RoyalFlush(board);
    Best7UpperAnyFive(cards, board);
    BinomialPositive(|cards|, 5);
    var rs := SubsetRanks(cards);
    forall i | 0 <= i < |rs| ensures LessEq(rs[i], [8, 14]) {
      SubsetBelowRoyal(cards, i);
    }
    var m := Maximum(rs);
    LessEqAntisymmetric(m, [8, 14]);
  }

  lemma SubsetBelowRoyal(cards: seq<Card>, i: nat)
    requires |cards| == 7 && forall i :: 0 <= i < 7 ==> ValidCard(cards[i])
    requires i < |Combinations(cards, 5)|
    ensures LessEq(SubsetRanks(cards)[i], [8, 14])
  {
    var five := Combinations(cards, 5)[i];
    assert five in Combinations(cards, 5);
    SubsetValues(cards, five);
    RoyalIsTop(five);
  }

  lemma SubsetValues(cards: seq<Card>, five: seq<Card>)
    requires forall i :: 0 <= i < |cards| ==> ValidCard(cards[i])
    requires five in Combinations(cards, 5)
    ensures |five| == 5 && forall j :: 0 <= j < 5 ==> 1 <= five[j].value <= 14
  {
    CombinationElements(cards, 5, five);
    forall j | 0 <= j < 5 ensures 1 <= five[j].value <= 14 {
      assert five[j] in five;
      var k :| 0 <= k < |cards| && cards[k] == five[j];
      ValidCardValue(cards[k]);
    }
  }

  lemma LessEqAntisymmetric(a: seq<int>, b: seq<int>)
    requires LessEq(a, b) && LessEq(b, a)
    ensures a == b
  {
    LessAsymmetric(a, b);
  }
}
