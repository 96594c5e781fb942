/**
 * Exact heads-up equity (equity_hu.py): every completion of a partial board
 * from the cards nobody holds, scored with the seven-card evaluator.
 */
module EquityHu {
  import opened Results
  import opened Seqs
  import opened Cards
  import opened Itertools
  import opened TupleOrder
  import opened HandRank5
  import opened HandRank7

  // ---------------------------------------------------------------------------
  // Input checks and the binomial helper

  /** `_validate_inputs`: `None` when the inputs pass, else the first check that fails. */
  function ValidateInputs(hero: seq<Card>, villain: seq<Card>, board: seq<Card>): (e: Option<Error>)
    ensures e.None? <==> |hero| == 2 && |villain| == 2 && |board| <= 5 && NoDups(hero + villain + board)
    ensures e == Some(WrongHoleCount) <==> |hero| != 2 || |villain| != 2
    ensures e == Some(BoardTooLarge) <==> |hero| == 2 && |villain| == 2 && |board| > 5
    ensures e == Some(DuplicateCards) <==>
      |hero| == 2 && |villain| == 2 && |board| <= 5 && !NoDups(hero + villain + board)
  {
    if |hero| != 2 || |villain| != 2 then Some(WrongHoleCount)
    else if |board| > 5 then Some(BoardTooLarge)
    else
      var all := hero + villain + board;
      DistinctCardinality(all);
      if |Elems(all)| != |all| then Some(DuplicateCards) else None
  }

  /**
   * `_choose(n, k)`: zero outside 0 <= k <= n, and otherwise the number
   * n! / (k! (n-k)!), which is never zero.
   */
  function Choose(n: int, k: int): (c: nat)
    ensures k < 0 || k > n ==> c == 0
    ensures 0 <= k <= n ==> c * Factorial(k) * Factorial(n - k) == Factorial(n)
    ensures 0 <= k <= n ==> c > 0
  {
    if k < 0 || k > n then 0
    else
      BinomialFactorial(n, k);
      Binomial(n, k)
  }

  // ---------------------------------------------------------------------------
  // Runouts and their tally

  /** The unknown board cards and the deck they are drawn from. */
  function Need(board: seq<Card>): int {
    5 - |board|
  }

  /** `combinations(make_deck(exclude=used), need)`: every way to complete the board. */
  function Runouts(hero: seq<Card>, villain: seq<Card>, board: seq<Card>): (rs: seq<seq<Card>>)
    requires |board| <= 5
    ensures forall d :: d in rs ==> |board| + |d| == 5
    ensures |rs| == Binomial(|DeckExcluding(hero + villain + board)|, 5 - |board|)
  {
    Combinations(DeckExcluding(hero + villain + board), 5 - |board|)
  }

  datatype Counts = Counts(wins: nat, ties: nat, total: nat)

  /** The hero's seven cards against the villain's, both on the completed board `full`. */
  function Ranks(hero: seq<Card>, villain: seq<Card>, full: seq<Card>): (seq<int>, seq<int>)
    requires |hero| == 2 && |villain| == 2 && |full| == 5
  {
    (Best7(hero + full), Best7(villain + full))
  }

  /** One pass of the loop body on the two ranks: `total` always, and at most one of `wins`, `ties`. */
  function Score(hr: seq<int>, vr: seq<int>, c: Counts): (next: Counts)
    ensures next.total == c.total + 1
    ensures next.wins + next.ties <= c.wins + c.ties + 1
    ensures next.wins >= c.wins && next.ties >= c.ties
  {
    if Less(vr, hr) then Counts(c.wins + 1, c.ties, c.total + 1)
    else if hr == vr then Counts(c.wins, c.ties + 1, c.total + 1)
    else Counts(c.wins, c.ties, c.total + 1)
  }

  /** `wins` counts a larger hero rank, `ties` equal ranks, never both at once. */
  lemma ScoreCases(hr: seq<int>, vr: seq<int>, c: Counts)
    ensures Score(hr, vr, c).wins == c.wins + (if Less(vr, hr) then 1 else 0)
    ensures Score(hr, vr, c).ties == c.ties + (if hr == vr then 1 else 0)
  {
    if Less(vr, hr) {
      LessIrreflexive(hr);
    }
  }

  /** The hero's and the villain's rank on every runout, in enumeration order. */
  function RunoutRanks(hero: seq<Card>, villain: seq<Card>, board: seq<Card>, runouts: seq<seq<Card>>): (ps: seq<(seq<int>, seq<int>)>)
    requires |hero| == 2 && |villain| == 2
    requires forall d :: d in runouts ==> |board| + |d| == 5
    ensures |ps| == |runouts|
    ensures forall i :: 0 <= i < |runouts| ==> ps[i] == Ranks(hero, villain, board + runouts[i])
  {
    seq(|runouts|, i requires 0 <= i < |runouts| =>
      assert runouts[i] in runouts;
      Ranks(hero, villain, board + runouts[i]))
  }

  /** The counts after the loop has scored the rank pairs `ps`, in order. */
  function Tally(ps: seq<(seq<int>, seq<int>)>): (c: Counts)
    ensures c.total == |ps|
    ensures c.wins + c.ties <= c.total
  {
    if ps == [] then Counts(0, 0, 0)
    else
      var last := ps[|ps| - 1];
      Score(last.0, last.1, Tally(ps[..|ps| - 1]))
  }

  /** The positions of `ps` where the hero's rank is the larger one. */
  ghost function WinIndices(ps: seq<(seq<int>, seq<int>)>): set<int> {
    set i | 0 <= i < |ps| && Less(ps[i].1, ps[i].0)
  }

  /** The positions of `ps` where the two ranks are equal. */
  ghost function TieIndices(ps: seq<(seq<int>, seq<int>)>): set<int> {
    set i | 0 <= i < |ps| && ps[i].0 == ps[i].1
  }

  /** `wins` is the number of runouts the hero's rank is larger on, `ties` the number with equal ranks. */
  lemma {:induction false} TallyCounts(ps: seq<(seq<int>, seq<int>)>)
    ensures Tally(ps).wins == |WinIndices(ps)|
    ensures Tally(ps).ties == |TieIndices(ps)|
  {
    if ps != [] {
      var n := |ps| - 1;
      TallyCounts(ps[..n]);
      ScoreCases(ps[n].0, ps[n].1, Tally(ps[..n]));
      WinIndicesStep(ps);
      TieIndicesStep(ps);
    }
  }

  /** Adding the last pair adds its own position to its index set, and no other. */
  lemma WinIndicesStep(ps: seq<(seq<int>, seq<int>)>)
    requires ps != []
    ensures |WinIndices(ps)| == |WinIndices(ps[..|ps| - 1])| + (if Less(ps[|ps| - 1].1, ps[|ps| - 1].0) then 1 else 0)
  {
    var n := |ps| - 1;
    var init := ps[..n];
    var w := if Less(ps[n].1, ps[n].0) then {n} else {};
    forall i ensures i in WinIndices(ps) <==> i in WinIndices(init) + w {
      if 0 <= i < n {
        assert init[i] == ps[i];
      }
    }
    assert WinIndices(ps) == WinIndices(init) + w;
    assert n !in WinIndices(init);
  }

  lemma TieIndicesStep(ps: seq<(seq<int>, seq<int>)>)
    requires ps != []
    ensures |TieIndices(ps)| == |TieIndices(ps[..|ps| - 1])| + (if ps[|ps| - 1].0 == ps[|ps| - 1].1 then 1 else 0)
  {
    var n := |ps| - 1;
    var init := ps[..n];
    var t := if ps[n].0 == ps[n].1 then {n} else {};
    forall i ensures i in TieIndices(ps) <==> i in TieIndices(init) + t {
      if 0 <= i < n {
        assert init[i] == ps[i];
      }
    }
    assert TieIndices(ps) == TieIndices(init) + t;
    assert n !in TieIndices(init);
  }

  lemma TallyStep(ps: seq<(seq<int>, seq<int>)>, i: nat)
    requires i < |ps|
    ensures Tally(ps[..i + 1]) == Score(ps[i].0, ps[i].1, Tally(ps[..i]))
  {
    assert ps[..i + 1][..i] == ps[..i];
  }

  lemma TallyNext(ps: seq<(seq<int>, seq<int>)>, i: nat, hr: seq<int>, vr: seq<int>, before: Counts, after: Counts)
    requires i < |ps| && ps[i] == (hr, vr) && before == Tally(ps[..i])
    requires after == Score(hr, vr, before)
    ensures after == Tally(ps[..i + 1])
  {
    TallyStep(ps, i);
  }

  /**
   * The cards the loop hands to `rank7`: seven of them, none repeated, so
   * the evaluator's own checks never fire inside `enumerate_runouts`.
   */
  lemma RunoutHandsDistinct(hero: seq<Card>, villain: seq<Card>, board: seq<Card>, drawn: seq<Card>)
    requires ValidateInputs(hero, villain, board).None?
    requires drawn in Runouts(hero, villain, board)
    ensures |hero + (board + drawn)| == 7 && NoDups(hero + (board + drawn))
    ensures |villain + (board + drawn)| == 7 && NoDups(villain + (board + drawn))
  {
    var used := hero + villain + board;
    var deck := DeckExcluding(used);
    DeckExcludingProperties(used);
    CombinationElements(deck, 5 - |board|, drawn);
    UsedParts(hero, villain, board);
    HandDistinct(hero, board, drawn, used);
    HandDistinct(villain, board, drawn, used);
  }

  /** Either hand with the board: no card twice, and all of them among the used cards. */
  lemma UsedParts(hero: seq<Card>, villain: seq<Card>, board: seq<Card>)
    requires NoDups(hero + villain + board)
    ensures NoDups(hero + board) && NoDups(villain + board)
    ensures forall x :: x in hero + board ==> x in hero + villain + board
    ensures forall x :: x in villain + board ==> x in hero + villain + board
  {
    NoDupsWithout(hero, villain, board);
    assert hero + villain + board == [] + hero + (villain + board);
    NoDupsWithout([], hero, villain + board);
    assert [] + (villain + board) == villain + board;
  }

  /** Hole cards and board from `used`, drawn cards from outside it: no card twice. */
  lemma HandDistinct(hole: seq<Card>, board: seq<Card>, drawn: seq<Card>, used: seq<Card>)
    requires NoDups(hole + board) && NoDups(drawn)
    requires forall x :: x in hole + board ==> x in used
    requires forall x :: x in drawn ==> x !in used
    ensures NoDups(hole + (board + drawn))
  {
    NoDupsConcat(hole + board, drawn);
    assert hole + (board + drawn) == hole + board + drawn;
  }

  /** Dropping the middle part of a sequence with no repeats leaves none. */
  lemma NoDupsWithout<T>(a: seq<T>, b: seq<T>, c: seq<T>)
    requires NoDups(a + b + c)
    ensures NoDups(a + c)
  {
    var s, t := a + b + c, a + c;
    forall i, j | 0 <= i < j < |t| ensures t[i] != t[j] {
      var i' := if i < |a| then i else i + |b|;
      var j' := if j < |a| then j else j + |b|;
      assert t[i] == s[i'] && t[j] == s[j'];
    }
  }

  // ---------------------------------------------------------------------------
  // enumerate_runouts

  /**
   * `enumerate_runouts`: the input checks, the guard on the number of
   * unknown cards, then the counting loop over every runout.
   */
  method EnumerateRunouts(hero: seq<Card>, villain: seq<Card>, board: seq<Card>, allowLarge: bool)
    returns (r: Result<Counts>)
    ensures ValidateInputs(hero, villain, board).Some? ==> r == Err(ValidateInputs(hero, villain, board).value)
    ensures ValidateInputs(hero, villain, board).None? && Need(board) > 2 && !allowLarge ==> r == Err(TooManyUnknown)
    ensures r.Ok? <==> ValidateInputs(hero, villain, board).None? && (Need(board) <= 2 || allowLarge)
    ensures r.Ok? ==> |board| <= 5 && r.value == Tally(RunoutRanks(hero, villain, board, Runouts(hero, villain, board)))
  {
    var invalid := ValidateInputs(hero, villain, board);
    if invalid.Some? {
      return Err(invalid.value);
    }
    var need := 5 - |board|;
    if need > 2 && !allowLarge {
      return Err(TooManyUnknown);
    }
    var used := hero + villain + board;
    var deck := MakeDeck(used);
    var runouts := Combinations(deck, need);
    assert runouts == Runouts(hero, villain, board);
    ghost var ps := RunoutRanks(hero, villain, board, runouts);
    var wins, ties, total := 0, 0, 0;
    for i := 0 to |runouts|
      invariant Counts(wins, ties, total) == Tally(ps[..i])
    {
      var drawn := runouts[i];
      var full := board + drawn;
      RunoutHandsDistinct(hero, villain, board, drawn);
      ghost var before := Counts(wins, ties, total);
      wins, ties, total := CountRunout(hero, villain, full, wins, ties, total);
      TallyNext(ps, i, Ranks(hero, villain, full).0, Ranks(hero, villain, full).1, before, Counts(wins, ties, total));
    }
    assert ps[..|runouts|] == ps;
    return Ok(Counts(wins, ties, total));
  }

  /**
   * The body of the loop for one completed board `full`: both players'
   * `rank7`, then `wins` or `ties` by the tuple comparison, and `total`.
   */
  method CountRunout(hero: seq<Card>, villain: seq<Card>, full: seq<Card>, wins: nat, ties: nat, total: nat)
    returns (wins': nat, ties': nat, total': nat)
    requires |hero| == 2 && |villain| == 2 && |full| == 5
    requires NoDups(hero + full) && NoDups(villain + full)
    ensures Counts(wins', ties', total') ==
      Score(Ranks(hero, villain, full).0, Ranks(hero, villain, full).1, Counts(wins, ties, total))
  {
    var heroRank := Rank7(hero + full);
    var villainRank := Rank7(villain + full);
    wins', ties', total' := CountOutcome(heroRank.value, villainRank.value, wins, ties, total);
  }

  /** `if hero_best > villain_best: wins += 1 elif hero_best == villain_best: ties += 1`, then `total += 1`. */
  method CountOutcome(heroBest: seq<int>, villainBest: seq<int>, wins: nat, ties: nat, total: nat)
    returns (wins': nat, ties': nat, total': nat)
    ensures Counts(wins', ties', total') == Score(heroBest, villainBest, Counts(wins, ties, total))
  {
    wins', ties', total' := wins, ties, total;
    if Less(villainBest, heroBest) {
      wins' := wins' + 1;
    } else if heroBest == villainBest {
      ties' := ties' + 1;
    }
    total' := total' + 1;
  }

  // ---------------------------------------------------------------------------
  // What the tally counts

  /**
   * With valid cards the remaining deck has 48 - |board| cards, so there are
   * C(48 - |board|, need) runouts, and `_choose` gives the same number.
   */
  lemma RunoutCount(hero: seq<Card>, villain: seq<Card>, board: seq<Card>)
    requires ValidateInputs(hero, villain, board).None?
    requires forall c :: c in hero + villain + board ==> ValidCard(c)
    ensures |Runouts(hero, villain, board)| == Binomial(48 - |board|, 5 - |board|)
    ensures |Runouts(hero, villain, board)| == Choose(48 - |board|, 5 - |board|)
  {
    DeckExcludingDistinct(hero + villain + board);
  }

  /** A full board has one runout (the empty one), a turn 44, a flop 990. */
  lemma RunoutCountExamples(hero: seq<Card>, villain: seq<Card>, board: seq<Card>)
    requires ValidateInputs(hero, villain, board).None?
    requires forall c :: c in hero + villain + board ==> ValidCard(c)
    ensures |board| == 5 ==> Runouts(hero, villain, board) == [[]]
    ensures |board| == 4 ==> |Runouts(hero, villain, board)| == 44
    ensures |board| == 3 ==> |Runouts(hero, villain, board)| == 990
  {
    RunoutCount(hero, villain, board);
    BinomialOne(44);
    BinomialTwo(45);
  }

  /** When the hero's rank is the larger on every runout, every counted runout is a win. */
  lemma {:induction false} TallyAllWins(ps: seq<(seq<int>, seq<int>)>)
    requires forall i :: 0 <= i < |ps| ==> Less(ps[i].1, ps[i].0)
    ensures Tally(ps) == Counts(|ps|, 0, |ps|)
  {
    if ps != [] {
      var init := ps[..|ps| - 1];
      TallyAllWins(init);
      ScoreCases(ps[|ps| - 1].0, ps[|ps| - 1].1, Tally(init));
    }
  }

  /** When the two ranks are equal on every runout, every counted runout is a tie. */
  lemma {:induction false} TallyAllChops(ps: seq<(seq<int>, seq<int>)>)
    requires forall i :: 0 <= i < |ps| ==> ps[i].0 == ps[i].1
    ensures Tally(ps) == Counts(0, |ps|, |ps|)
  {
    if ps != [] {
      var init := ps[..|ps| - 1];
      TallyAllChops(init);
      ScoreCases(ps[|ps| - 1].0, ps[|ps| - 1].1, Tally(init));
    }
  }

  // ---------------------------------------------------------------------------
  // equity_hu_exact

  /** `(wins + ties / 2) / total` as an exact rational, or 0 when nothing was counted. */
  function Equity(c: Counts): (e: real)
    ensures c.wins + c.ties <= c.total ==> 0.0 <= e <= 1.0
    ensures c.total > 0 ==> e * (2 * c.total) as real == (2 * c.wins + c.ties) as real
  {
    if c.total == 0 then 0.0
    else
      var e := (c.wins as real + 0.5 * c.ties as real) / c.total as real;
      EquityBounds(c.wins as real, c.ties as real, c.total as real, e);
      e
  }

  lemma EquityBounds(w: real, t: real, n: real, e: real)
    requires 0.0 <= w && 0.0 <= t && 0.0 < n
    requires e == (w + 0.5 * t) / n
    ensures w + t <= n ==> 0.0 <= e <= 1.0
    ensures e * (2.0 * n) == 2.0 * w + t
  {
    assert e * n == w + 0.5 * t;
  }

  /** Equity is 1 when the hero wins every runout, 1/2 when every runout is chopped, 0 when the hero never wins or ties. */
  lemma EquityExtremes(c: Counts)
    requires c.total > 0
    ensures c == Counts(c.total, 0, c.total) ==> Equity(c) == 1.0
    ensures c == Counts(0, c.total, c.total) ==> Equity(c) == 0.5
    ensures c.wins == 0 && c.ties == 0 ==> Equity(c) == 0.0
  {
    var n := (2 * c.total) as real;
    if c == Counts(c.total, 0, c.total) {
      Cancel(Equity(c), 1.0, n);
    }
    if c == Counts(0, c.total, c.total) {
      Cancel(Equity(c), 0.5, n);
    }
    if c.wins == 0 && c.ties == 0 {
      Cancel(Equity(c), 0.0, n);
    }
  }

  lemma Cancel(x: real, y: real, n: real)
    requires n > 0.0 && x * n == y * n
    ensures x == y
  {
    assert (x - y) * n == x * n - y * n;
  }

  datatype Report = Report(equity: real, wins: nat, ties: nat, total: nat)

  /** `equity_hu_exact`: the counts of `enumerate_runouts` and the equity they give. */
  method EquityHuExact(hero: seq<Card>, villain: seq<Card>, board: seq<Card>, allowLarge: bool)
    returns (r: Result<Report>)
    ensures ValidateInputs(hero, villain, board).Some? ==> r == Err(ValidateInputs(hero, villain, board).value)
    ensures ValidateInputs(hero, villain, board).None? && Need(board) > 2 && !allowLarge ==> r == Err(TooManyUnknown)
    ensures r.Ok? <==> ValidateInputs(hero, villain, board).None? && (Need(board) <= 2 || allowLarge)
    ensures r.Ok? ==> (
      && |board| <= 5
      && var c := Tally(RunoutRanks(hero, villain, board, Runouts(hero, villain, board)));
         r.value == Report(Equity(c), c.wins, c.ties, c.total))
    ensures r.Ok? ==> 0.0 <= r.value.equity <= 1.0 && r.value.wins + r.value.ties <= r.value.total
  {
    var counts := EnumerateRunouts(hero, villain, board, allowLarge);
    if counts.Err? {
      return Err(counts.error);
    }
    var c := counts.value;
    return Ok(Report(Equity(c), c.wins, c.ties, c.total));
  }

  /**
   * A royal flush on a full board chops: whatever the four hole cards, there
   * is one runout, it is a tie, and the equity is 1/2.
   */
  lemma RoyalBoardChops(hero: seq<Card>, villain: seq<Card>, board: seq<Card>)
    requires ValidateInputs(hero, villain, board).None?
    requires forall c :: c in hero + villain + board ==> ValidCard(c)
    requires |board| == 5 && IsFlush(board) && multiset(Values(board)) == multiset{10, 11, 12, 13, 14}
    ensures Tally(RunoutRanks(hero, villain, board, Runouts(hero, villain, board))) == Counts(0, 1, 1)
    ensures Equity(Tally(RunoutRanks(hero, villain, board, Runouts(hero, villain, board)))) == 0.5
  {
    RunoutCountExamples(hero, villain, board);
    RoyalHand(hero, villain, board, hero);
    RoyalHand(hero, villain, board, villain);
    OnlyRunout(hero, villain, board, Runouts(hero, villain, board));
    OneChop(hero, villain, board, RunoutRanks(hero, villain, board, Runouts(hero, villain, board)));
    EquityExtremes(Counts(0, 1, 1));
  }

  lemma OneChop(hero: seq<Card>, villain: seq<Card>, board: seq<Card>, ps: seq<(seq<int>, seq<int>)>)
    requires |hero| == 2 && |villain| == 2 && |board| == 5
    requires Best7(hero + board) == Best7(villain + board)
    requires |ps| == 1 && ps[0] == Ranks(hero, villain, board)
    ensures Tally(ps) == Counts(0, 1, 1)
  {
    SingleChop(ps);
  }

  lemma OnlyRunout(hero: seq<Card>, villain: seq<Card>, board: seq<Card>, rs: seq<seq<Card>>)
    requires |hero| == 2 && |villain| == 2 && |board| == 5 && rs == [[]]
    ensures |RunoutRanks(hero, villain, board, rs)| == 1
    ensures RunoutRanks(hero, villain, board, rs)[0] == Ranks(hero, villain, board)
  {
    assert board + rs[0] == board;
  }

  lemma SingleChop(ps: seq<(seq<int>, seq<int>)>)
    requires |ps| == 1 && ps[0].0 == ps[0].1
    ensures Tally(ps) == Counts(0, 1, 1)
  {
    TallyAllChops(ps);
  }

  /** On a full board a strictly better hero hand is the one runout, a win, and equity 1. */
  lemma FullBoardHeroWins(hero: seq<Card>, villain: seq<Card>, board: seq<Card>)
    requires ValidateInputs(hero, villain, board).None?
    requires forall c :: c in hero + villain + board ==> ValidCard(c)
    requires |board| == 5 && Less(Best7(villain + board), Best7(hero + board))
    ensures Tally(RunoutRanks(hero, villain, board, Runouts(hero, villain, board))) == Counts(1, 0, 1)
    ensures Equity(Tally(RunoutRanks(hero, villain, board, Runouts(hero, villain, board)))) == 1.0
  {
    RunoutCountExamples(hero, villain, board);
    OnlyRunout(hero, villain, board, Runouts(hero, villain, board));
    OneWin(hero, villain, board, RunoutRanks(hero, villain, board, Runouts(hero, villain, board)));
    EquityExtremes(Counts(1, 0, 1));
  }

  lemma OneWin(hero: seq<Card>, villain: seq<Card>, board: seq<Card>, ps: seq<(seq<int>, seq<int>)>)
    requires |hero| == 2 && |villain| == 2 && |board| == 5
    requires Less(Best7(villain + board), Best7(hero + board))
    requires |ps| == 1 && ps[0] == Ranks(hero, villain, board)
    ensures Tally(ps) == Counts(1, 0, 1)
  {
    SingleWin(ps);
  }

  lemma SingleWin(ps: seq<(seq<int>, seq<int>)>)
    requires |ps| == 1 && Less(ps[0].1, ps[0].0)
    ensures Tally(ps) == Counts(1, 0, 1)
  {
    TallyAllWins(ps);
  }

  lemma RoyalHand(hero: seq<Card>, villain: seq<Card>, board: seq<Card>, hole: seq<Card>)
    requires hole == hero || hole == villain
    requires |hero| == 2 && |villain| == 2
    requires forall c :: c in hero + villain + board ==> ValidCard(c)
    requires |board| == 5 && IsFlush(board) && multiset(Values(board)) == multiset{10, 11, 12, 13, 14}
    ensures Best7(hole + board) == [8, 14]
  {
    var cards := hole + board;
    forall i | 0 <= i < 7 ensures ValidCard(cards[i]) {
      assert cards[i] in hero + villain + board;
    }
    RoyalOnBoard(cards, board);
  }
}
