/**
 * Cards and decks (cards.py). A card is a value 2..14 (14 is the ace) and a
 * suit symbol from "shdc"; its text form is a rank symbol followed by a suit
 * symbol, as in "Ah" or "Td".
 */
module Cards {
  import opened Results
  import opened Seqs
  import opened Itertools

  const RANKS: string := "23456789TJQKA"
  const SUITS: string := "shdc"

  /** `RANK_TO_VAL`: rank symbol to value, the i-th symbol of RANKS to i + 2. */
  const RankToVal: map<char, int> := map[
    '2' := 2, '3' := 3, '4' := 4, '5' := 5, '6' := 6, '7' := 7, '8' := 8,
    '9' := 9, 'T' := 10, 'J' := 11, 'Q' := 12, 'K' := 13, 'A' := 14]

  /** `VAL_TO_RANK`: the inverse of RANK_TO_VAL. */
  const ValToRank: map<int, char> := map[
    2 := '2', 3 := '3', 4 := '4', 5 := '5', 6 := '6', 7 := '7', 8 := '8',
    9 := '9', 10 := 'T', 11 := 'J', 12 := 'Q', 13 := 'K', 14 := 'A']

  /** A card is a (value, suit) pair; equality is field by field. */
  datatype Card = Card(value: int, suit: char)

  /** The card has a value and a suit that `card_str` accepts. */
  predicate ValidCard(c: Card) {
    c.value in ValToRank && c.suit in SUITS
  }

  /** RANK_TO_VAL enumerates RANKS from 2 upwards; its keys are the rank symbols. */
  lemma RankEnumeration()
    ensures forall i :: 0 <= i < |RANKS| ==> RANKS[i] in RankToVal && RankToVal[RANKS[i]] == i + 2
    ensures forall r :: r in RankToVal <==> r in RANKS
  {
  }

  /** VAL_TO_RANK is defined on 2..14 and inverts RANK_TO_VAL. */
  lemma RankInverse()
    ensures forall v :: v in ValToRank <==> 2 <= v <= 14
    ensures forall r :: r in RankToVal ==> RankToVal[r] in ValToRank && ValToRank[RankToVal[r]] == r
    ensures forall v :: v in ValToRank ==> ValToRank[v] in RankToVal && RankToVal[ValToRank[v]] == v
  {
    ValueKeys();
    RankRoundTrip();
    ValueRoundTrip();
  }

  lemma ValueKeys()
    ensures forall v :: v in ValToRank <==> 2 <= v <= 14
  {
  }

  lemma RankRoundTrip()
    ensures forall r :: r in RankToVal ==> RankToVal[r] in ValToRank && ValToRank[RankToVal[r]] == r
  {
  }

  lemma ValueRoundTrip()
    ensures forall v :: v in ValToRank ==> ValToRank[v] in RankToVal && RankToVal[ValToRank[v]] == v
  {
  }

  lemma ValidCardValue(c: Card)
    requires ValidCard(c)
    ensures 2 <= c.value <= 14
  {
    RankInverse();
  }

  /** `str.upper()` on one character (ASCII letters; other characters unchanged). */
  function Upper(ch: char): char {
    if 'a' <= ch <= 'z' then (ch as int - 32) as char else ch
  }

  /** `str.lower()` on one character (ASCII letters; other characters unchanged). */
  function Lower(ch: char): char {
    if 'A' <= ch <= 'Z' then (ch as int + 32) as char else ch
  }

  /** `parse_card`: the checks in the order the source makes them. */
  function ParseCard(s: string): (r: Result<Card>)
    ensures r.Ok? ==> ValidCard(r.value)
    ensures r.Err? <==> |s| != 2 || Upper(s[0]) !in RANKS || Lower(s[1]) !in SUITS
    ensures |s| != 2 ==> r == Err(BadLength)
    ensures |s| == 2 && Upper(s[0]) !in RANKS ==> r == Err(BadRank)
    ensures |s| == 2 && Upper(s[0]) in RANKS && Lower(s[1]) !in SUITS ==> r == Err(BadSuit)
  {
    RankEnumeration();
    RankInverse();
    if |s| != 2 then Err(BadLength)
    else
      var r, su := Upper(s[0]), Lower(s[1]);
      if r !in RankToVal then Err(BadRank)
      else if su !in SUITS then Err(BadSuit)
      else Ok(Card(RankToVal[r], su))
  }

  /** `card_str`: rank symbol then suit symbol. */
  function CardStr(c: Card): (r: Result<string>)
    ensures r.Ok? <==> ValidCard(c)
    ensures r.Err? ==> r.error == BadCard
    ensures r.Ok? ==> |r.value| == 2 && r.value[0] in RANKS && r.value[1] == c.suit
    ensures r.Ok? ==> r.value[0] in RankToVal && RankToVal[r.value[0]] == c.value
  {
    RankEnumeration();
    RankInverse();
    if c.value !in ValToRank || c.suit !in SUITS then Err(BadCard)
    else Ok([ValToRank[c.value], c.suit])
  }

  /** Formatting a valid card and parsing the text gives the card back. */
  lemma FormatParseRoundTrip(c: Card)
    requires ValidCard(c)
    ensures CardStr(c).Ok? && ParseCard(CardStr(c).value) == Ok(c)
  {
    RankEnumeration();
    RankInverse();
    var s := CardStr(c).value;
    assert Upper(s[0]) == s[0];
    assert Lower(s[1]) == s[1];
  }

  /** Parsing reads the rank symbol upper-cased and the suit symbol lower-cased. */
  lemma ParseCaseInsensitive(a: char, b: char)
    ensures ParseCard([a, b]) == ParseCard([Upper(a), Lower(b)])
  {
  }

  /** The strings of test_cards.py that must be refused. */
  lemma ParseRejects()
    ensures ParseCard("") == Err(BadLength)
    ensures ParseCard("A") == Err(BadLength)
    ensures ParseCard("10h") == Err(BadLength)
    ensures ParseCard("1h") == Err(BadRank)
    ensures ParseCard("Ahh") == Err(BadLength)
    ensures ParseCard("AX") == Err(BadSuit)
    ensures ParseCard("ZZ") == Err(BadRank)
    ensures ParseCard(" Qs") == Err(BadLength)
    ensures ParseCard("As ") == Err(BadLength)
  {
    RankEnumeration();
  }

  /** The index at which `make_deck()` places a valid card. */
  function DeckIndex(c: Card): (i: nat)
    requires ValidCard(c)
    ensures i < 52
  {
    RankInverse();
    4 * (c.value - 2) + SuitIndex(c.suit)
  }

  function SuitIndex(su: char): (k: nat)
    requires su in SUITS
    ensures k < 4 && SUITS[k] == su
  {
    if su == 's' then 0 else if su == 'h' then 1 else if su == 'd' then 2 else 3
  }

  /** `make_deck()` with nothing excluded: values 2..14, each in the suits "shdc". */
  function FullDeck(): (d: seq<Card>)
    ensures |d| == 52
    ensures forall i :: 0 <= i < 52 ==> d[i] == Card(i / 4 + 2, SUITS[i % 4])
  {
    seq(52, i requires 0 <= i < 52 => Card(i / 4 + 2, SUITS[i % 4]))
  }

  lemma FullDeckAt(i: nat)
    requires i < 52
    ensures ValidCard(FullDeck()[i])
    ensures DeckIndex(FullDeck()[i]) == i
  {
    RankInverse();
    var k := i % 4;
    assert SuitIndex(SUITS[k]) == k;
  }

  /** `make_deck()` holds the 52 valid cards, each once. */
  lemma FullDeckProperties()
    ensures NoDups(FullDeck())
    ensures forall c :: c in FullDeck() <==> ValidCard(c)
  {
    var d := FullDeck();
    forall i, j | 0 <= i < j < 52 ensures d[i] != d[j] {
      FullDeckAt(i);
      FullDeckAt(j);
    }
    forall c | ValidCard(c) ensures c in d {
      var i := DeckIndex(c);
      FullDeckAt(i);
      RankInverse();
      assert d[i] == c;
    }
    forall c | c in d ensures ValidCard(c) {
      var i :| 0 <= i < 52 && d[i] == c;
      FullDeckAt(i);
    }
  }

  lemma FullDeckEntry(v: int, k: int)
    requires 2 <= v <= 14 && 0 <= k < 4
    ensures FullDeck()[4 * (v - 2) + k] == Card(v, SUITS[k])
  {
    var n := 4 * (v - 2) + k;
    assert n / 4 == v - 2 && n % 4 == k;
  }

  /** `[c for c in s if c not in excl]`, built from the back. */
  function Without(s: seq<Card>, excl: seq<Card>): (r: seq<Card>)
    ensures forall c :: c in r <==> c in s && c !in excl
  {
    if s == [] then []
    else
      var init, last := s[..|s| - 1], s[|s| - 1];
      assert s == init + [last];
      Without(init, excl) + (if last in excl then [] else [last])
  }

  lemma WithoutNoDups(s: seq<Card>, excl: seq<Card>)
    requires NoDups(s)
    ensures NoDups(Without(s, excl))
  {
    if s != [] {
      var init, last := s[..|s| - 1], s[|s| - 1];
      WithoutNoDups(init, excl);
      assert last !in init;
      NoDupsConcat(Without(init, excl), if last in excl then [] else [last]);
    }
  }

  /** What `make_deck(exclude=excl)` returns: the full deck in order, minus `excl`. */
  function DeckExcluding(excl: seq<Card>): seq<Card> {
    Without(FullDeck(), excl)
  }

  /** `make_deck`: the nested loops of the source, appending card by card. */
  method MakeDeck(exclude: seq<Card>) returns (deck: seq<Card>)
    ensures deck == DeckExcluding(exclude)
  {
    deck := [];
    for v := 2 to 15
      invariant deck == Without(FullDeck()[..4 * (v - 2)], exclude)
    {
      for k := 0 to |SUITS|
        invariant deck == Without(FullDeck()[..4 * (v - 2) + k], exclude)
      {
        var card := Card(v, SUITS[k]);
        var n := 4 * (v - 2) + k;
        FullDeckEntry(v, k);
        assert FullDeck()[..n + 1] == FullDeck()[..n] + [card];
        if card !in exclude {
          deck := deck + [card];
        }
      }
    }
    assert FullDeck()[..52] == FullDeck();
  }

  ghost function ValidCards(s: seq<Card>): set<Card> {
    set c | c in s && ValidCard(c)
  }

  lemma SetDifferenceCardinality<T>(a: set<T>, b: set<T>)
    ensures |a - b| == |a| - |a * b|
  {
    assert a == (a - b) + (a * b);
    assert (a - b) * (a * b) == {};
  }

  /**
   * `make_deck(exclude=excl)` returns exactly the valid cards not in `excl`,
   * each once: 52 minus the number of distinct valid cards excluded.
   */
  lemma DeckExcludingProperties(excl: seq<Card>)
    ensures forall c :: c in DeckExcluding(excl) <==> ValidCard(c) && c !in excl
    ensures NoDups(DeckExcluding(excl))
    ensures |DeckExcluding(excl)| == 52 - |ValidCards(excl)|
  {
    FullDeckProperties();
    var d := DeckExcluding(excl);
    WithoutNoDups(FullDeck(), excl);
    DistinctCardinality(d);
    DistinctCardinality(FullDeck());
    assert Elems(d) == Elems(FullDeck()) - Elems(excl);
    SetDifferenceCardinality(Elems(FullDeck()), Elems(excl));
    assert Elems(FullDeck()) * Elems(excl) == ValidCards(excl);
  }

  /** k distinct valid cards excluded leave 52 - k. */
  lemma DeckExcludingDistinct(excl: seq<Card>)
    requires NoDups(excl)
    requires forall c :: c in excl ==> ValidCard(c)
    ensures |DeckExcluding(excl)| == 52 - |excl|
  {
    DeckExcludingProperties(excl);
    DistinctCardinality(excl);
    assert ValidCards(excl) == Elems(excl);
  }

  lemma FullDeckSize()
    ensures DeckExcluding([]) == FullDeck()
  {
    FullDeckProperties();
    DeckExcludingProperties([]);
    assert |DeckExcluding([])| == 52 by {
      assert ValidCards([]) == {};
    }
    WithoutEmpty(FullDeck());
  }

  lemma {:induction false} WithoutEmpty(s: seq<Card>)
    ensures Without(s, []) == s
  {
    if s != [] {
      var init, last := s[..|s| - 1], s[|s| - 1];
      WithoutEmpty(init);
      assert Without(s, []) == Without(init, []) + [last];
      assert s == init + [last];
    }
  }

  /** `all_card_strings()`: "2s", "2h", ..., "Ac", in `make_deck()` order. */
  function AllCardStrings(): (ss: seq<string>)
    ensures |ss| == 52
  {
    RankInverse();
    seq(52, i requires 0 <= i < 52 => [ValToRank[i / 4 + 2], SUITS[i % 4]])
  }

  /** Every string of `all_card_strings()` survives parse then format unchanged. */
  lemma ParseFormatRoundTrip(i: nat)
    requires i < 52
    ensures ParseCard(AllCardStrings()[i]) == Ok(FullDeck()[i])
    ensures CardStr(FullDeck()[i]) == Ok(AllCardStrings()[i])
  {
    FullDeckAt(i);
    FormatParseRoundTrip(FullDeck()[i]);
  }

  /** The positions 0..n-1 that are (`In`) or are not (`Out`) in `chosen`, ascending. */
  function IndicesIn(chosen: set<int>, n: nat): (r: seq<int>)
    ensures IsSelection(r, n)
  {
    if n == 0 then []
    else IndicesIn(chosen, n - 1) + (if n - 1 in chosen then [n - 1] else [])
  }

  function IndicesOut(chosen: set<int>, n: nat): (r: seq<int>)
    ensures IsSelection(r, n)
  {
    if n == 0 then []
    else IndicesOut(chosen, n - 1) + (if n - 1 !in chosen then [n - 1] else [])
  }

  lemma {:induction false} IndicesInMembers(chosen: set<int>, n: nat)
    ensures forall i :: i in IndicesIn(chosen, n) <==> 0 <= i < n && i in chosen
  {
    if n > 0 {
      IndicesInMembers(chosen, n - 1);
    }
  }

  /** `random.sample(range(size), n)`: n distinct positions of a list of length `size`. */
  predicate IsSample(sample: seq<int>, n: int, size: nat) {
    && |sample| == n
    && NoDups(sample)
    && forall j :: 0 <= j < |sample| ==> 0 <= sample[j] < size
  }

  /** `part` is `deck` with some positions left out, the rest in deck order. */
  ghost predicate InDeckOrder(part: seq<Card>, deck: seq<Card>) {
    exists idx :: IsSelection(idx, |deck|) && part == Pick(deck, idx)
  }

  /**
   * `deal(deck, n)`, with the positions that `random.sample` would choose
   * passed in as `sample`: the cards at those positions in deck order, and the
   * others in deck order.
   */
  function Deal(deck: seq<Card>, n: int, sample: seq<int>): (r: Result<(seq<Card>, seq<Card>)>)
    requires 0 <= n <= |deck| ==> IsSample(sample, n, |deck|)
    ensures r.Err? <==> n < 0 || n > |deck|
    ensures r.Err? ==> r.error == BadDealCount
    ensures r.Ok? ==> |r.value.0| == n && |r.value.1| == |deck| - n
    ensures r.Ok? ==> multiset(r.value.0) + multiset(r.value.1) == multiset(deck)
    ensures r.Ok? ==> multiset(r.value.0) == multiset(Pick(deck, sample))
    ensures r.Ok? ==> InDeckOrder(r.value.0, deck) && InDeckOrder(r.value.1, deck)
    ensures r.Ok? ==> r.value.0 == Pick(deck, IndicesIn(Elems(sample), |deck|))
    ensures r.Ok? ==> r.value.1 == Pick(deck, IndicesOut(Elems(sample), |deck|))
  {
    if n < 0 || n > |deck| then Err(BadDealCount)
    else
      var idxs := SortAsc(sample);
      SortedSample(sample, n, |deck|);
      DealPartition(deck, sample, idxs);
      Ok((Pick(deck, idxs), Pick(deck, IndicesOut(Elems(idxs), |deck|))))
  }

  /** The sorted sample is exactly the chosen positions in increasing order. */
  lemma SortedSample(sample: seq<int>, n: int, size: nat)
    requires IsSample(sample, n, size)
    ensures IsSelection(SortAsc(sample), size)
    ensures SortAsc(sample) == IndicesIn(Elems(sample), size)
    ensures Elems(SortAsc(sample)) == Elems(sample)
  {
    var idxs := SortAsc(sample);
    MultisetElems(sample, idxs);
    NoDupsMultiset(sample, idxs);
    forall j | 0 <= j < |idxs| ensures 0 <= idxs[j] < size {
      assert idxs[j] in multiset(sample);
    }
    var inn := IndicesIn(Elems(sample), size);
    IndicesInMembers(Elems(sample), size);
    assert NoDups(inn);
    assert Ascending(inn);
    SameElementsNoDups(idxs, inn);
    SortedUnique(idxs, inn);
  }

  lemma SameElementsNoDups(a: seq<int>, b: seq<int>)
    requires NoDups(a) && NoDups(b)
    requires forall x :: x in a <==> x in b
    ensures multiset(a) == multiset(b)
  {
    forall x ensures multiset(a)[x] == multiset(b)[x] {
      NoDupsCount(a, x);
      NoDupsCount(b, x);
      assert x in a <==> x in multiset(a);
      assert x in b <==> x in multiset(b);
    }
  }

  lemma PickConcat(s: seq<Card>, a: seq<int>, b: seq<int>)
    requires forall j :: 0 <= j < |a| ==> 0 <= a[j] < |s|
    requires forall j :: 0 <= j < |b| ==> 0 <= b[j] < |s|
    ensures Pick(s, a + b) == Pick(s, a) + Pick(s, b)
  {
  }

  /** Positions in and out of `chosen` split `deck[..n]`. */
  lemma {:induction false} SplitMultiset(deck: seq<Card>, chosen: set<int>, n: nat)
    requires n <= |deck|
    ensures multiset(Pick(deck, IndicesIn(chosen, n))) + multiset(Pick(deck, IndicesOut(chosen, n)))
         == multiset(deck[..n])
  {
    if n > 0 {
      SplitMultiset(deck, chosen, n - 1);
      SplitStep(deck, chosen, n);
    }
  }

  lemma SplitStep(deck: seq<Card>, chosen: set<int>, n: nat)
    requires 0 < n <= |deck|
    requires multiset(Pick(deck, IndicesIn(chosen, n - 1))) + multiset(Pick(deck, IndicesOut(chosen, n - 1)))
         == multiset(deck[..n - 1])
    ensures multiset(Pick(deck, IndicesIn(chosen, n))) + multiset(Pick(deck, IndicesOut(chosen, n)))
         == multiset(deck[..n])
  {
    assert deck[..n] == deck[..n - 1] + [deck[n - 1]];
    if n - 1 in chosen {
      SplitStepIn(deck, chosen, n);
    } else {
      SplitStepOut(deck, chosen, n);
    }
  }

  lemma SplitStepIn(deck: seq<Card>, chosen: set<int>, n: nat)
    requires 0 < n <= |deck| && n - 1 in chosen
    ensures multiset(Pick(deck, IndicesIn(chosen, n))) == multiset(Pick(deck, IndicesIn(chosen, n - 1))) + multiset{deck[n - 1]}
    ensures IndicesOut(chosen, n) == IndicesOut(chosen, n - 1)
  {
    PickConcat(deck, IndicesIn(chosen, n - 1), [n - 1]);
  }

  lemma SplitStepOut(deck: seq<Card>, chosen: set<int>, n: nat)
    requires 0 < n <= |deck| && n - 1 !in chosen
    ensures multiset(Pick(deck, IndicesOut(chosen, n))) == multiset(Pick(deck, IndicesOut(chosen, n - 1))) + multiset{deck[n - 1]}
    ensures IndicesIn(chosen, n) == IndicesIn(chosen, n - 1)
  {
    PickConcat(deck, IndicesOut(chosen, n - 1), [n - 1]);
  }

  lemma DealPartition(deck: seq<Card>, sample: seq<int>, idxs: seq<int>)
    requires IsSample(sample, |sample|, |deck|)
    requires idxs == SortAsc(sample)
    requires IsSelection(idxs, |deck|)
    requires idxs == IndicesIn(Elems(sample), |deck|) && Elems(idxs) == Elems(sample)
    ensures var drawn, remaining := Pick(deck, idxs), Pick(deck, IndicesOut(Elems(idxs), |deck|));
      && multiset(drawn) + multiset(remaining) == multiset(deck)
      && multiset(drawn) == multiset(Pick(deck, sample))
      && InDeckOrder(drawn, deck) && InDeckOrder(remaining, deck)
      && |drawn| == |sample| && |remaining| == |deck| - |sample|
  {
    var out := IndicesOut(Elems(idxs), |deck|);
    SplitMultiset(deck, Elems(sample), |deck|);
    assert deck[..|deck|] == deck;
    PickPermutation(deck, sample, idxs);
    assert IsSelection(out, |deck|) && Pick(deck, out) == Pick(deck, out);
    assert |multiset(Pick(deck, out))| == |deck| - |idxs| by {
      assert |multiset(deck)| == |deck|;
      assert |multiset(Pick(deck, idxs))| == |idxs|;
    }
  }

  /** Picking the same positions in another order gives the same multiset. */
  lemma {:induction false} PickPermutation(deck: seq<Card>, a: seq<int>, b: seq<int>)
    requires forall j :: 0 <= j < |a| ==> 0 <= a[j] < |deck|
    requires multiset(a) == multiset(b)
    ensures forall j :: 0 <= j < |b| ==> 0 <= b[j] < |deck|
    ensures multiset(Pick(deck, a)) == multiset(Pick(deck, b))
    decreases |a|
  {
    MultisetBounds(a, b, |deck|);
    if a != [] {
      var x := a[0];
      assert x in multiset(b);
      var k := IndexOf(b, x);
      var b' := b[..k] + b[k + 1..];
      RemoveAtMultiset(b, k);
      assert multiset(a[1..]) == multiset(b') by {
        assert a == [x] + a[1..];
      }
      PickPermutation(deck, a[1..], b');
      PickHead(deck, a);
      PickRemoveAt(deck, b, k);
    }
  }

  lemma MultisetBounds(a: seq<int>, b: seq<int>, n: int)
    requires forall j :: 0 <= j < |a| ==> 0 <= a[j] < n
    requires multiset(a) == multiset(b)
    ensures forall j :: 0 <= j < |b| ==> 0 <= b[j] < n
  {
    forall j | 0 <= j < |b| ensures 0 <= b[j] < n {
      assert b[j] in multiset(a);
    }
  }

  lemma PickHead(deck: seq<Card>, a: seq<int>)
    requires forall j :: 0 <= j < |a| ==> 0 <= a[j] < |deck|
    requires a != []
    ensures multiset(Pick(deck, a)) == multiset{deck[a[0]]} + multiset(Pick(deck, a[1..]))
  {
    assert Pick(deck, a) == [deck[a[0]]] + Pick(deck, a[1..]);
  }

  lemma IndexOf<T>(b: seq<T>, x: T) returns (k: nat)
    requires x in multiset(b)
    ensures k < |b| && b[k] == x
  {
    k :| 0 <= k < |b| && b[k] == x;
  }

  lemma RemoveAtMultiset<T>(b: seq<T>, k: nat)
    requires k < |b|
    ensures multiset(b[..k] + b[k + 1..]) == multiset(b) - multiset{b[k]}
  {
    assert b == b[..k] + [b[k]] + b[k + 1..];
  }

  lemma PickRemoveAt(deck: seq<Card>, b: seq<int>, k: nat)
    requires forall j :: 0 <= j < |b| ==> 0 <= b[j] < |deck|
    requires k < |b|
    ensures multiset(Pick(deck, b)) == multiset{deck[b[k]]} + multiset(Pick(deck, b[..k] + b[k + 1..]))
  {
    var l, m, r := b[..k], [b[k]], b[k + 1..];
    assert b == (l + m) + r;
    PickConcat(deck, l + m, r);
    PickConcat(deck, l, m);
    PickConcat(deck, l, r);
    var pl, pm, pr := Pick(deck, l), Pick(deck, m), Pick(deck, r);
    assert pm == [deck[b[k]]];
    assert multiset(pl + pm + pr) == multiset(pl) + multiset(pm) + multiset(pr);
    assert multiset(pl + pr) == multiset(pl) + multiset(pr);
  }
}
