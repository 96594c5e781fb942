/**
 * Hand-range helpers (ranges.py): the two-card combos of a pocket pair or of
 * two distinct values, and the expansion of one range token such as "AQs",
 * "TT+" or "A9s+" into hand classes.
 */
module Ranges {
  import opened Results
  import opened Seqs
  import opened Itertools
  import opened Cards

  /** Two cards dealt together, the first of the higher value. */
  type Combo = (Card, Card)

  // ---------------------------------------------------------------------------
  // Pocket pairs

  /** The six combos of a pocket pair of value `v`: every two suits of "shdc", in that order. */
  function PairCombos(v: int): seq<Combo> {
    [(Card(v, 's'), Card(v, 'h')), (Card(v, 's'), Card(v, 'd')), (Card(v, 's'), Card(v, 'c')),
     (Card(v, 'h'), Card(v, 'd')), (Card(v, 'h'), Card(v, 'c')),
     (Card(v, 'd'), Card(v, 'c'))]
  }

  /** Where the combos whose first suit is `SUITS[i]` start in PairCombos. */
  function RowStart(i: nat): (k: nat)
    requires i <= 4
    ensures k <= 6
  {
    i * (7 - i) / 2
  }

  lemma PairCombosAt(v: int, i: nat, j: nat)
    requires i < j < 4
    ensures RowStart(i) + (j - i - 1) < 6
    ensures PairCombos(v)[RowStart(i) + (j - i - 1)] == (Card(v, SUITS[i]), Card(v, SUITS[j]))
  {
  }

  /** `_all_pair_combos`: for each suit, pair it with every later suit. */
  method AllPairCombos(v: int) returns (out: seq<Combo>)
    ensures out == PairCombos(v)
  {
    out := [];
    var suits := SUITS;
    for i := 0 to |suits|
      invariant out == PairCombos(v)[..RowStart(i)]
    {
      for j := i + 1 to |suits|
        invariant out == PairCombos(v)[..RowStart(i) + (j - i - 1)]
      {
        PairCombosAt(v, i, j);
        out := out + [(Card(v, suits[i]), Card(v, suits[j]))];
      }
    }
  }

  /**
   * A pocket pair has six combos, all different; a combo is one of them exactly
   * when both cards have value `v` and their suits are two of "shdc", the
   * first earlier in that order than the second. For a card value they are
   * two different valid cards.
   */
  lemma PairCombosProperties(v: int)
    ensures |PairCombos(v)| == 6
    ensures NoDups(PairCombos(v))
    ensures forall c: Combo :: c in PairCombos(v) <==>
      c.0.value == v && c.1.value == v && c.0.suit in SUITS && c.1.suit in SUITS &&
      SuitIndex(c.0.suit) < SuitIndex(c.1.suit)
    ensures 2 <= v <= 14 ==> forall c :: c in PairCombos(v) ==> ValidCard(c.0) && ValidCard(c.1) && c.0 != c.1
  {
    RankInverse();
  }

  // ---------------------------------------------------------------------------
  // Two distinct values

  /** The four suited combos: both cards of one suit. */
  function SuitedCombos(vhi: int, vlo: int): seq<Combo> {
    [(Card(vhi, 's'), Card(vlo, 's')), (Card(vhi, 'h'), Card(vlo, 'h')),
     (Card(vhi, 'd'), Card(vlo, 'd')), (Card(vhi, 'c'), Card(vlo, 'c'))]
  }

  /** The twelve offsuit combos: the high card's suit, then each other suit for the low card. */
  function OffsuitCombos(vhi: int, vlo: int): seq<Combo> {
    [(Card(vhi, 's'), Card(vlo, 'h')), (Card(vhi, 's'), Card(vlo, 'd')), (Card(vhi, 's'), Card(vlo, 'c')),
     (Card(vhi, 'h'), Card(vlo, 's')), (Card(vhi, 'h'), Card(vlo, 'd')), (Card(vhi, 'h'), Card(vlo, 'c')),
     (Card(vhi, 'd'), Card(vlo, 's')), (Card(vhi, 'd'), Card(vlo, 'h')), (Card(vhi, 'd'), Card(vlo, 'c')),
     (Card(vhi, 'c'), Card(vlo, 's')), (Card(vhi, 'c'), Card(vlo, 'h')), (Card(vhi, 'c'), Card(vlo, 'd'))]
  }

  /** The combos the comment of `_all_nonpair_combos` promises: suited, offsuit, or both. */
  function NonpairCombos(vhi: int, vlo: int, suited: Option<bool>): seq<Combo> {
    match suited
    case Some(true) => SuitedCombos(vhi, vlo)
    case Some(false) => OffsuitCombos(vhi, vlo)
    case None => SuitedCombos(vhi, vlo) + OffsuitCombos(vhi, vlo)
  }

  lemma SuitedCombosAt(vhi: int, vlo: int, i: nat)
    requires i < 4
    ensures SuitedCombos(vhi, vlo)[i] == (Card(vhi, SUITS[i]), Card(vlo, SUITS[i]))
  {
  }

  /** The number of offsuit combos before the one with suits `SUITS[i]`, `SUITS[j]`. */
  function OffsuitIndex(i: nat, j: nat): (k: nat)
    requires i < 4 && j <= 4
    ensures k <= 12
  {
    3 * i + (if j <= i then j else j - 1)
  }

  lemma OffsuitCombosAt(vhi: int, vlo: int, i: nat, j: nat)
    requires i < 4 && j < 4 && i != j
    ensures OffsuitIndex(i, j) < 12
    ensures OffsuitCombos(vhi, vlo)[OffsuitIndex(i, j)] == (Card(vhi, SUITS[i]), Card(vlo, SUITS[j]))
  {
  }

  /** The suited loop of `_all_nonpair_combos`: one combo per suit. */
  method SuitedLoop(vhi: int, vlo: int) returns (out: seq<Combo>)
    ensures out == SuitedCombos(vhi, vlo)
  {
    out := [];
    for i := 0 to |SUITS|
      invariant out == SuitedCombos(vhi, vlo)[..i]
    {
      SuitedCombosAt(vhi, vlo, i);
      var s := SUITS[i];
      out := out + [(Card(vhi, s), Card(vlo, s))];
    }
  }

  /** The offsuit loop of `_all_nonpair_combos`: every two different suits, skipping equal ones. */
  method OffsuitLoop(vhi: int, vlo: int) returns (out: seq<Combo>)
    ensures out == OffsuitCombos(vhi, vlo)
  {
    out := [];
    for i := 0 to |SUITS|
      invariant out == OffsuitCombos(vhi, vlo)[..3 * i]
    {
      var s1 := SUITS[i];
      for j := 0 to |SUITS|
        invariant out == OffsuitCombos(vhi, vlo)[..OffsuitIndex(i, j)]
      {
        var s2 := SUITS[j];
        if s1 == s2 {
          continue;
        }
        OffsuitCombosAt(vhi, vlo, i, j);
        out := out + [(Card(vhi, s1), Card(vlo, s2))];
      }
    }
  }

  /**
   * `_all_nonpair_combos` as the source writes it: the suited loop sits after
   * the `return` of the `suited_flag is None` branch, so it is never reached,
   * and a `True` flag falls through to the offsuit loop.
   */
  method AllNonpairCombosAsWritten(vhi: int, vlo: int, suited: Option<bool>) returns (out: seq<Combo>)
    ensures out == if suited.None? then OffsuitCombos(vhi, vlo) + OffsuitCombos(vhi, vlo) else OffsuitCombos(vhi, vlo)
    decreases if suited.None? then 1 else 0
  {
    out := [];
    if suited.None? {
      var s := AllNonpairCombosAsWritten(vhi, vlo, Some(true));
      out := out + s;
      var o := AllNonpairCombosAsWritten(vhi, vlo, Some(false));
      out := out + o;
      return;
    }
    out := OffsuitLoop(vhi, vlo);
  }

  /** `_all_nonpair_combos` with the suited loop reached when the flag is `True`. */
  method AllNonpairCombos(vhi: int, vlo: int, suited: Option<bool>) returns (out: seq<Combo>)
    ensures out == NonpairCombos(vhi, vlo, suited)
    decreases if suited.None? then 1 else 0
  {
    out := [];
    if suited.None? {
      var s := AllNonpairCombos(vhi, vlo, Some(true));
      out := out + s;
      var o := AllNonpairCombos(vhi, vlo, Some(false));
      out := out + o;
      return;
    }
    if suited.value {
      out := SuitedLoop(vhi, vlo);
      return;
    }
    out := OffsuitLoop(vhi, vlo);
  }

  /** Four suited combos, all different, exactly the combos of `vhi`, `vlo` with one suit twice. */
  lemma SuitedCombosProperties(vhi: int, vlo: int)
    ensures |SuitedCombos(vhi, vlo)| == 4
    ensures NoDups(SuitedCombos(vhi, vlo))
    ensures forall c: Combo :: c in SuitedCombos(vhi, vlo) <==>
      c.0.value == vhi && c.1.value == vlo && c.0.suit in SUITS && c.0.suit == c.1.suit
  {
  }

  /** Twelve offsuit combos, exactly the combos of `vhi`, `vlo` with two different suits. */
  lemma OffsuitCombosMembers(vhi: int, vlo: int)
    ensures |OffsuitCombos(vhi, vlo)| == 12
    ensures forall c: Combo :: c in OffsuitCombos(vhi, vlo) <==>
      c.0.value == vhi && c.1.value == vlo && c.0.suit in SUITS && c.1.suit in SUITS && c.0.suit != c.1.suit
  {
  }

  /** No offsuit combo is listed twice. */
  lemma OffsuitCombosDistinct(vhi: int, vlo: int)
    ensures NoDups(OffsuitCombos(vhi, vlo))
  {
    var o := OffsuitCombos(vhi, vlo);
    forall i, j | 0 <= i < j < 12 ensures o[i] != o[j] {
      assert o[i].0.suit != o[j].0.suit || o[i].1.suit != o[j].1.suit;
    }
  }

  /**
   * Four suited, twelve offsuit, sixteen for both, never a combo twice; a
   * combo belongs exactly when its values are `vhi`, `vlo`, its suits are
   * from "shdc", and they agree (suited) or differ (offsuit) as the flag asks.
   */
  lemma NonpairCombosProperties(vhi: int, vlo: int, suited: Option<bool>)
    ensures |NonpairCombos(vhi, vlo, suited)| == if suited == Some(true) then 4 else if suited == Some(false) then 12 else 16
    ensures NoDups(NonpairCombos(vhi, vlo, suited))
    ensures forall c: Combo :: c in NonpairCombos(vhi, vlo, suited) <==>
      c.0.value == vhi && c.1.value == vlo && c.0.suit in SUITS && c.1.suit in SUITS &&
      (suited == Some(true) ==> c.0.suit == c.1.suit) &&
      (suited == Some(false) ==> c.0.suit != c.1.suit)
  {
    SuitedCombosProperties(vhi, vlo);
    OffsuitCombosMembers(vhi, vlo);
    OffsuitCombosDistinct(vhi, vlo);
    if suited.None? {
      NoDupsConcat(SuitedCombos(vhi, vlo), OffsuitCombos(vhi, vlo));
    }
  }

  /**
   * What the unreachable suited loop costs: with `True` the source returns the
   * twelve offsuit combos, not one of them suited, instead of the four suited
   * ones; with `None` it returns 24 entries, each offsuit combo twice and no
   * suited combo, instead of sixteen.
   */
  lemma NonpairAsWrittenDiffers(vhi: int, vlo: int)
    ensures |OffsuitCombos(vhi, vlo)| == 12 != |NonpairCombos(vhi, vlo, Some(true))|
    ensures forall c :: c in OffsuitCombos(vhi, vlo) ==> c !in NonpairCombos(vhi, vlo, Some(true))
    ensures |OffsuitCombos(vhi, vlo) + OffsuitCombos(vhi, vlo)| == 24 != |NonpairCombos(vhi, vlo, None)|
    ensures !NoDups(OffsuitCombos(vhi, vlo) + OffsuitCombos(vhi, vlo))
  {
    var off := OffsuitCombos(vhi, vlo);
    assert (off + off)[0] == (off + off)[12];
  }

  // ---------------------------------------------------------------------------
  // Range tokens

  /** `str.isspace()` on one character: the characters Python's `strip()` removes. */
  predicate IsSpace(ch: char) {
    '\t' <= ch <= '\r' || '\U{1c}' <= ch <= ' ' || ch == '\U{85}' || ch == '\U{a0}' ||
    ch == '\U{1680}' || '\U{2000}' <= ch <= '\U{200a}' || ch == '\U{2028}' || ch == '\U{2029}' ||
    ch == '\U{202f}' || ch == '\U{205f}' || ch == '\U{3000}'
  }

  /** The number of whitespace characters `str.lstrip()` removes. */
  function LeadingSpaces(s: string): (n: nat)
    ensures n <= |s|
  {
    if |s| > 0 && IsSpace(s[0]) then 1 + LeadingSpaces(s[1..]) else 0
  }

  /** The number of whitespace characters `str.rstrip()` removes. */
  function TrailingSpaces(s: string): (n: nat)
    ensures n <= |s|
  {
    if |s| > 0 && IsSpace(s[|s| - 1]) then 1 + TrailingSpaces(s[..|s| - 1]) else 0
  }

  /** `str.lstrip()` */
  function StripLeft(s: string): string {
    s[LeadingSpaces(s)..]
  }

  /** `str.rstrip()` */
  function StripRight(s: string): string {
    s[..|s| - TrailingSpaces(s)]
  }

  /** `str.strip()` */
  function Strip(s: string): string {
    StripRight(StripLeft(s))
  }

  /** What a range token names: a pocket pair, or two values with an optional suitedness. */
  datatype Kind = Pair | Nonpair

  /** `(kind, vhi, vlo, suited_flag)`; a pair has `vlo` 0 and no flag. */
  datatype HandClass = HandClass(kind: Kind, hi: int, lo: int, suited: Option<bool>)

  /** The shape of every class `_expand_token` produces. */
  predicate WellOrdered(e: HandClass) {
    match e.kind
    case Pair => 2 <= e.hi <= 14 && e.lo == 0 && e.suited.None?
    case Nonpair => 2 <= e.lo < e.hi <= 14
  }

  /** `[("pair", v, 0, None) for v in range(from, 15)]` */
  function PairsFrom(from: int): (r: seq<HandClass>)
    requires 2 <= from <= 14
    ensures |r| == 15 - from
    ensures forall k :: 0 <= k < |r| ==> r[k] == HandClass(Pair, from + k, 0, None)
  {
    seq(15 - from, k requires 0 <= k < 15 - from => HandClass(Pair, from + k, 0, None))
  }

  /** `[("nonpair", hi, lo, suited) for lo in range(from, hi)]` */
  function NonpairsFrom(hi: int, from: int, suited: Option<bool>): (r: seq<HandClass>)
    requires from < hi
    ensures |r| == hi - from
    ensures forall k :: 0 <= k < |r| ==> r[k] == HandClass(Nonpair, hi, from + k, suited)
  {
    seq(hi - from, k requires 0 <= k < hi - from => HandClass(Nonpair, hi, from + k, suited))
  }

  /** A character `_expand_token` reads as a rank once upper-cased. */
  predicate IsRankSymbol(ch: char) {
    Upper(ch) in RankToVal
  }

  /** The value a rank symbol stands for, `RANK_TO_VAL[ch.upper()]`. */
  function SymbolValue(ch: char): (v: int)
    requires IsRankSymbol(ch)
    ensures 2 <= v <= 14
  {
    RankEnumeration();
    RankInverse();
    RankToVal[Upper(ch)]
  }

  /** The suitedness a token's last character asks for: 's' suited, 'o' offsuit, otherwise either. */
  function SuitFlag(t: string): Option<bool> {
    if |t| > 0 && t[|t| - 1] == 's' then Some(true)
    else if |t| > 0 && t[|t| - 1] == 'o' then Some(false)
    else None
  }

  /** A token freed of its trailing '+' and then of its trailing 's' or 'o'. */
  datatype Split = Split(core: string, suited: Option<bool>, plus: bool)

  /** The suffix handling of `_expand_token`: '+' first, then 's' or 'o'. */
  function SplitToken(t: string): (sp: Split)
    ensures |sp.core| <= |t|
  {
    var plus := |t| > 0 && t[|t| - 1] == '+';
    var t1 := if plus then t[..|t| - 1] else t;
    var suited := SuitFlag(t1);
    Split(if suited.Some? then t1[..|t1| - 1] else t1, suited, plus)
  }

  /**
   * The classes of two values: the higher one first; '+' extends a pair up to
   * aces and a non-pair's low value up to one below the high value.
   */
  function Classes(a: int, b: int, suited: Option<bool>, plus: bool): (r: seq<HandClass>)
    requires 2 <= a <= 14 && 2 <= b <= 14
    ensures |r| > 0
    ensures forall e :: e in r ==> WellOrdered(e)
  {
    var v1, v2 := if b > a then b else a, if b > a then a else b;
    if v1 == v2 then
      if plus then PairsFrom(v1) else [HandClass(Pair, v1, 0, None)]
    else if plus then NonpairsFrom(v1, v2, suited)
    else [HandClass(Nonpair, v1, v2, suited)]
  }

  /**
   * `_expand_token`: strip, drop a trailing '+', then a trailing 's' or 'o';
   * what is left must be two rank symbols (either case). Anything malformed
   * gives no classes.
   */
  function ExpandToken(token: string): (r: seq<HandClass>)
    ensures forall e :: e in r ==> WellOrdered(e)
    ensures |Strip(token)| < 2 ==> r == []
  {
    var t := Strip(token);
    if |t| < 2 then []
    else
      var sp := SplitToken(t);
      if |sp.core| != 2 then []
      else if !IsRankSymbol(sp.core[0]) || !IsRankSymbol(sp.core[1]) then []
      else Classes(SymbolValue(sp.core[0]), SymbolValue(sp.core[1]), sp.suited, sp.plus)
  }

  /** The leading whitespace is all whitespace, and what follows it is not. */
  lemma {:induction false} LeadingSpacesMeaning(s: string)
    ensures forall i :: 0 <= i < LeadingSpaces(s) ==> IsSpace(s[i])
    ensures LeadingSpaces(s) < |s| ==> !IsSpace(s[LeadingSpaces(s)])
  {
    if |s| > 0 && IsSpace(s[0]) {
      LeadingSpacesMeaning(s[1..]);
    }
  }

  /** The trailing whitespace is all whitespace, and what precedes it is not. */
  lemma {:induction false} TrailingSpacesMeaning(s: string)
    ensures forall i :: |s| - TrailingSpaces(s) <= i < |s| ==> IsSpace(s[i])
    ensures TrailingSpaces(s) < |s| ==> !IsSpace(s[|s| - TrailingSpaces(s) - 1])
  {
    if |s| > 0 && IsSpace(s[|s| - 1]) {
      TrailingSpacesMeaning(s[..|s| - 1]);
    }
  }

  /**
   * `strip()` leaves a slice of the text with whitespace only outside it, and
   * neither starting nor ending with whitespace.
   */
  lemma StripMeaning(s: string) returns (i: nat, j: nat)
    ensures i <= j <= |s| && Strip(s) == s[i..j]
    ensures forall k :: 0 <= k < i || j <= k < |s| ==> IsSpace(s[k])
    ensures Strip(s) == [] || (!IsSpace(Strip(s)[0]) && !IsSpace(Strip(s)[|Strip(s)| - 1]))
  {
    LeadingSpacesMeaning(s);
    var l := s[LeadingSpaces(s)..];
    TrailingSpacesMeaning(l);
    i := LeadingSpaces(s);
    j := i + |l| - TrailingSpaces(l);
    assert Strip(s) == s[i..j];
    forall k | j <= k < |s| ensures IsSpace(s[k]) {
      assert s[k] == l[k - i];
    }
  }

  /** Text `strip()` leaves unchanged: empty, or not starting or ending with whitespace. */
  lemma StripTrimmed(s: string)
    requires s == [] || (!IsSpace(s[0]) && !IsSpace(s[|s| - 1]))
    ensures Strip(s) == s
  {
    assert StripLeft(s) == s;
  }

  lemma {:induction false} LeadingSpacesPrefix(p: string, s: string)
    requires forall i :: 0 <= i < |p| ==> IsSpace(p[i])
    ensures LeadingSpaces(p + s) == |p| + LeadingSpaces(s)
    decreases |p|
  {
    if p != [] {
      assert (p + s)[0] == p[0];
      assert (p + s)[1..] == p[1..] + s;
      LeadingSpacesPrefix(p[1..], s);
    } else {
      assert p + s == s;
    }
  }

  lemma {:induction false} TrailingSpacesSuffix(s: string, q: string)
    requires forall i :: 0 <= i < |q| ==> IsSpace(q[i])
    ensures TrailingSpaces(s + q) == TrailingSpaces(s) + |q|
    decreases |q|
  {
    if q != [] {
      var n := |q| - 1;
      assert (s + q)[|s + q| - 1] == q[n];
      assert (s + q)[..|s + q| - 1] == s + q[..n];
      TrailingSpacesSuffix(s, q[..n]);
    } else {
      assert s + q == s;
    }
  }

  /** Trailing whitespace counts as leading whitespace only when the text before it is all whitespace. */
  lemma {:induction false} LeadingSpacesAppend(s: string, q: string)
    requires forall i :: 0 <= i < |q| ==> IsSpace(q[i])
    ensures LeadingSpaces(s + q) == if LeadingSpaces(s) == |s| then |s| + |q| else LeadingSpaces(s)
    decreases |s|
  {
    if s == [] {
      assert s + q == q;
      assert q + [] == q;
      LeadingSpacesPrefix(q, []);
    } else {
      assert (s + q)[0] == s[0];
      if IsSpace(s[0]) {
        assert (s + q)[1..] == s[1..] + q;
        LeadingSpacesAppend(s[1..], q);
      }
    }
  }

  lemma StripRightPadding(l: string, q: string)
    requires forall i :: 0 <= i < |q| ==> IsSpace(q[i])
    ensures StripRight(l + q) == StripRight(l)
  {
    TrailingSpacesSuffix(l, q);
    assert (l + q)[..|l| - TrailingSpaces(l)] == l[..|l| - TrailingSpaces(l)];
  }

  /** Whitespace around a token does not change what `strip()` leaves. */
  lemma StripPadding(p: string, s: string, q: string)
    requires forall i :: 0 <= i < |p| ==> IsSpace(p[i])
    requires forall i :: 0 <= i < |q| ==> IsSpace(q[i])
    ensures Strip(p + s + q) == Strip(s)
  {
    var t := p + s + q;
    assert t == p + (s + q);
    LeadingSpacesPrefix(p, s + q);
    LeadingSpacesAppend(s, q);
    var l := StripLeft(s);
    if LeadingSpaces(s) == |s| {
      assert StripLeft(t) == [];
      assert l == [];
    } else {
      assert StripLeft(t) == l + q;
      StripRightPadding(l, q);
    }
  }

  /**
   * The token grammar: two rank symbols, then optionally 's' or 'o', then
   * optionally '+'.
   */
  predicate WellFormedToken(t: string) {
    2 <= |t| <= 4 && IsRankSymbol(t[0]) && IsRankSymbol(t[1]) &&
    (|t| >= 3 ==> t[2] in "so+") &&
    (|t| == 4 ==> t[2] != '+' && t[3] == '+')
  }

  /** A token expands to some class exactly when its stripped text follows the grammar. */
  lemma ExpandTokenNonEmpty(token: string)
    ensures ExpandToken(token) != [] <==> WellFormedToken(Strip(token))
  {
    var t := Strip(token);
    if |t| >= 2 {
      SplitTokenGrammar(t);
    }
  }

  lemma NotRankSymbols()
    ensures !IsRankSymbol('+') && !IsRankSymbol('s') && !IsRankSymbol('o')
  {
  }

  /** The suffix handling leaves two rank symbols exactly for the texts of the grammar. */
  lemma SplitTokenGrammar(t: string)
    requires |t| >= 2
    ensures (|SplitToken(t).core| == 2 && IsRankSymbol(SplitToken(t).core[0]) && IsRankSymbol(SplitToken(t).core[1]))
      <==> WellFormedToken(t)
  {
    NotRankSymbols();
    var sp := SplitToken(t);
    if |sp.core| == 2 {
      assert sp.core == t[..2];
    }
    if WellFormedToken(t) {
      if |t| == 2 {
        assert sp.core == t;
      } else if |t| == 3 {
        assert t[2] == '+' || t[2] == 's' || t[2] == 'o';
        assert sp.core == t[..2];
      } else {
        assert t[..3][..2] == t[..2];
        assert sp.core == t[..2];
      }
    }
  }

  /** The suffixes the grammar allows after the two rank symbols, without '+'. */
  predicate FlagSuffix(f: string) {
    f == "" || f == "s" || f == "o"
  }

  /** A token without surrounding whitespace: its two rank symbols, its flag suffix, its '+'. */
  lemma ExpandBySplit(a: char, b: char, f: string, plus: string)
    requires IsRankSymbol(a) && IsRankSymbol(b) && FlagSuffix(f) && (plus == "" || plus == "+")
    ensures ExpandToken([a, b] + f + plus) == Classes(SymbolValue(a), SymbolValue(b), SuitFlag(f), plus == "+")
  {
    var t := [a, b] + f + plus;
    TokenTrimmed(a, b, f, plus);
    TokenSplit(a, b, f, plus);
    assert SplitToken(t).core == [a, b];
  }

  lemma RankSymbolNotSpace(a: char)
    requires IsRankSymbol(a)
    ensures !IsSpace(a) && a != '+' && a != 's' && a != 'o'
  {
  }

  lemma TokenTrimmed(a: char, b: char, f: string, plus: string)
    requires IsRankSymbol(a) && IsRankSymbol(b) && FlagSuffix(f) && (plus == "" || plus == "+")
    ensures Strip([a, b] + f + plus) == [a, b] + f + plus
  {
    RankSymbolNotSpace(a);
    RankSymbolNotSpace(b);
    var t := [a, b] + f + plus;
    assert t[0] == a;
    assert t[|t| - 1] in {b, 's', 'o', '+'};
    StripTrimmed(t);
  }

  lemma TokenSplit(a: char, b: char, f: string, plus: string)
    requires IsRankSymbol(a) && IsRankSymbol(b) && FlagSuffix(f) && (plus == "" || plus == "+")
    ensures SplitToken([a, b] + f + plus) == Split([a, b], SuitFlag(f), plus == "+")
  {
    RankSymbolNotSpace(b);
    var t := [a, b] + f + plus;
    var t1 := [a, b] + f;
    if plus == "+" {
      assert t[..|t| - 1] == t1;
    } else {
      assert t == t1;
    }
    if f == "" {
      assert t1 == [a, b];
    } else {
      assert t1[..|t1| - 1] == [a, b];
    }
  }

  /**
   * Without '+', a token names one class: the higher value first, the lower
   * value second (0 for a pair), and for a non-pair the flag its suffix asks for.
   */
  lemma ExpandSingle(a: char, b: char, f: string)
    requires IsRankSymbol(a) && IsRankSymbol(b) && FlagSuffix(f)
    ensures var va, vb := SymbolValue(a), SymbolValue(b);
      var hi, lo := if va >= vb then va else vb, if va >= vb then vb else va;
      ExpandToken([a, b] + f) ==
        if hi == lo then [HandClass(Pair, hi, 0, None)]
        else [HandClass(Nonpair, hi, lo, SuitFlag(f))]
  {
    ExpandBySplit(a, b, f, "");
    assert [a, b] + f + "" == [a, b] + f;
  }

  /**
   * '+' extends the one class the token names without it: a pair up to aces,
   * a non-pair's low value up to one below the high value.
   */
  lemma ExpandPlus(a: char, b: char, f: string)
    requires IsRankSymbol(a) && IsRankSymbol(b) && FlagSuffix(f)
    ensures var e := ExpandToken([a, b] + f);
      |e| == 1 &&
      ExpandToken([a, b] + f + "+") ==
        if e[0].kind == Pair then PairsFrom(e[0].hi) else NonpairsFrom(e[0].hi, e[0].lo, e[0].suited)
  {
    ExpandSingle(a, b, f);
    ExpandBySplit(a, b, f, "+");
  }

  /** The order of the two rank symbols does not matter. */
  lemma ExpandSwap(a: char, b: char, f: string, plus: string)
    requires IsRankSymbol(a) && IsRankSymbol(b) && FlagSuffix(f) && (plus == "" || plus == "+")
    ensures ExpandToken([a, b] + f + plus) == ExpandToken([b, a] + f + plus)
  {
    ExpandBySplit(a, b, f, plus);
    ExpandBySplit(b, a, f, plus);
  }

  lemma UpperSymbol(a: char)
    requires IsRankSymbol(a)
    ensures IsRankSymbol(Upper(a)) && SymbolValue(Upper(a)) == SymbolValue(a)
  {
  }

  /** Rank symbols are read in either case. */
  lemma ExpandCase(a: char, b: char, f: string, plus: string)
    requires IsRankSymbol(a) && IsRankSymbol(b) && FlagSuffix(f) && (plus == "" || plus == "+")
    ensures ExpandToken([a, b] + f + plus) == ExpandToken([Upper(a), Upper(b)] + f + plus)
  {
    UpperSymbol(a);
    UpperSymbol(b);
    ExpandBySplit(a, b, f, plus);
    ExpandBySplit(Upper(a), Upper(b), f, plus);
  }

  /** Whitespace around a token is ignored. */
  lemma ExpandPadding(p: string, token: string, q: string)
    requires forall i :: 0 <= i < |p| ==> IsSpace(p[i])
    requires forall i :: 0 <= i < |q| ==> IsSpace(q[i])
    ensures ExpandToken(p + token + q) == ExpandToken(token)
  {
    StripPadding(p, token, q);
  }

  /**
   * The tokens of test_ranges.py that name classes: "22+" is the 13 pairs,
   * "A9s+" the 5 suited aces from nine up, "KTs+" the 3 suited kings from ten up.
   */
  lemma ExpandExamples()
    ensures ExpandToken("22") == [HandClass(Pair, 2, 0, None)]
    ensures ExpandToken("22+") == PairsFrom(2)
    ensures ExpandToken("TT+") == PairsFrom(10)
    ensures ExpandToken("AQ") == [HandClass(Nonpair, 14, 12, None)]
    ensures ExpandToken("AQs") == [HandClass(Nonpair, 14, 12, Some(true))]
    ensures ExpandToken("AQo") == [HandClass(Nonpair, 14, 12, Some(false))]
    ensures ExpandToken("AQ+") == NonpairsFrom(14, 12, None)
    ensures ExpandToken("A9s+") == NonpairsFrom(14, 9, Some(true))
    ensures ExpandToken("KTs+") == NonpairsFrom(13, 10, Some(true))
    ensures |PairsFrom(2)| == 13 && |NonpairsFrom(14, 9, Some(true))| == 5 && |NonpairsFrom(13, 10, Some(true))| == 3
  {
    ExamplePair22();
    ExamplePairs22Plus();
    ExamplePairsTTPlus();
    ExampleAceQueen();
    ExampleAceQueenSuited();
    ExampleAceQueenOffsuit();
    ExampleAceQueenPlus();
    ExampleAceNineSuitedPlus();
    ExampleKingTenSuitedPlus();
  }

  lemma ExamplePair22()
    ensures ExpandToken("22") == [HandClass(Pair, 2, 0, None)]
  {
    var two, nine, ten, queen, king, ace := '2', '9', 'T', 'Q', 'K', 'A';
    SymbolValues(two, nine, ten, queen, king, ace);
    ExpandBySplit(two, two, "", "");
    assert "22" == [two, two] + "" + "";
  }

  lemma ExamplePairs22Plus()
    ensures ExpandToken("22+") == PairsFrom(2)
  {
    var two, nine, ten, queen, king, ace := '2', '9', 'T', 'Q', 'K', 'A';
    SymbolValues(two, nine, ten, queen, king, ace);
    ExpandBySplit(two, two, "", "+");
    assert "22+" == [two, two] + "" + "+";
  }

  lemma ExamplePairsTTPlus()
    ensures ExpandToken("TT+") == PairsFrom(10)
  {
    var two, nine, ten, queen, king, ace := '2', '9', 'T', 'Q', 'K', 'A';
    SymbolValues(two, nine, ten, queen, king, ace);
    ExpandBySplit(ten, ten, "", "+");
    assert "TT+" == [ten, ten] + "" + "+";
  }

  lemma ExampleAceQueen()
    ensures ExpandToken("AQ") == [HandClass(Nonpair, 14, 12, None)]
  {
    var two, nine, ten, queen, king, ace := '2', '9', 'T', 'Q', 'K', 'A';
    SymbolValues(two, nine, ten, queen, king, ace);
    ExpandBySplit(ace, queen, "", "");
    assert "AQ" == [ace, queen] + "" + "";
  }

  lemma ExampleAceQueenSuited()
    ensures ExpandToken("AQs") == [HandClass(Nonpair, 14, 12, Some(true))]
  {
    var two, nine, ten, queen, king, ace := '2', '9', 'T', 'Q', 'K', 'A';
    SymbolValues(two, nine, ten, queen, king, ace);
    ExpandBySplit(ace, queen, "s", "");
    assert "AQs" == [ace, queen] + "s" + "";
  }

  lemma ExampleAceQueenOffsuit()
    ensures ExpandToken("AQo") == [HandClass(Nonpair, 14, 12, Some(false))]
  {
    var two, nine, ten, queen, king, ace := '2', '9', 'T', 'Q', 'K', 'A';
    SymbolValues(two, nine, ten, queen, king, ace);
    ExpandBySplit(ace, queen, "o", "");
    assert "AQo" == [ace, queen] + "o" + "";
  }

  lemma ExampleAceQueenPlus()
    ensures ExpandToken("AQ+") == NonpairsFrom(14, 12, None)
  {
    var two, nine, ten, queen, king, ace := '2', '9', 'T', 'Q', 'K', 'A';
    SymbolValues(two, nine, ten, queen, king, ace);
    ExpandBySplit(ace, queen, "", "+");
    assert "AQ+" == [ace, queen] + "" + "+";
  }

  lemma ExampleAceNineSuitedPlus()
    ensures ExpandToken("A9s+") == NonpairsFrom(14, 9, Some(true))
  {
    var two, nine, ten, queen, king, ace := '2', '9', 'T', 'Q', 'K', 'A';
    SymbolValues(two, nine, ten, queen, king, ace);
    ExpandBySplit(ace, nine, "s", "+");
    assert "A9s+" == [ace, nine] + "s" + "+";
  }

  lemma ExampleKingTenSuitedPlus()
    ensures ExpandToken("KTs+") == NonpairsFrom(13, 10, Some(true))
  {
    var two, nine, ten, queen, king, ace := '2', '9', 'T', 'Q', 'K', 'A';
    SymbolValues(two, nine, ten, queen, king, ace);
    ExpandBySplit(king, ten, "s", "+");
    assert "KTs+" == [king, ten] + "s" + "+";
  }

  lemma SymbolValues(two: char, nine: char, ten: char, queen: char, king: char, ace: char)
    requires two == '2' && nine == '9' && ten == 'T' && queen == 'Q' && king == 'K' && ace == 'A'
    ensures IsRankSymbol(two) && SymbolValue(two) == 2
    ensures IsRankSymbol(nine) && SymbolValue(nine) == 9
    ensures IsRankSymbol(ten) && SymbolValue(ten) == 10
    ensures IsRankSymbol(queen) && SymbolValue(queen) == 12
    ensures IsRankSymbol(king) && SymbolValue(king) == 13
    ensures IsRankSymbol(ace) && SymbolValue(ace) == 14
  {
  }

  /** The malformed tokens of test_ranges.py, and texts too short to be a token. */
  lemma ExpandRejects()
    ensures ExpandToken("10h") == []
    ensures ExpandToken("AQQ") == []
    ensures ExpandToken("A2x") == []
    ensures ExpandToken("") == []
    ensures ExpandToken("A") == []
  {
    RejectTenAsDigits();
    RejectThirdRank();
    RejectBadFlag();
    StripTrimmed("A");
  }

  /** "10" is not two rank symbols: the ten is 'T'. */
  lemma RejectTenAsDigits()
    ensures ExpandToken("10h") == []
  {
    var t := "10h";
    assert !IsRankSymbol(t[0]);
    StripTrimmed(t);
    ExpandTokenNonEmpty(t);
  }

  /** A third rank symbol is not a suffix. */
  lemma RejectThirdRank()
    ensures ExpandToken("AQQ") == []
  {
    var t := "AQQ";
    assert t[2] !in "so+";
    StripTrimmed(t);
    ExpandTokenNonEmpty(t);
  }

  /** 'x' is neither 's', 'o' nor '+'. */
  lemma RejectBadFlag()
    ensures ExpandToken("A2x") == []
  {
    var t := "A2x";
    assert t[2] !in "so+";
    StripTrimmed(t);
    ExpandTokenNonEmpty(t);
  }
}
