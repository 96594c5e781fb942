# Heads-up poker evaluation, modelled in Dafny

This project models the poker logic of a small Python code base and proves what that logic promises:

- cards and decks (`cards.py`);
- the five-card hand evaluator `rank5` and its straight detector `_straight_high` (`hand_rank5.py`);
- the seven-card evaluator `rank7` (`hand_rank7.py`);
- the exact heads-up equity enumerator (`equity_hu.py`);
- the range-token helpers (`ranges.py`).

Each source file has its own module: `Cards`, `HandRank5`, `HandRank7`, `EquityHu` and `Ranges`. Four helper modules stand in for the Python built-ins the code relies on, so that none of them is taken on trust:

- `Results` holds `Option`, `Result` and the error kinds. Each `raise ValueError` becomes an `Err` value.
- `Seqs` covers `Counter`, `set`, `sorted`, `reversed`, `max` and slicing, on sequences.
- `TupleOrder` is Python's lexicographic `<` on tuples of integers (a proper prefix is smaller), with the running maximum a loop keeps.
- `Itertools` provides `itertools.combinations` in its own enumeration order, and `math.comb` by Pascal's rule.

A card is `Card(value, suit)`, with the value an integer and the suit a character. A hand rank is a `seq<int>` compared by `TupleOrder.Less`.

Code that works step by step is written as Dafny methods with loops, and each method is proved equal to a specification function:
- the scan of `_straight_high`;
- the subset loop of `rank7`;
- the deck loops of `make_deck`;
- the counting loop of `enumerate_runouts`;
- the combo loops of `ranges.py`.

Everything else is functions and lemmas.

## Model

| member | source | states |
|---|---|---|
| Cards.RankEnumeration | cards.py:10-13 | RANK_TO_VAL maps the i-th symbol of RANKS to i + 2, and its keys are exactly the rank symbols |
| Cards.RankInverse | cards.py:13-14 | VAL_TO_RANK is defined exactly on 2..14, and the two maps invert each other in both directions |
| Cards.ParseCard | cards.py:19-29 | an error exactly when the length is not 2, the upper-cased rank is unknown or the lower-cased suit is unknown, with the error kind of the first check that fails; a parsed card is always valid |
| Cards.ParseCaseInsensitive | cards.py:24 | parsing depends only on the upper-cased rank symbol and the lower-cased suit symbol |
| Cards.ParseRejects | test_cards.py:18-22 | each malformed string of the test ("", "A", "10h", "1h", "Ahh", "AX", "ZZ", " Qs", "As ") is refused, with its specific error |
| Cards.CardStr | cards.py:32-36 | on a one-character suit: succeeds exactly on valid cards (value 2..14, suit in "shdc"), giving a two-character string whose first character is the rank symbol of the card's value and whose second is the suit |
| Cards.FormatParseRoundTrip | cards.py:19-36 | parsing the text of a valid card gives the card back |
| Cards.ParseFormatRoundTrip | cards.py:71-72 | every string of `all_card_strings()` parses to the card at the same deck position and formats back to itself |
| Cards.AllCardStrings | cards.py:71-72 | there are 52 strings |
| Cards.FullDeck | cards.py:39-48 | the full deck has 52 cards, the i-th being value i / 4 + 2 in suit SUITS[i % 4] |
| Cards.FullDeckProperties | cards.py:39-48 | the full deck holds every valid card exactly once and nothing else |
| Cards.Upper | cards.py:24 | reference function (no contract of its own): `str.upper()` on one character, ASCII letters only; ParseCaseInsensitive and Ranges.ExpandCase state what it does for parsing |
| Cards.Lower | cards.py:24 | reference function (no contract of its own): `str.lower()` on one character, ASCII letters only; ParseCaseInsensitive states what it does for parsing |
| Cards.DeckExcluding | cards.py:39-48 | reference function (no contract of its own): the full deck without the excluded cards; stated by DeckExcludingProperties, DeckExcludingDistinct and, for the loops, MakeDeck |
| Cards.MakeDeck | cards.py:39-48 | the nested append loops build exactly the full deck in order with the excluded cards filtered out |
| Cards.DeckExcludingProperties | cards.py:39-48 | the excluding deck holds exactly the valid cards not excluded, has no repeats, and has 52 minus the number of distinct valid excluded cards |
| Cards.DeckExcludingDistinct | cards.py:39-48 | excluding k distinct valid cards leaves 52 - k |
| Cards.Deal | cards.py:51-61 | an error exactly when n < 0 or n > the deck size; otherwise the drawn part has n cards and the rest the deck size minus n, both keep deck order, together they are the deck as a multiset; the drawn part is the cards at the sampled positions taken in increasing position order, and the rest is the cards at all other positions, in the same order |
| Cards.SortedSample | cards.py:55-57 | the sorted sample is a strictly increasing list of positions, exactly the sampled ones |
| Cards.DealPartition | cards.py:59-61 | the two comprehensions split the deck into the cards at the sampled positions and the rest, each in deck order |
| HandRank5.StraightHigh | hand_rank5.py:9-26 | reference function for `_straight_high` (no contract of its own): None below five values, otherwise the scan result after a low ace is added; its meaning is stated by StraightHighMeaning and its equality with the loop by ScanStraightHigh |
| HandRank5.ByCount | hand_rank5.py:40-41 | a non-empty hand gives a non-empty list; its contents and order are stated by ByCountSpec, ByCountHead and KeyDescendingUnique |
| HandRank5.KeysWithCount | hand_rank5.py:59-60 | a value is listed exactly when it appears in `by_count` with count k; KeysWithCountSpec adds the order |
| HandRank5.IsFlush | hand_rank5.py:43 | reference predicate (no contract of its own): `len(set(suits)) == 1`; used by Category, Evaluate5Category and Evaluate5SameValuesAndSuits |
| HandRank5.Evaluate5 | hand_rank5.py:33-92 | the rank is a non-empty tuple; this is the body of `rank5` after the length check, and what it computes is stated by Evaluate5Category, Evaluate5Shape, the tiebreak lemmas, Evaluate5Permutation and CategoryOrder |
| HandRank5.Decide | hand_rank5.py:45-92 | the chain of branches from straight flush down to high card, on the precomputed lists, gives a non-empty tuple; helper of Evaluate5, read branch by branch through the Branch lemmas |
| HandRank5.ScanStraightHigh | hand_rank5.py:9-26 | the loop updating `run` and `best_high` returns exactly `StraightHigh`, for every input |
| HandRank5.BestHighMeaning | hand_rank5.py:17-25 | after n steps `best_high` is None exactly when no index so far ends five consecutive values; otherwise it is the value at such an index and at least every such value |
| HandRank5.StraightHighMeaning | hand_rank5.py:9-26 | on a strictly ascending input, `_straight_high` returns a value exactly when there are at least five values and some five-long run of consecutive values (ace also low); the value ends such a run and is the largest run end |
| HandRank5.IsStraightMeaning | hand_rank5.py:36-46 | a hand of card values holds a straight exactly when its distinct values contain five consecutive ones (ace also low); the straight's top is at most 14 and is the largest such run end |
| HandRank5.StraightExamples | hand_rank5.py:14-15 | the wheel A-2-3-4-5 has top 5, broadway 14, 9-K 13, 2-6 with an ace 6, and A-2-3-4-5 missing a card or with fewer than five values has no straight |
| HandRank5.Wheel | hand_rank5.py:14-15 | a wheel ranks (8, 5) when suited and (4, 5) otherwise |
| HandRank5.Rank5 | hand_rank5.py:29-31 | an error exactly when the hand does not have 5 cards, otherwise the five-card evaluation |
| HandRank5.ByCountSpec | hand_rank5.py:40-41 | `by_count` lists each distinct value once with its count, sorted by (count, value) descending |
| HandRank5.ByCountHead | hand_rank5.py:41 | the first entry has the highest count, and the highest value among values with that count |
| HandRank5.KeysWithCountSpec | hand_rank5.py:59-60 | `[v for v, c in by_count if c == k]` is exactly the values occurring k times, largest first |
| HandRank5.KeyDescendingUnique | hand_rank5.py:41 | a list sorted by the strict (count, value) order is determined by its entries, so `by_count` is unique |
| HandRank5.CategoryFacts | hand_rank5.py:53-86 | the tests on `by_count[0][1]`, `trips`, `pairs` and `pairs_only` mean "some value four times", "three times", "two pairs" and "a pair" |
| HandRank5.Evaluate5Category | hand_rank5.py:49-92 | the first component of `rank5` is the poker category computed independently from flush, straight and value multiplicities, in order of precedence |
| HandRank5.Evaluate5Shape | hand_rank5.py:49-92 | the category is within 0..8 and the tuple length is fixed per category (2, 3, 3, 6, 2, 4, 4, 5, 6 for 8 down to 0) |
| HandRank5.BranchStraightFlush | hand_rank5.py:49-50 | helper of Evaluate5Category and the tiebreak lemmas: in this branch a straight flush is (8, top of the straight) |
| HandRank5.BranchQuads | hand_rank5.py:53-56 | helper of Evaluate5Category and the tiebreak lemmas: in this branch four of a kind is (7, quad value, largest other value) |
| HandRank5.BranchFullHouse | hand_rank5.py:59-62 | helper of Evaluate5Category and the tiebreak lemmas: in this branch a full house is (6, trips value, pair value) |
| HandRank5.BranchFlush | hand_rank5.py:65-66 | helper of Evaluate5Category and the tiebreak lemmas: in this branch a flush is (5, the five values descending) |
| HandRank5.BranchStraight | hand_rank5.py:69-70 | helper of Evaluate5Category and the tiebreak lemmas: in this branch a straight is (4, top of the straight) |
| HandRank5.BranchTrips | hand_rank5.py:73-76 | helper of Evaluate5Category and the tiebreak lemmas: in this branch trips is (3, trips value, the first two other values descending) |
| HandRank5.BranchTwoPair | hand_rank5.py:79-83 | helper of Evaluate5Category and the tiebreak lemmas: in this branch two pair is (2, higher pair, lower pair, first remaining value) |
| HandRank5.BranchOnePair | hand_rank5.py:86-89 | helper of Evaluate5Category and the tiebreak lemmas: in this branch one pair is (1, pair value, the first three other values descending) |
| HandRank5.BranchHighCard | hand_rank5.py:92 | helper of Evaluate5Category and the tiebreak lemmas: in this branch high card is (0, the five values descending) |
| HandRank5.QuadsTiebreak | hand_rank5.py:53-56 | a quads rank is (7, q, k) with q occurring four times and k the single other value |
| HandRank5.FullHouseTiebreak | hand_rank5.py:59-62 | a full-house rank is (6, t, p) with t occurring three times and p twice |
| HandRank5.FlushTiebreak | hand_rank5.py:65-66 | a flush rank carries the hand's five values, as a multiset, in descending order |
| HandRank5.StraightTiebreak | hand_rank5.py:49-50 | a straight or straight-flush rank is (category, `_straight_high` of the distinct values) |
| HandRank5.TripsTiebreak | hand_rank5.py:73-76 | a trips rank is (3, t, k1, k2) with t occurring three times and k1 > k2 the two single values |
| HandRank5.TwoPairTiebreak | hand_rank5.py:79-83 | a two-pair rank is (2, p1, p2, k) with p1 > p2 both occurring twice and k the single value |
| HandRank5.OnePairTiebreak | hand_rank5.py:86-89 | a one-pair rank is (1, p, k1, k2, k3) with p occurring twice and k1 > k2 > k3 the single values |
| HandRank5.HighCardTiebreak | hand_rank5.py:92 | a high-card rank carries the five values, as a multiset, in descending order |
| HandRank5.Evaluate5Permutation | hand_rank5.py:33-43 | permuting the five cards does not change the rank |
| HandRank5.Evaluate5SameValuesAndSuits | hand_rank5.py:33-43 | the rank depends only on the multiset of values and the set of suits |
| HandRank5.CategoryOrder | hand_rank5.py:49-92 | a hand of a higher category outranks any hand of a lower one under tuple comparison |
| HandRank5.UniqueAsc | hand_rank5.py:36-37 | `list(reversed(sorted(set(vals), reverse=True)))` is strictly ascending with exactly the hand's values |
| HandRank7.Rank7 | hand_rank7.py:10-27 | an error exactly when there are not 7 cards (first) or two are equal; otherwise the best subset rank |
| HandRank7.Best7 | hand_rank7.py:20-27 | reference function (no contract of its own): the maximum of the subset ranks; stated by Best7Upper, Best7Attained, Best7UpperAnyFive and, for the loop, BestSubsetRank |
| HandRank7.BestSubsetRank | hand_rank7.py:20-25 | the loop keeping `best` and replacing it when `r > best` ends with the maximum of the 21 subset ranks |
| HandRank7.SubsetRanks | hand_rank7.py:22-23 | one `rank5` per five-card subset, in `combinations` order, C(7, 5) of them |
| HandRank7.SevenChooseFive | hand_rank7.py:1 | there are 21 five-card subsets of seven cards |
| HandRank7.Best7Upper | hand_rank7.py:20-25 | no five-card subset ranks above the result |
| HandRank7.Best7Attained | hand_rank7.py:22-27 | the result is the rank of a subset of five distinct cards of the seven |
| HandRank7.Best7UpperAnyFive | hand_rank7.py:20-25 | any five distinct cards among the seven, in any order, rank at most the result |
| HandRank7.RoyalIsTop | hand_rank5.py:49-50 | no five cards of values 1..14 rank above (8, 14) |
| HandRank7.RoyalFlush | hand_rank5.py:49-50 | ten to ace of one suit ranks (8, 14) |
| HandRank7.RoyalOnBoard | hand_rank7.py:20-27 | a royal flush among the seven cards gives (8, 14), whatever the other two are |
| EquityHu.ValidateInputs | equity_hu.py:13-20 | inputs pass exactly when both hole hands have 2 cards, the board at most 5 and no card repeats; otherwise the error of the first check that fails |
| EquityHu.Choose | equity_hu.py:22-25 | 0 when k < 0 or k > n, otherwise the positive number n! / (k! (n - k)!) |
| EquityHu.Runouts | equity_hu.py:42-49 | every runout completes the board to 5 cards, and there are C(remaining deck, need) of them |
| EquityHu.Score | equity_hu.py:55-59 | each runout adds 1 to `total` and at most 1 to `wins` plus `ties` |
| EquityHu.ScoreCases | equity_hu.py:55-58 | `wins` grows exactly when the hero's rank is larger, `ties` exactly when the ranks are equal |
| EquityHu.Tally | equity_hu.py:46-59 | after the loop `total` is the number of runouts and `wins + ties <= total` |
| EquityHu.EnumerateRunouts | equity_hu.py:27-61 | validation errors and the too-many-unknowns guard come before any enumeration; otherwise the counts are the tally of the hero's against the villain's rank on every runout |
| EquityHu.CountRunout | equity_hu.py:50-59 | the loop body for one completed board: `rank7` for both players, then the counts move exactly as Score says for the two ranks |
| EquityHu.CountOutcome | equity_hu.py:55-59 | the branch on `hero_best > villain_best` and `==` scores one runout |
| EquityHu.RunoutHandsDistinct | equity_hu.py:50-53 | on every runout both seven-card hands have seven distinct cards, so `rank7` does not raise |
| EquityHu.RunoutCount | equity_hu.py:42-49 | with valid cards there are C(48 - board size, need) runouts, equal to `_choose` of the same |
| EquityHu.RunoutCountExamples | test_equity_hu.py:18-63 | a full board has one runout (the empty one), a turn 44 and a flop 990 |
| EquityHu.Equity | equity_hu.py:69-72 | equity is 0 when nothing was counted, otherwise (2·wins + ties) / (2·total), and it lies in [0, 1] |
| EquityHu.EquityExtremes | equity_hu.py:69-72 | all wins gives 1, all ties 1/2, and neither wins nor ties 0 |
| EquityHu.TallyCounts | equity_hu.py:46-59 | after the loop, `wins` is the number of runouts on which the hero's rank is larger and `ties` the number on which the ranks are equal |
| EquityHu.TallyAllWins | equity_hu.py:55-59 | when the hero's rank is larger on every runout, every runout is a win |
| EquityHu.TallyAllChops | equity_hu.py:55-59 | when the ranks are equal on every runout, every runout is a tie |
| EquityHu.EquityHuExact | equity_hu.py:63-74 | the same errors as the enumeration; otherwise the counts and their equity, within [0, 1] with `wins + ties <= total` |
| EquityHu.RoyalBoardChops | test_equity_hu.py:22-29 | a royal flush board chops: one runout, one tie, equity 1/2 |
| EquityHu.FullBoardHeroWins | test_equity_hu.py:12-20 | on a full board a hero hand that ranks higher gives one runout, one win, equity 1 |
| Ranges.AllPairCombos | ranges.py:4-12 | the nested suit loops produce exactly the six pair combos, in loop order |
| Ranges.PairCombosProperties | ranges.py:4-12 | six distinct combos, exactly the two-card combos of value v with suits SUITS[i], SUITS[j] for i < j, all valid and distinct cards for v in 2..14 |
| Ranges.SuitedLoop | ranges.py:22-25 | the suited loop produces exactly the four suited combos |
| Ranges.OffsuitLoop | ranges.py:27-31 | the offsuit loop, skipping equal suits, produces exactly the twelve offsuit combos in loop order |
| Ranges.AllNonpairCombosAsWritten | ranges.py:14-32 | as written, a `None` flag gives the offsuit list twice and any other flag the offsuit list |
| Ranges.AllNonpairCombos | ranges.py:14-32 | with the suited branch reachable: suited, offsuit or both, as the comment at ranges.py:15 promises |
| Ranges.NonpairCombosProperties | ranges.py:14-32 | 4, 12 or 16 distinct combos, exactly those of values vhi, vlo with one suit, two different suits, or either |
| Ranges.NonpairAsWrittenDiffers | ranges.py:17-25 | as written, `True` yields 12 offsuit combos where 4 suited ones are meant, none of them suited, and `None` yields 24 entries with repeats where 16 distinct are meant |
| Ranges.StripMeaning | ranges.py:36 | `strip()` keeps a contiguous middle part, removes only whitespace, and leaves nothing that starts or ends with whitespace |
| Ranges.StripPadding | ranges.py:36 | whitespace added on either side does not change what `strip()` leaves |
| Ranges.Strip | ranges.py:36 | reference function (no contract of its own): `str.strip()`; stated by StripMeaning and StripPadding |
| Ranges.SplitToken | ranges.py:39-52 | the trailing '+' and then a trailing 's' or 'o' are removed, so the core is no longer than the token; SplitTokenGrammar states which texts leave two rank symbols |
| Ranges.PairsFrom | ranges.py:64-65 | `range(v1, 15)` as pairs: 15 - v1 classes, the k-th being the pair of value v1 + k |
| Ranges.NonpairsFrom | ranges.py:69-73 | `range(v2, v1)` as non-pairs: v1 - v2 classes, the k-th being (v1, v2 + k, flag) |
| Ranges.Classes | ranges.py:58-73 | after the swap, a non-empty list of well-ordered classes; ExpandSingle and ExpandPlus state which |
| Ranges.ExpandToken | ranges.py:34-73 | every class produced is well ordered (a pair in 2..14 without flag, or 2 <= lo < hi <= 14), and a stripped token shorter than 2 gives nothing |
| Ranges.ExpandTokenNonEmpty | ranges.py:34-56 | a token expands to something exactly when its stripped text is two rank symbols, then optionally 's', 'o' or '+', or 's'/'o' then '+' |
| Ranges.SplitTokenGrammar | ranges.py:39-52 | removing '+' and then 's' or 'o' leaves two rank symbols exactly for the texts of that grammar |
| Ranges.ExpandSingle | ranges.py:58-73 | without '+', a token gives one class: the pair, or (higher value, lower value, flag) |
| Ranges.ExpandPlus | ranges.py:63-73 | with '+', a pair gives every pair from v up to aces, a non-pair every lower value from the token's up to one below the higher value, keeping the flag |
| Ranges.ExpandSwap | ranges.py:58-61 | the order of the two rank symbols does not matter |
| Ranges.ExpandCase | ranges.py:54-58 | rank symbols are read in either case |
| Ranges.ExpandPadding | ranges.py:36 | whitespace around a token is ignored |
| Ranges.ExpandExamples | test_ranges.py:9-30 | "22", "22+", "TT+", "AQ", "AQs", "AQo", "AQ+", "A9s+" and "KTs+" expand to the expected classes, with 13, 5 and 3 classes for "22+", "A9s+" and "KTs+" |
| Ranges.ExpandRejects | test_ranges.py:13-18 | "10h", "AQQ" and "A2x" expand to nothing, as do empty and one-character tokens |
| Seqs.Count | hand_rank5.py:40 | `Counter(s)[x]` is the multiplicity of x in s |
| Seqs.SortDesc | hand_rank5.py:35 | `sorted(s, reverse=True)` is descending and a permutation of s |
| Seqs.UniqueDesc | hand_rank5.py:36 | `sorted(set(s), reverse=True)` is strictly descending with exactly the elements of s |
| Seqs.DescendingUnique | hand_rank5.py:35 | a descending permutation is unique, so the sort's result is determined by the multiset |
| Seqs.SortedUnique | cards.py:55 | an ascending permutation is unique |
| Seqs.DistinctCardinality | hand_rank7.py:17 | `len(set(s)) == len(s)` exactly when s has no repeats |
| TupleOrder.Less | hand_rank7.py:24 | reference predicate (no contract of its own): Python's `<` on tuples of integers; stated by LessCharacterization, LessTrichotomy, LessTransitive and LessAsymmetric |
| TupleOrder.LessCharacterization | hand_rank7.py:24 | tuple `<` is the lexicographic order: smaller at the first difference, or a proper prefix |
| TupleOrder.LessTrichotomy | hand_rank7.py:24 | any two ranks are equal or ordered one way |
| TupleOrder.LessTransitive | hand_rank7.py:24 | tuple `<` is transitive |
| TupleOrder.LessAsymmetric | hand_rank7.py:24 | tuple `<` is asymmetric, hence irreflexive |
| TupleOrder.Maximum | hand_rank7.py:20-25 | the running maximum is one of the ranks and at least every rank |
| TupleOrder.MaximumUnique | hand_rank7.py:20-27 | an attained upper bound is the maximum |
| Itertools.Combinations | hand_rank7.py:22 | `combinations(s, k)` has C(|s|, k) entries, each of length k |
| Itertools.CombinationIsSelection | hand_rank7.py:22 | each combination picks positions of s in increasing order |
| Itertools.SelectionIsCombination | hand_rank7.py:22 | every increasing choice of k positions is one of the combinations |
| Itertools.CombinationsDistinct | hand_rank7.py:22 | from a list without repeats, the combinations are all different |
| Itertools.CombinationElements | hand_rank7.py:22 | a combination uses only elements of s, without repeats when s has none |
| Itertools.Binomial | equity_hu.py:22-25 | reference function (no contract of its own): `math.comb` by Pascal's rule, 0 when k > n; BinomialFactorial ties it to the factorial formula |
| Itertools.BinomialFactorial | equity_hu.py:25 | Pascal's rule agrees with n! / (k! (n - k)!) |

## Left out

- Randomness: `random.sample` in `deal` and the whole of `shuffle_deck` (cards.py:54-57, 63-69). `Cards.Deal` takes the sampled positions as a parameter, and `shuffle_deck` is not modelled.
- The `isinstance` check of `parse_card` (cards.py:20-21) cannot fail on a Dafny `string`.
- `str.upper()` and `str.lower()` are modelled on ASCII letters only, with every other character left as it is; Unicode case mapping is not modelled.
- `str.strip()` is modelled by the set of characters Python's `str.isspace()` accepts, listed out.
- A card value is an unbounded integer, as in the source; no width or overflow matters here.
- Cards.CardStr: the model fixes a suit to one `char`. In Python a card is `Tuple[int, str]` (cards.py:16), so a suit can be any string, and `su not in SUITS` (cards.py:34) is a substring test: `card_str` also accepts the empty suit and the suits "sh", "hd", "dc", "shd", "hdc" and "shdc" (for example `(14, "")` gives "A" and `(14, "hd")` gives "Ahd"). Those cards are not modelled. `parse_card` always produces a one-character suit, so it is not affected.
- Equity is an exact rational (`real`) rather than a float. The float rounding of `(wins + 0.5 * ties) / total` is not modelled.
- The `need < 0` check of `enumerate_runouts` (equity_hu.py:37-38) cannot fire after `_validate_inputs`. The model reaches the same result without a separate error path for it.
- Runout counts are worked out only for a full board, a turn board and a flop (1, 44 and 990). The C(48, 5) count of an empty board and the equity values of particular boards are not computed; the general count formula covers them.
- Concrete exemplar hands, such as the Python tests' specific five- and seven-card hands or specific runout equities like 8/44, are not evaluated. Their general properties are proved instead: category order, tiebreak tuples, the royal flush and the full-board win and chop.
- `parse_range_tokens` and `range_to_combos`, called in test_ranges.py, are not defined in ranges.py, so they are not part of this model.

## Findings

| source | as written | input that shows it | evidently intended | confidence | as-written member | corrected member |
|---|---|---|---|---|---|---|
| ranges.py:17-25 | the suited loop sits under `if suited_flag is None:` after an unconditional `return`, so it is never reached; `True` falls through to the offsuit loop | `_all_nonpair_combos(14, 12, True)` gives 12 offsuit combos, and `_all_nonpair_combos(14, 12, None)` gives 24 entries, each offsuit combo twice | `True` gives the 4 suited combos and `None` the 16 distinct suited and offsuit combos (comment at ranges.py:15) | not executed | Ranges.AllNonpairCombosAsWritten | Ranges.AllNonpairCombos |
