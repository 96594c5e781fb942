/**
 * Hand ranks are Python tuples of integers, and the source compares them with
 * `<`, `>` and `==` (hand_rank7.py, equity_hu.py). Python orders tuples
 * lexicographically: the first position where they differ decides, and when
 * one is a proper prefix of the other the shorter one is smaller.
 * A hand rank is modelled as `seq<int>` with that order spelled out.
 */
module TupleOrder {

  /** Python's `a < b` on tuples of integers. */
  predicate Less(a: seq<int>, b: seq<int>)
    decreases |a|
  {
    if a == [] then b != []
    else if b == [] then false
    else if a[0] != b[0] then a[0] < b[0]
    else Less(a[1..], b[1..])
  }

  /** Python's `a <= b` on tuples of integers. */
  predicate LessEq(a: seq<int>, b: seq<int>) {
    a == b || Less(a, b)
  }

  /** `a` and `b` agree before position `k` and `a` is smaller at `k`. */
  ghost predicate SmallerAt(a: seq<int>, b: seq<int>, k: int) {
    0 <= k < |a| && k < |b| && a[..k] == b[..k] && a[k] < b[k]
  }

  ghost predicate ProperPrefix(a: seq<int>, b: seq<int>) {
    |a| < |b| && a == b[..|a|]
  }

  /** The recursive `Less` is the textbook lexicographic order. */
  lemma {:induction false} LessCharacterization(a: seq<int>, b: seq<int>)
    ensures Less(a, b) <==> (exists k :: SmallerAt(a, b, k)) || ProperPrefix(a, b)
    decreases |a|
  {
    if a == [] {
      assert b != [] ==> ProperPrefix(a, b);
    } else if b == [] {
      assert forall k :: !SmallerAt(a, b, k);
    } else if a[0] != b[0] {
      if a[0] < b[0] {
        assert SmallerAt(a, b, 0);
      } else {
        assert forall k :: !SmallerAt(a, b, k);
        assert !ProperPrefix(a, b);
      }
    } else {
      var a', b' := a[1..], b[1..];
      LessCharacterization(a', b');
      if Less(a', b') {
        if k' :| SmallerAt(a', b', k') {
          assert a[..k' + 1] == [a[0]] + a'[..k'];
          assert b[..k' + 1] == [b[0]] + b'[..k'];
          assert SmallerAt(a, b, k' + 1);
        } else {
          assert ProperPrefix(a', b');
          assert a == [a[0]] + a' && b[..|a|] == [b[0]] + b'[..|a'|];
        }
      } else {
        forall k | SmallerAt(a, b, k) ensures false {
          assert k != 0;
          assert a'[..k - 1] == a[1..k] && b'[..k - 1] == b[1..k];
          assert SmallerAt(a', b', k - 1);
        }
        assert !ProperPrefix(a, b);
      }
    }
  }

  lemma {:induction false} LessIrreflexive(a: seq<int>)
    ensures !Less(a, a)
    decreases |a|
  {
    if a != [] {
      LessIrreflexive(a[1..]);
    }
  }

  lemma {:induction false} LessAsymmetric(a: seq<int>, b: seq<int>)
    ensures !(Less(a, b) && Less(b, a))
    decreases |a|
  {
    if a != [] && b != [] && a[0] == b[0] {
      LessAsymmetric(a[1..], b[1..]);
    }
  }

  lemma {:induction false} LessTransitive(a: seq<int>, b: seq<int>, c: seq<int>)
    requires Less(a, b) && Less(b, c)
    ensures Less(a, c)
    decreases |a|
  {
    if a != [] && a[0] == b[0] && b[0] == c[0] {
      LessTransitive(a[1..], b[1..], c[1..]);
    }
  }

  /** Any two ranks are comparable: the order is total. */
  lemma {:induction false} LessTrichotomy(a: seq<int>, b: seq<int>)
    ensures Less(a, b) || a == b || Less(b, a)
    decreases |a|
  {
    if a != [] && b != [] && a[0] == b[0] {
      LessTrichotomy(a[1..], b[1..]);
      if a[1..] == b[1..] {
        assert a == [a[0]] + a[1..] && b == [b[0]] + b[1..];
      }
    }
  }

  lemma LessEqTransitive(a: seq<int>, b: seq<int>, c: seq<int>)
    requires LessEq(a, b) && LessEq(b, c)
    ensures LessEq(a, c)
  {
    if a != b && b != c {
      LessTransitive(a, b, c);
    }
  }

  /** Ranks whose first components differ are ordered by them. */
  lemma LessByHead(a: seq<int>, b: seq<int>)
    requires |a| > 0 && |b| > 0 && a[0] < b[0]
    ensures Less(a, b)
  {
  }

  /** If `last` beats the running maximum it beats everything before it. */
  lemma MaximumStep(init: seq<seq<int>>, m: seq<int>, last: seq<int>)
    requires forall i :: 0 <= i < |init| ==> LessEq(init[i], m)
    ensures Less(m, last) ==> forall i :: 0 <= i < |init| ==> LessEq(init[i], last)
    ensures !Less(m, last) ==> LessEq(last, m)
  {
    if Less(m, last) {
      forall i | 0 <= i < |init| ensures LessEq(init[i], last) {
        if init[i] != m { LessTransitive(init[i], m, last); }
      }
    } else {
      LessTrichotomy(m, last);
    }
  }

  /**
   * The running maximum of a non-empty list of ranks, as a loop that keeps
   * `best` and replaces it by `r` when `best is None or r > best` computes it.
   */
  function Maximum(rs: seq<seq<int>>): (m: seq<int>)
    requires |rs| > 0
    ensures m in rs
    ensures forall i :: 0 <= i < |rs| ==> LessEq(rs[i], m)
  {
    if |rs| == 1 then rs[0]
    else
      var init := rs[..|rs| - 1];
      var m0 := Maximum(init);
      var last := rs[|rs| - 1];
      MaximumStep(init, m0, last);
      assert forall i :: 0 <= i < |rs| - 1 ==> rs[i] == init[i];
      if Less(m0, last) then last else m0
  }

  /** One more step of the running maximum over a prefix. */
  lemma MaximumSnoc(rs: seq<seq<int>>, i: nat)
    requires i < |rs|
    ensures i == 0 ==> Maximum(rs[..i + 1]) == rs[i]
    ensures i > 0 ==> Maximum(rs[..i + 1]) == if Less(Maximum(rs[..i]), rs[i]) then rs[i] else Maximum(rs[..i])
  {
    assert rs[..i + 1][..i] == rs[..i];
  }

  lemma MaximumWhole(rs: seq<seq<int>>)
    requires |rs| > 0
    ensures Maximum(rs[..|rs|]) == Maximum(rs)
  {
    assert rs[..|rs|] == rs;
  }

  /** An upper bound that is attained is the maximum: the maximum is unique. */
  lemma MaximumUnique(rs: seq<seq<int>>, m: seq<int>)
    requires m in rs
    requires forall i :: 0 <= i < |rs| ==> LessEq(rs[i], m)
    ensures m == Maximum(rs)
  {
    var mx := Maximum(rs);
    var i :| 0 <= i < |rs| && rs[i] == m;
    var j :| 0 <= j < |rs| && rs[j] == mx;
    assert LessEq(m, mx) && LessEq(mx, m);
    LessAsymmetric(m, mx);
  }
}
