/**
 * The retrieval-evaluation metrics: precision at k, recall at k and mean
 * reciprocal rank of one ranked prediction list against the set of artifacts
 * labelled relevant for a control. Scores are exact reals.
 */
module Eval {
  import opened Text
  import opened Sorting

  /** How many entries of `top` are relevant (`sum(1 for a in top if a in rel_set)`). */
  function Hits(top: seq<int>, rel: set<int>): nat {
    if top == [] then 0
    else (if top[0] in rel then 1 else 0) + Hits(top[1..], rel)
  }

  /** `precision_at_k`: relevant entries among the first `k`, divided by `k`. */
  function PrecisionAtK(pred: seq<int>, rel: set<int>, k: int): real {
    var top := PySliceTo(pred, k);
    if top == [] then 0.0 else Hits(top, rel) as real / k as real
  }

  /** `recall_at_k`: relevant entries among the first `k`, divided by the number of relevant artifacts. */
  function RecallAtK(pred: seq<int>, rel: set<int>, k: int): real {
    if rel == {} then 0.0
    else Hits(PySliceTo(pred, k), rel) as real / |rel| as real
  }

  /** The loop of `mrr`: `rank` is the 1-based position of `pred[0]` in the full list. */
  function ReciprocalRankFrom(pred: seq<int>, rel: set<int>, rank: nat): real
    requires 1 <= rank
  {
    if pred == [] then 0.0
    else if pred[0] in rel then 1.0 / rank as real
    else ReciprocalRankFrom(pred[1..], rel, rank + 1)
  }

  /** `mrr`: the reciprocal of the 1-based position of the first relevant prediction, 0 if none. */
  function Mrr(pred: seq<int>, rel: set<int>): real {
    ReciprocalRankFrom(pred, rel, 1)
  }

  /** The set of entries of a sequence. */
  function Elements(s: seq<int>): set<int> {
    set x | x in s
  }

  lemma {:induction false} HitsAppend(a: seq<int>, b: seq<int>, rel: set<int>)
    ensures Hits(a + b, rel) == Hits(a, rel) + Hits(b, rel)
  {
    if a == [] {
      assert a + b == b;
    } else {
      assert (a + b)[1..] == a[1..] + b;
      HitsAppend(a[1..], b, rel);
    }
  }

  /** At most every entry is a hit, and there is no hit when no entry is relevant. */
  lemma {:induction false} HitsBounds(s: seq<int>, rel: set<int>)
    ensures Hits(s, rel) <= |s|
    ensures Hits(s, rel) == 0 <==> forall x :: x in s ==> x !in rel
  {
    if s != [] {
      HitsBounds(s[1..], rel);
      assert forall x :: x in s <==> x == s[0] || x in s[1..];
    }
  }

  /** Without repeated entries, the hits are exactly the relevant entries, so at most `|rel|`. */
  lemma {:induction false} HitsDistinct(s: seq<int>, rel: set<int>)
    requires NoDup(s)
    ensures Hits(s, rel) == |Elements(s) * rel|
    ensures Hits(s, rel) <= |rel|
  {
    if s == [] {
      assert Elements(s) * rel == {};
    } else {
      var rest := s[1..];
      assert NoDup(rest) by {
        forall i, j | 0 <= i < j < |rest| ensures rest[i] != rest[j] {
          assert rest[i] == s[i + 1] && rest[j] == s[j + 1];
        }
      }
      HitsDistinct(rest, rel);
      assert s[0] !in rest by {
        forall i | 0 <= i < |rest| ensures rest[i] != s[0] {
          assert rest[i] == s[i + 1];
        }
      }
      assert Elements(s) == {s[0]} + Elements(rest);
      if s[0] in rel {
        assert Elements(s) * rel == {s[0]} + Elements(rest) * rel;
        assert s[0] !in Elements(rest) * rel;
      } else {
        assert Elements(s) * rel == Elements(rest) * rel;
      }
    }
    assert Elements(s) * rel <= rel;
    SubsetCard(Elements(s) * rel, rel);
  }

  lemma SubsetCard(a: set<int>, b: set<int>)
    requires a <= b
    ensures |a| <= |b|
  {
    assert b == a + (b - a);
    assert a * (b - a) == {};
  }

  /**
   * Precision at `k` is 0 when the first `k` predictions are empty, and is
   * otherwise the share of relevant entries among them over `k`; for any
   * `k >= 0` it lies between 0 and 1.
   */
  lemma PrecisionSpec(pred: seq<int>, rel: set<int>, k: int)
    ensures var top := PySliceTo(pred, k);
      && (top == [] ==> PrecisionAtK(pred, rel, k) == 0.0)
      && (top != [] ==> k != 0 && PrecisionAtK(pred, rel, k) * k as real == Hits(top, rel) as real)
      && (0 <= k ==> 0.0 <= PrecisionAtK(pred, rel, k) <= 1.0)
  {
    var top := PySliceTo(pred, k);
    HitsBounds(top, rel);
    if top != [] && 0 <= k {
      assert Hits(top, rel) <= k;
      DivBounds(Hits(top, rel), k);
    }
  }

  /** `h / n` lies in [0, 1] when `0 <= h <= n` and `n > 0`. */
  lemma DivBounds(h: nat, n: int)
    requires 0 < n && h <= n
    ensures 0.0 <= h as real / n as real <= 1.0
  {
    assert h as real / n as real * n as real == h as real;
  }

  /**
   * Recall at `k` is 0 without relevant artifacts, otherwise hits over the
   * number of relevant artifacts: never negative, and at most 1 when the
   * predictions do not repeat an artifact.
   */
  lemma RecallSpec(pred: seq<int>, rel: set<int>, k: int)
    ensures rel == {} ==> RecallAtK(pred, rel, k) == 0.0
    ensures rel != {} ==> RecallAtK(pred, rel, k) * |rel| as real == Hits(PySliceTo(pred, k), rel) as real
    ensures 0.0 <= RecallAtK(pred, rel, k)
    ensures NoDup(pred) ==> RecallAtK(pred, rel, k) <= 1.0
  {
    var top := PySliceTo(pred, k);
    if rel != {} && NoDup(pred) {
      assert NoDup(top) by {
        forall i, j | 0 <= i < j < |top| ensures top[i] != top[j] {
          assert top[i] == pred[i] && top[j] == pred[j];
        }
      }
      HitsDistinct(top, rel);
      DivBounds(Hits(top, rel), |rel|);
    }
  }

  /** Looking further down the list never lowers recall. */
  lemma RecallMonotone(pred: seq<int>, rel: set<int>, k1: int, k2: int)
    requires 0 <= k1 <= k2
    ensures RecallAtK(pred, rel, k1) <= RecallAtK(pred, rel, k2)
  {
    var a := PySliceTo(pred, k1);
    var b := PySliceTo(pred, k2);
    assert b == a + b[|a|..];
    HitsAppend(a, b[|a|..], rel);
  }

  /** Where the first relevant prediction sits, if anywhere. */
  predicate FirstRelevantAt(pred: seq<int>, rel: set<int>, p: nat) {
    p < |pred| && pred[p] in rel && forall j :: 0 <= j < p ==> pred[j] !in rel
  }

  lemma {:induction false} RankWithoutHit(pred: seq<int>, rel: set<int>, rank: nat)
    requires 1 <= rank
    requires forall i :: 0 <= i < |pred| ==> pred[i] !in rel
    ensures ReciprocalRankFrom(pred, rel, rank) == 0.0
  {
    if pred != [] {
      assert forall i :: 0 <= i < |pred| - 1 ==> pred[1..][i] == pred[i + 1];
      RankWithoutHit(pred[1..], rel, rank + 1);
    }
  }

  lemma {:induction false} RankAtFirstHit(pred: seq<int>, rel: set<int>, rank: nat, p: nat)
    requires 1 <= rank
    requires FirstRelevantAt(pred, rel, p)
    ensures ReciprocalRankFrom(pred, rel, rank) == 1.0 / (rank + p) as real
  {
    if p > 0 {
      assert pred[0] !in rel;
      var rest := pred[1..];
      assert FirstRelevantAt(rest, rel, p - 1) by {
        forall j | 0 <= j < p - 1 ensures rest[j] !in rel {
          assert rest[j] == pred[j + 1];
        }
      }
      RankAtFirstHit(rest, rel, rank + 1, p - 1);
    }
  }

  /**
   * `mrr` is `1 / (p + 1)` when the first relevant prediction is at index `p`,
   * and 0 when no prediction is relevant.
   */
  lemma MrrSpec(pred: seq<int>, rel: set<int>)
    ensures (forall i :: 0 <= i < |pred| ==> pred[i] !in rel) ==> Mrr(pred, rel) == 0.0
    ensures forall p: nat :: FirstRelevantAt(pred, rel, p) ==> Mrr(pred, rel) == 1.0 / (p + 1) as real
  {
    if forall i :: 0 <= i < |pred| ==> pred[i] !in rel {
      RankWithoutHit(pred, rel, 1);
    }
    forall p: nat | FirstRelevantAt(pred, rel, p) ensures Mrr(pred, rel) == 1.0 / (p + 1) as real {
      RankAtFirstHit(pred, rel, 1, p);
    }
  }

  /** Some prediction is relevant exactly when it has a first relevant position. */
  lemma {:induction false} FirstRelevantExists(pred: seq<int>, rel: set<int>)
    requires exists x :: x in pred && x in rel
    ensures exists p: nat :: FirstRelevantAt(pred, rel, p)
  {
    if pred[0] in rel {
      assert FirstRelevantAt(pred, rel, 0);
    } else {
      var x :| x in pred && x in rel;
      assert x in pred[1..];
      FirstRelevantExists(pred[1..], rel);
      var p: nat :| FirstRelevantAt(pred[1..], rel, p);
      assert FirstRelevantAt(pred, rel, p + 1) by {
        forall j | 0 <= j < p + 1 ensures pred[j] !in rel {
          if j > 0 {
            assert pred[j] == pred[1..][j - 1];
          }
        }
      }
    }
  }

  /** `mrr` lies in [0, 1], and is 1 exactly when the first prediction is relevant. */
  lemma MrrBounds(pred: seq<int>, rel: set<int>)
    ensures 0.0 <= Mrr(pred, rel) <= 1.0
    ensures Mrr(pred, rel) == 1.0 <==> pred != [] && pred[0] in rel
  {
    MrrSpec(pred, rel);
    if exists x :: x in pred && x in rel {
      FirstRelevantExists(pred, rel);
      var p: nat :| FirstRelevantAt(pred, rel, p);
      DivBounds(1, p + 1);
      if p > 0 {
        assert pred[0] !in rel;
        assert 1.0 / (p + 1) as real < 1.0;
      }
    }
  }

  /** Whatever follows the first relevant prediction has no effect on `mrr`. */
  lemma MrrIgnoresTail(pred: seq<int>, other: seq<int>, rel: set<int>, p: nat)
    requires FirstRelevantAt(pred, rel, p)
    requires p < |other| && other[..p + 1] == pred[..p + 1]
    ensures Mrr(other, rel) == Mrr(pred, rel)
  {
    assert FirstRelevantAt(other, rel, p) by {
      assert forall j :: 0 <= j <= p ==> other[j] == other[..p + 1][j] == pred[..p + 1][j] == pred[j];
    }
    MrrSpec(pred, rel);
    MrrSpec(other, rel);
  }
}
