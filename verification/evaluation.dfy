/** The testing half of `run_df` in the binary classifier: predictions over
    the full test batches, the confusion counts with class 0 as the positive
    class, and the rates derived from them. The network's outputs are an
    input: one pair of softmax scores per evaluated test sample. */
module Evaluation {
  import opened Wrappers
  import Loading
  import Training

  /** One row of the softmax output: the scores of class 0 and class 1. */
  datatype Scores = Scores(p0: real, p1: real)

  function Score(s: Scores, k: nat): real
    requires k < 2
  {
    if k == 0 then s.p0 else s.p1
  }

  /** `np.argmax` over the two scores: a maximal index, the first one on a tie. */
  function Argmax(s: Scores): (k: nat)
    ensures k < 2
    ensures forall j :: 0 <= j < 2 ==> Score(s, j) <= Score(s, k)
    ensures forall j :: 0 <= j < k ==> Score(s, j) < Score(s, k)
  {
    if s.p1 > s.p0 then 1 else 0
  }

  /** The test samples a loader with `drop_last=True` and no shuffling
      yields: the longest prefix made of whole batches. */
  function Evaluated<T>(test: seq<T>): (r: seq<T>)
    ensures |r| <= |test| && r == test[..|r|]
    ensures |r| % Training.BATCH_SIZE == 0
    ensures |test| - |r| < Training.BATCH_SIZE
  {
    test[..Training.FullBatches(|test|) * Training.BATCH_SIZE]
  }

  /** The labels the test loader pairs with the evaluated samples. */
  function TestLabels(test: seq<Loading.Uuid>, labels: map<Loading.Uuid, int>): (r: seq<int>)
    requires forall i :: 0 <= i < |test| ==> test[i] in labels
    ensures |r| == |Evaluated(test)|
    ensures forall i :: 0 <= i < |r| ==> r[i] == labels[test[i]]
  {
    var ev := Evaluated(test);
    seq(|ev|, i requires 0 <= i < |ev| => labels[ev[i]])
  }

  // ---------------------------------------------------------------------
  // Confusion counts
  // ---------------------------------------------------------------------

  datatype Confusion = Confusion(tp: nat, tn: nat, fp: nat, fn: nat)

  function Total(c: Confusion): nat
  {
    c.tp + c.tn + c.fp + c.fn
  }

  /** Reference count: the positions whose prediction is `p` and whose
      true label is `l`. */
  function Count(scores: seq<Scores>, correct: seq<int>, p: nat, l: int): (n: nat)
    requires |scores| == |correct|
    ensures n <= |scores|
  {
    if scores == [] then 0
    else
      var k := |scores| - 1;
      Count(scores[..k], correct[..k], p, l) + (if Argmax(scores[k]) == p && correct[k] == l then 1 else 0)
  }

  /** Positions whose true label is neither 0 nor 1. */
  function Unexpected(correct: seq<int>): (n: nat)
    ensures n <= |correct|
  {
    if correct == [] then 0
    else
      var k := |correct| - 1;
      Unexpected(correct[..k]) + (if correct[k] != 0 && correct[k] != 1 then 1 else 0)
  }

  /** The four counters as the definition of a binary confusion matrix
      with class 0 positive. */
  function Reference(scores: seq<Scores>, correct: seq<int>): Confusion
    requires |scores| == |correct|
  {
    Confusion(Count(scores, correct, 0, 0), Count(scores, correct, 1, 1),
              Count(scores, correct, 0, 1), Count(scores, correct, 1, 0))
  }

  /** The counting loop of `run_df`, branch for branch: predicted 0 against
      1 is a false positive, 0 against 0 a true positive, 1 against 0 a false
      negative, 1 against 1 a true negative; anything else is only logged. */
  method Tally(scores: seq<Scores>, correct: seq<int>) returns (c: Confusion)
    requires |scores| == |correct|
    ensures c == Reference(scores, correct)
  {
    c := Confusion(0, 0, 0, 0);
    var i := 0;
    while i < |scores|
      invariant 0 <= i <= |scores|
      invariant c == Reference(scores[..i], correct[..i])
    {
      var predicted := Argmax(scores[i]);
      var actual := correct[i];
      if predicted == 0 && actual == 1 {
        c := c.(fp := c.fp + 1);
      } else if predicted == 0 && actual == 0 {
        c := c.(tp := c.tp + 1);
      } else if predicted == 1 && actual == 0 {
        c := c.(fn := c.fn + 1);
      } else if predicted == 1 && actual == 1 {
        c := c.(tn := c.tn + 1);
      }
      assert scores[..i + 1][..i] == scores[..i] && correct[..i + 1][..i] == correct[..i];
      i := i + 1;
    }
    assert scores[..i] == scores && correct[..i] == correct;
  }

  /** Each pair with a 0/1 label lands in exactly one counter and the
      others in none, so the counters add up to the number of such pairs. */
  lemma {:induction false} CountsAddUp(scores: seq<Scores>, correct: seq<int>)
    requires |scores| == |correct|
    ensures Total(Reference(scores, correct)) + Unexpected(correct) == |scores|
  {
    if scores != [] {
      var k := |scores| - 1;
      CountsAddUp(scores[..k], correct[..k]);
      assert correct[..k] == correct[..|correct| - 1];
    }
  }

  /** With labels that are all 0 or 1, every evaluated sample is counted. */
  lemma {:induction false} NothingUnexpected(correct: seq<int>)
    requires forall i :: 0 <= i < |correct| ==> correct[i] == 0 || correct[i] == 1
    ensures Unexpected(correct) == 0
  {
    if correct != [] {
      NothingUnexpected(correct[..|correct| - 1]);
    }
  }

  // ---------------------------------------------------------------------
  // Rates
  // ---------------------------------------------------------------------

  /** The rates printed for a fold; `run_df` returns accuracy and fpr. */
  datatype Rates = Rates(accuracy: real, fpr: real, tpr: real, fnr: real, tnr: real)

  /** The source divides without a guard: a zero denominator raises
      ZeroDivisionError, first at the fpr line, then at the tpr line. */
  datatype RateError = NoNegatives | NoPositives

  /** `a / n` for counts, with the facts the rates need. */
  function Share(a: nat, n: nat): (r: real)
    requires a <= n && n > 0
    ensures 0.0 <= r <= 1.0
    ensures r * n as real == a as real
  {
    a as real / n as real
  }

  /** Two shares of the same total that cover it add up to 1. */
  lemma ShareComplement(a: nat, b: nat)
    requires a + b > 0
    ensures Share(a, a + b) + Share(b, a + b) == 1.0
  {
    SharesSum(Share(a, a + b), Share(b, a + b), a as real, b as real, (a + b) as real);
  }

  /** Shares `x` and `y` of `a` and `b` in the total `n = a + b` add up to 1. */
  lemma SharesSum(x: real, y: real, a: real, b: real, n: real)
    requires n == a + b && n > 0.0 && x * n == a && y * n == b
    ensures x + y == 1.0
  {
    Distribute(x, y, n);
    ZeroFactor(x + y - 1.0, n);
  }

  lemma Distribute(x: real, y: real, n: real)
    ensures (x + y - 1.0) * n == x * n + y * n - n
  {
  }

  /** Only 0 times a positive number is 0. */
  lemma ZeroFactor(x: real, n: real)
    requires n > 0.0 && x * n == 0.0
    ensures x == 0.0
  {
  }

  /** Only 1 leaves a positive number unchanged. */
  lemma UnitFactor(x: real, n: real)
    requires n > 0.0 && x * n == n
    ensures x == 1.0
  {
    assert (x - 1.0) * n == 0.0;
  }

  /** A share of the whole is 1; a share of nothing is 0. */
  lemma ShareExtremes(n: nat)
    requires n > 0
    ensures Share(n, n) == 1.0 && Share(0, n) == 0.0
  {
    UnitFactor(Share(n, n), n as real);
  }

  function Rate(a: nat, b: nat): real
    requires a + b > 0
  {
    Share(a, a + b)
  }

  /** `accuracy` is the share of correct predictions among all counted,
      `fpr` the share of false positives among the true class-1 samples. */
  predicate Summarises(c: Confusion, accuracy: real, fpr: real)
  {
    && accuracy * Total(c) as real == (c.tp + c.tn) as real
    && fpr * (c.fp + c.tn) as real == c.fp as real
  }

  /** Lines 211-215 of the fold: fpr, tpr, fnr, tnr, accuracy. */
  function FoldRates(c: Confusion): (r: Result<Rates, RateError>)
    ensures r.Err? <==> c.fp + c.tn == 0 || c.tp + c.fn == 0
    ensures r == Err(NoNegatives) <==> c.fp + c.tn == 0
    ensures r.Ok? ==> var q := r.value;
              && 0.0 <= q.accuracy <= 1.0 && 0.0 <= q.fpr <= 1.0 && 0.0 <= q.tpr <= 1.0
              && Summarises(c, q.accuracy, q.fpr)
              && q.tpr * (c.tp + c.fn) as real == c.tp as real
              && q.fpr + q.tnr == 1.0 && q.tpr + q.fnr == 1.0
  {
    if c.fp + c.tn == 0 then Err(NoNegatives)
    else if c.tp + c.fn == 0 then Err(NoPositives)
    else
      ShareComplement(c.fp, c.tn);
      ShareComplement(c.fn, c.tp);
      assert c.tn + c.fp == c.fp + c.tn && c.fn + c.tp == c.tp + c.fn;
      Ok(Rates(Share(c.tp + c.tn, Total(c)), Rate(c.fp, c.tn), Rate(c.tp, c.fn), Rate(c.fn, c.tp), Rate(c.tn, c.fp)))
  }

  /** The rates depend on the counts alone, and a perfect classifier has
      accuracy 1 and fpr 0. */
  lemma PerfectFold(tp: nat, tn: nat)
    requires tp > 0 && tn > 0
    ensures FoldRates(Confusion(tp, tn, 0, 0)) == Ok(Rates(1.0, 0.0, 1.0, 0.0, 1.0))
  {
    ShareExtremes(tp + tn);
    ShareExtremes(tp);
    ShareExtremes(tn);
    assert tp + tn + 0 + 0 == tp + tn && 0 + tn == tn && tp + 0 == tp;
  }

  /** 40 true positives, 35 true negatives, 10 false positives and 15 false
      negatives give accuracy 0.75, fpr 10/45 and tpr 40/55. */
  lemma ScenarioRates()
    ensures FoldRates(Confusion(40, 35, 10, 15)) == Ok(Rates(0.75, 10.0 / 45.0, 40.0 / 55.0, 15.0 / 55.0, 35.0 / 45.0))
  {
  }

  // ---------------------------------------------------------------------
  // One fold's evaluation
  // ---------------------------------------------------------------------

  /** Testing a fold: `scores` holds the network's output for each evaluated
      test sample. Returns `(accuracy, fpr)`, or the division that fails. */
  method EvaluateFold(test: seq<Loading.Uuid>, labels: map<Loading.Uuid, int>, scores: seq<Scores>)
    returns (r: Result<(real, real), RateError>)
    requires forall i :: 0 <= i < |test| ==> test[i] in labels
    requires |scores| == |Evaluated(test)|
    ensures var c := Reference(scores, TestLabels(test, labels));
            && (r.Err? <==> c.fp + c.tn == 0 || c.tp + c.fn == 0)
            && (r.Ok? ==> Summarises(c, r.value.0, r.value.1))
  {
    var c := Tally(scores, TestLabels(test, labels));
    var rates := FoldRates(c);
    if rates.Err? {
      return Err(rates.error);
    }
    return Ok((rates.value.accuracy, rates.value.fpr));
  }

  /** A test set smaller than one batch yields no predictions, so the fpr
      line divides by zero. */
  lemma SmallTestSetFails(test: seq<Loading.Uuid>, labels: map<Loading.Uuid, int>, scores: seq<Scores>)
    requires forall i :: 0 <= i < |test| ==> test[i] in labels
    requires |scores| == |Evaluated(test)|
    requires |test| < Training.BATCH_SIZE
    ensures FoldRates(Reference(scores, TestLabels(test, labels))) == Err(NoNegatives)
  {
    assert Training.FullBatches(|test|) == 0;
    assert scores == [];
  }
}
