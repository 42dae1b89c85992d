/** The training half of `run_df` in the binary classifier: the epoch loop
    with its patience-based early stopping. The network, the optimiser and
    the loss function are not modelled; what the loop decides depends only
    on the sequence of epoch losses, which is therefore an input. */
module Training {
  const BATCH_SIZE: nat := 128
  const EPOCHS: nat := 200
  const PATIENCE: nat := 10

  /** Full batches a loader with `drop_last=True` yields for `n` samples. */
  function FullBatches(n: nat): (b: nat)
    ensures b * BATCH_SIZE <= n < b * BATCH_SIZE + BATCH_SIZE
  {
    n / BATCH_SIZE
  }

  /** `running_loss`: the batch losses of one epoch added up from 0.0. */
  function EpochLoss(batchLosses: seq<real>): real
  {
    if batchLosses == [] then 0.0 else EpochLoss(batchLosses[..|batchLosses| - 1]) + batchLosses[|batchLosses| - 1]
  }

  // ---------------------------------------------------------------------
  // Reference definition of the stopping rule
  // ---------------------------------------------------------------------

  /** Epoch `e`'s loss is strictly below the loss of every earlier epoch. */
  predicate Improves(losses: seq<real>, e: nat)
    requires e < |losses|
  {
    forall i :: 0 <= i < e ==> losses[e] < losses[i]
  }

  /** The latest improving epoch up to and including `e` (epoch 0 always
      improves on the initial infinite best). */
  function LastImprovement(losses: seq<real>, e: nat): (k: nat)
    requires e < |losses|
    ensures k <= e && Improves(losses, k)
    ensures forall i :: k < i <= e ==> !Improves(losses, i)
  {
    if Improves(losses, e) then e else LastImprovement(losses, e - 1)
  }

  /** Patience is used up at epoch `e`: the last PATIENCE epochs, `e`
      included, all failed to improve. */
  predicate ExhaustedAt(losses: seq<real>, e: nat)
    requires e < |losses|
  {
    e - LastImprovement(losses, e) == PATIENCE
  }

  /** Epochs run from epoch `e` on when no earlier epoch used up patience:
      one past the first exhausted epoch, or all of them. */
  function StopFrom(losses: seq<real>, e: nat): (n: nat)
    requires e <= |losses|
    ensures e <= n <= |losses|
    ensures n < |losses| ==> 0 < n && ExhaustedAt(losses, n - 1)
    ensures forall i :: e <= i < n - 1 ==> !ExhaustedAt(losses, i)
    decreases |losses| - e
  {
    if e == |losses| then e
    else if ExhaustedAt(losses, e) then e + 1
    else StopFrom(losses, e + 1)
  }

  /** Epochs run over a loss sequence with one entry per possible epoch. */
  function RunLength(losses: seq<real>): (n: nat)
    ensures n <= |losses|
    ensures n < |losses| ==> 0 < n && ExhaustedAt(losses, n - 1)
    ensures forall i :: 0 <= i < n - 1 ==> !ExhaustedAt(losses, i)
  {
    StopFrom(losses, 0)
  }

  // ---------------------------------------------------------------------
  // The loop as written
  // ---------------------------------------------------------------------

  /** `best_loss`, which starts as `float("inf")`. */
  datatype Best = Infinite | Finite(value: real)

  /** `x` is the smallest of `xs` and occurs in it. */
  ghost predicate IsMin(x: real, xs: seq<real>)
  {
    (forall i :: 0 <= i < |xs| ==> x <= xs[i]) && exists i :: 0 <= i < |xs| && xs[i] == x
  }

  /** The epoch loop of `run_df`: `losses[e]` is the running loss epoch `e`
      would report. Returns the number of epochs that ran. */
  method Train(losses: seq<real>) returns (epochs: nat)
    requires |losses| == EPOCHS
    ensures epochs == RunLength(losses)
  {
    var best := Infinite;
    var patience: int := PATIENCE;
    var e := 0;
    while e < |losses|
      invariant 0 <= e <= |losses|
      invariant e == 0 ==> best == Infinite && patience == PATIENCE
      invariant e > 0 ==> best.Finite? && IsMin(best.value, losses[..e])
      invariant e > 0 ==> patience == PATIENCE - (e - 1 - LastImprovement(losses, e - 1))
      invariant forall i :: 0 <= i < e ==> !ExhaustedAt(losses, i)
      invariant StopFrom(losses, e) == RunLength(losses)
    {
      BestDecides(losses, e, best);
      MinExtends(losses, e, best);
      if best.Infinite? || losses[e] < best.value {
        best := Finite(losses[e]);
        patience := PATIENCE;
      } else {
        patience := patience - 1;
        if patience == 0 {
          return e + 1;
        }
      }
      e := e + 1;
    }
    return |losses|;
  }

  /** Comparing with the running best is comparing with every earlier loss. */
  lemma BestDecides(losses: seq<real>, e: nat, best: Best)
    requires e < |losses|
    requires e == 0 ==> best == Infinite
    requires e > 0 ==> best.Finite? && IsMin(best.value, losses[..e])
    ensures (best.Infinite? || losses[e] < best.value) <==> Improves(losses, e)
  {
    if e > 0 {
      var j :| 0 <= j < e && losses[..e][j] == best.value;
      assert losses[j] == best.value;
      forall i | 0 <= i < e ensures best.value <= losses[i] {
        assert losses[..e][i] == losses[i];
      }
    }
  }

  /** The best after epoch `e` is the smallest loss so far. */
  lemma MinExtends(losses: seq<real>, e: nat, best: Best)
    requires e < |losses|
    requires e == 0 ==> best == Infinite
    requires e > 0 ==> best.Finite? && IsMin(best.value, losses[..e])
    ensures IsMin(if best.Infinite? || losses[e] < best.value then losses[e] else best.value, losses[..e + 1])
  {
    assert losses[..e + 1][e] == losses[e];
    assert forall i :: 0 <= i < e ==> losses[..e + 1][i] == losses[..e][i];
  }

  // ---------------------------------------------------------------------
  // Properties of the stopping rule
  // ---------------------------------------------------------------------

  /** Before patience has run out, the distance to the last improvement is
      at most PATIENCE. */
  lemma {:induction false} GapBounded(losses: seq<real>, e: nat)
    requires e < |losses|
    requires forall i :: 0 <= i < e ==> !ExhaustedAt(losses, i)
    ensures e - LastImprovement(losses, e) <= PATIENCE
  {
    if e > 0 && !Improves(losses, e) {
      GapBounded(losses, e - 1);
      assert !ExhaustedAt(losses, e - 1);
    }
  }

  /** Training never runs more than PATIENCE epochs past the last epoch
      whose loss improved. */
  lemma StopsAfterPatience(losses: seq<real>)
    requires |losses| > 0
    ensures var n := RunLength(losses);
            0 < n && n <= LastImprovement(losses, n - 1) + PATIENCE + 1
  {
    GapBounded(losses, RunLength(losses) - 1);
  }

  /** Training never runs more than EPOCHS epochs, and at least PATIENCE + 1
      (the first epoch always improves). */
  lemma RunBounds(losses: seq<real>)
    requires |losses| == EPOCHS
    ensures PATIENCE + 1 <= RunLength(losses) <= EPOCHS
  {
    var n := RunLength(losses);
    if n < |losses| {
      assert ExhaustedAt(losses, n - 1);
    }
  }

  /** The loop stops early exactly when some epoch uses up patience. */
  lemma StopsEarlyIff(losses: seq<real>)
    ensures RunLength(losses) < |losses| <==> exists e :: 0 <= e < |losses| - 1 && ExhaustedAt(losses, e)
  {
    var n := RunLength(losses);
    if exists e :: 0 <= e < |losses| - 1 && ExhaustedAt(losses, e) {
      var e :| 0 <= e < |losses| - 1 && ExhaustedAt(losses, e);
      assert e >= n - 1;
    }
  }

  /** No epoch after the first improves when every epoch reports the same
      loss. */
  lemma {:induction false} FlatLast(losses: seq<real>, e: nat)
    requires e < |losses|
    requires forall i :: 0 <= i < |losses| ==> losses[i] == losses[0]
    ensures LastImprovement(losses, e) == 0
  {
    if e > 0 {
      assert !(losses[e] < losses[0]);
      FlatLast(losses, e - 1);
    }
  }

  /** With a flat loss sequence the first PATIENCE + 1 epochs run and then
      training stops. */
  lemma {:induction false} FlatStopFrom(losses: seq<real>, e: nat)
    requires |losses| == EPOCHS && e <= PATIENCE
    requires forall i :: 0 <= i < |losses| ==> losses[i] == losses[0]
    ensures StopFrom(losses, e) == PATIENCE + 1
    decreases PATIENCE - e
  {
    FlatLast(losses, e);
    if e < PATIENCE {
      FlatStopFrom(losses, e + 1);
    }
  }

  /** A training set smaller than one batch gives no batches, every epoch
      reports a running loss of 0.0, and training stops after PATIENCE + 1
      epochs. */
  lemma NoBatchesStopsEarly(trainSize: nat, batchLosses: seq<seq<real>>)
    requires trainSize < BATCH_SIZE
    requires |batchLosses| == EPOCHS
    requires forall e :: 0 <= e < |batchLosses| ==> |batchLosses[e]| == FullBatches(trainSize)
    ensures RunLength(seq(EPOCHS, e requires 0 <= e < EPOCHS => EpochLoss(batchLosses[e]))) == PATIENCE + 1
  {
    var losses := seq(EPOCHS, e requires 0 <= e < EPOCHS => EpochLoss(batchLosses[e]));
    assert forall e :: 0 <= e < EPOCHS ==> batchLosses[e] == [];
    assert forall i :: 0 <= i < |losses| ==> losses[i] == losses[0];
    FlatStopFrom(losses, 0);
  }

  /** A strictly decreasing loss improves every epoch, so every epoch runs. */
  lemma {:induction false} DecreasingRunsAll(losses: seq<real>)
    requires forall i, j :: 0 <= i < j < |losses| ==> losses[j] < losses[i]
    ensures RunLength(losses) == |losses|
  {
    forall e | 0 <= e < |losses| ensures !ExhaustedAt(losses, e) {
      assert Improves(losses, e);
    }
  }
}
