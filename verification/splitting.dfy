/** The per-fold train/validation/test split of the binary classifier:
    closed world (each class cut 8:1:1 after a shuffle) and open world
    (whole tags sent to train or test by a biased coin). */
module Splitting {
  import opened Wrappers
  import opened Seqs
  import opened Loading

  /** Rounds of cross-validation. */
  const FOLDS: nat := 10

  datatype Split = Split(train: seq<Uuid>, valid: seq<Uuid>, test: seq<Uuid>)

  function All(r: Split): seq<Uuid>
  {
    r.train + r.valid + r.test
  }

  datatype Mode = ClosedWorld | OpenWorld(p: real)

  /** `--open-world` above 1 is refused before any fold runs. */
  datatype ConfigError = InvalidProbability(p: real)

  function SelectMode(p: real): (r: Result<Mode, ConfigError>)
    ensures r.Err? <==> p > 1.0
    ensures r.Ok? ==> (r.value.OpenWorld? <==> p > 0.0)
    ensures r.Ok? && r.value.OpenWorld? ==> r.value.p == p
  {
    if p > 1.0 then Err(InvalidProbability(p))
    else if p > 0.0 then Ok(OpenWorld(p))
    else Ok(ClosedWorld)
  }

  // ---------------------------------------------------------------------
  // Closed world
  // ---------------------------------------------------------------------

  /** `int(n * 0.8)` and `int(n * 0.9)` for k = 8 and k = 9. */
  function Tenths(n: nat, k: nat): nat
  {
    n * k / 10
  }

  /** One class's shuffled uuids cut at 80% and 90%. */
  function Cut(s: seq<Uuid>): (r: Split)
    ensures All(r) == s
    ensures |r.train| == Tenths(|s|, 8)
    ensures |r.train| + |r.valid| == Tenths(|s|, 9)
  {
    var a, b := Tenths(|s|, 8), Tenths(|s|, 9);
    assert s == s[..a] + s[a..b] + s[b..];
    Split(s[..a], s[a..b], s[b..])
  }

  /** The three parts are within one sample of 80%, 10% and 10%. */
  lemma CutProportions(s: seq<Uuid>)
    ensures 10 * |Cut(s).train| <= 8 * |s| < 10 * |Cut(s).train| + 10
    ensures |s| - 10 < 10 * |Cut(s).valid| < |s| + 10
    ensures |s| <= 10 * |Cut(s).test| < |s| + 10
  {
  }

  /** `shuffled` is the class-`l` uuids in some order (`np.random.shuffle`). */
  ghost predicate Shuffled(s: Store, shuffled: seq<Uuid>, l: int)
  {
    multiset(shuffled) == multiset(Where(s.order, s.labels, l))
  }

  /** Every sample lands in exactly one of the three parts. */
  ghost predicate Partitions(s: Store, r: Split)
  {
    Distinct(All(r)) && forall u :: u in All(r) <==> u in s.labels
  }

  /** Class `l` is cut 8:1:1 on its own. */
  ghost predicate StratifiedClass(s: Store, r: Split, l: int)
  {
    var n := |Where(s.order, s.labels, l)|;
    && |Where(r.train, s.labels, l)| == Tenths(n, 8)
    && |Where(r.valid, s.labels, l)| == Tenths(n, 9) - Tenths(n, 8)
    && |Where(r.test, s.labels, l)| == n - Tenths(n, 9)
  }

  /** Class `l`'s part of each side, in order, is that side of the cut of
      its shuffled list: `uuids[:int(n*0.8)]`, `uuids[int(n*0.8):int(n*0.9)]`
      and `uuids[int(n*0.9):]`. */
  ghost predicate CutClass(s: Store, r: Split, shuffled: seq<Uuid>, l: int)
  {
    && Where(r.train, s.labels, l) == Cut(shuffled).train
    && Where(r.valid, s.labels, l) == Cut(shuffled).valid
    && Where(r.test, s.labels, l) == Cut(shuffled).test
  }

  /** The closed-world branch: each label's uuids shuffled and cut, class 0
      first (`set(labels.values())` iterates the small ints in order; an
      absent class contributes nothing). */
  function ClosedWorldSplit(s: Store, shuffled0: seq<Uuid>, shuffled1: seq<Uuid>): (r: Split)
    requires WellFormed(s) && Shuffled(s, shuffled0, 0) && Shuffled(s, shuffled1, 1)
    ensures Partitions(s, r)
    ensures CutClass(s, r, shuffled0, 0) && CutClass(s, r, shuffled1, 1)
    ensures StratifiedClass(s, r, 0) && StratifiedClass(s, r, 1)
  {
    var c0, c1 := Cut(shuffled0), Cut(shuffled1);
    var r := Split(c0.train + c1.train, c0.valid + c1.valid, c0.test + c1.test);
    ClosedWorldPartitions(s, shuffled0, shuffled1, r);
    ClosedWorldStratified(s, shuffled0, shuffled1, r);
    r
  }

  lemma ClosedWorldPartitions(s: Store, shuffled0: seq<Uuid>, shuffled1: seq<Uuid>, r: Split)
    requires WellFormed(s) && Shuffled(s, shuffled0, 0) && Shuffled(s, shuffled1, 1)
    requires r == Split(Cut(shuffled0).train + Cut(shuffled1).train,
                        Cut(shuffled0).valid + Cut(shuffled1).valid,
                        Cut(shuffled0).test + Cut(shuffled1).test)
    ensures Partitions(s, r)
  {
    var w0, w1 := Where(s.order, s.labels, 0), Where(s.order, s.labels, 1);
    var c0, c1 := Cut(shuffled0), Cut(shuffled1);
    MergedCuts(c0, c1, r);
    assert multiset(All(r)) == multiset(w0 + w1);
    ClassesDistinct(s);
    ClassesCover(s);
    PermutationMembers(All(r), w0 + w1);
  }

  /** Cutting two classes and joining the parts side by side keeps every uuid. */
  lemma MergedCuts(c0: Split, c1: Split, r: Split)
    requires r == Split(c0.train + c1.train, c0.valid + c1.valid, c0.test + c1.test)
    ensures multiset(All(r)) == multiset(All(c0)) + multiset(All(c1))
  {
  }

  /** The two classes together hold exactly the labelled uuids. */
  lemma ClassesCover(s: Store)
    requires WellFormed(s)
    ensures forall u :: u in Where(s.order, s.labels, 0) + Where(s.order, s.labels, 1) <==> u in s.labels
  {
    WhereMembers(s.order, s.labels, 0);
    WhereMembers(s.order, s.labels, 1);
  }

  lemma ClosedWorldStratified(s: Store, shuffled0: seq<Uuid>, shuffled1: seq<Uuid>, r: Split)
    requires Shuffled(s, shuffled0, 0) && Shuffled(s, shuffled1, 1)
    requires r == Split(Cut(shuffled0).train + Cut(shuffled1).train,
                        Cut(shuffled0).valid + Cut(shuffled1).valid,
                        Cut(shuffled0).test + Cut(shuffled1).test)
    ensures CutClass(s, r, shuffled0, 0) && CutClass(s, r, shuffled1, 1)
    ensures StratifiedClass(s, r, 0) && StratifiedClass(s, r, 1)
  {
    var c0, c1 := Cut(shuffled0), Cut(shuffled1);
    ShuffledLabels(s, shuffled0, 0);
    ShuffledLabels(s, shuffled1, 1);
    assert |shuffled0| == |multiset(shuffled0)| && |shuffled1| == |multiset(shuffled1)|;
    assert |multiset(Where(s.order, s.labels, 0))| == |Where(s.order, s.labels, 0)|;
    assert |multiset(Where(s.order, s.labels, 1))| == |Where(s.order, s.labels, 1)|;
    assert forall u :: u in c0.train || u in c0.valid || u in c0.test ==> u in All(c0);
    assert forall u :: u in c1.train || u in c1.valid || u in c1.test ==> u in All(c1);
    ClassesApart(s, c0.train, c1.train);
    ClassesApart(s, c0.valid, c1.valid);
    ClassesApart(s, c0.test, c1.test);
  }

  /** The two classes of a well-formed store, side by side, repeat nothing. */
  lemma ClassesDistinct(s: Store)
    requires WellFormed(s)
    ensures Distinct(Where(s.order, s.labels, 0) + Where(s.order, s.labels, 1))
  {
    var w0, w1 := Where(s.order, s.labels, 0), Where(s.order, s.labels, 1);
    WhereDistinct(s.order, s.labels, 0);
    WhereDistinct(s.order, s.labels, 1);
    var w := w0 + w1;
    forall i, j | 0 <= i < j < |w| ensures w[i] != w[j] {
      if j < |w0| {
        assert w[i] == w0[i] && w[j] == w0[j];
      } else if i >= |w0| {
        assert w[i] == w1[i - |w0|] && w[j] == w1[j - |w0|];
      } else {
        assert s.labels[w[i]] == 0 && s.labels[w[j]] == 1;
      }
    }
  }

  /** Every uuid of a shuffled class carries that class's label. */
  lemma ShuffledLabels(s: Store, shuffled: seq<Uuid>, l: int)
    requires Shuffled(s, shuffled, l)
    ensures forall u :: u in shuffled ==> u in s.labels && s.labels[u] == l
  {
    forall u | u in shuffled ensures u in s.labels && s.labels[u] == l {
      assert u in multiset(shuffled);
      assert u in Where(s.order, s.labels, l);
    }
  }

  /** The class-0 slice followed by the class-1 slice, filtered by label,
      gives each slice back. */
  lemma ClassesApart(s: Store, a: seq<Uuid>, b: seq<Uuid>)
    requires forall u :: u in a ==> u in s.labels && s.labels[u] == 0
    requires forall u :: u in b ==> u in s.labels && s.labels[u] == 1
    ensures Where(a + b, s.labels, 0) == a && Where(a + b, s.labels, 1) == b
  {
    WhereConcat(a, b, s.labels, 0);
    WhereConcat(a, b, s.labels, 1);
    WhereAllOrNone(a, s.labels, 0);
    WhereAllOrNone(b, s.labels, 0);
    WhereAllOrNone(a, s.labels, 1);
    WhereAllOrNone(b, s.labels, 1);
  }

  /** The sizes of the three parts follow from the class sizes. */
  lemma StratifiedSizes(s: Store, r: Split)
    requires WellFormed(s) && Partitions(s, r)
    requires StratifiedClass(s, r, 0) && StratifiedClass(s, r, 1)
    ensures var n0, n1 := |Where(s.order, s.labels, 0)|, |Where(s.order, s.labels, 1)|;
            && |r.train| == Tenths(n0, 8) + Tenths(n1, 8)
            && |r.valid| == Tenths(n0, 9) - Tenths(n0, 8) + Tenths(n1, 9) - Tenths(n1, 8)
            && |r.test| == n0 - Tenths(n0, 9) + n1 - Tenths(n1, 9)
  {
    assert forall u :: u in r.train || u in r.valid || u in r.test ==> u in All(r);
    ClassSizes(r.train, s.labels);
    ClassSizes(r.valid, s.labels);
    ClassSizes(r.test, s.labels);
  }

  /** 100 samples of class 0 and 50 of class 1 give 120 to train, 15 to
      validation and 15 to test. */
  lemma ClosedWorldScenario(s: Store, shuffled0: seq<Uuid>, shuffled1: seq<Uuid>)
    requires WellFormed(s) && Shuffled(s, shuffled0, 0) && Shuffled(s, shuffled1, 1)
    requires |Where(s.order, s.labels, 0)| == 100 && |Where(s.order, s.labels, 1)| == 50
    ensures var r := ClosedWorldSplit(s, shuffled0, shuffled1);
            |r.train| == 120 && |r.valid| == 15 && |r.test| == 15
  {
    ScenarioSizes(s, ClosedWorldSplit(s, shuffled0, shuffled1));
  }

  /** Two samples of class 0 shuffled to [1, 2]: uuid 1 is trained on and
      uuid 2 is tested, with nothing left for validation. */
  lemma ClosedWorldTwoSamples(s: Store)
    requires WellFormed(s) && s.order == [1, 2] && s.labels == map[1 := 0, 2 := 0]
    ensures Shuffled(s, [1, 2], 0) && Shuffled(s, [], 1)
    ensures ClosedWorldSplit(s, [1, 2], []) == Split([1], [], [2])
  {
    WhereAllOrNone(s.order, s.labels, 0);
    WhereAllOrNone(s.order, s.labels, 1);
    var r := ClosedWorldSplit(s, [1, 2], []);
    assert Tenths(2, 8) == 1 && Tenths(2, 9) == 1;
    assert Cut([1, 2]) == Split([1], [], [2]);
    forall u | u in All(r) ensures u in s.labels && s.labels[u] == 0 { }
    assert forall u :: u in r.train || u in r.valid || u in r.test ==> u in All(r);
    WhereAllOrNone(r.train, s.labels, 0);
    WhereAllOrNone(r.valid, s.labels, 0);
    WhereAllOrNone(r.test, s.labels, 0);
  }

  /** Any stratified partition of 100 and 50 samples is 120/15/15. */
  lemma ScenarioSizes(s: Store, r: Split)
    requires WellFormed(s) && Partitions(s, r)
    requires StratifiedClass(s, r, 0) && StratifiedClass(s, r, 1)
    requires |Where(s.order, s.labels, 0)| == 100 && |Where(s.order, s.labels, 1)| == 50
    ensures |r.train| == 120 && |r.valid| == 15 && |r.test| == 15
  {
    StratifiedSizes(s, r);
    assert Tenths(100, 8) == 80 && Tenths(100, 9) == 90;
    assert Tenths(50, 8) == 40 && Tenths(50, 9) == 45;
  }

  // ---------------------------------------------------------------------
  // Open world
  // ---------------------------------------------------------------------

  /** Tag `t` drew a value below `p` (train) or not (test). */
  ghost predicate DrawnTo(t: Tag, tagOrder: seq<Tag>, draws: seq<real>, p: real, toTrain: bool)
    requires |draws| == |tagOrder|
  {
    exists i :: 0 <= i < |tagOrder| && tagOrder[i] == t && (draws[i] < p) == toTrain
  }

  /** The open-world branch: the tags in the order `set(tags.values())`
      yields them, one `np.random.rand()` draw each; all uuids of a tag go
      to train when the draw is below `p`, to test otherwise. */
  function OpenWorldSplit(s: Store, tagOrder: seq<Tag>, draws: seq<real>, p: real): (r: Split)
    requires |draws| == |tagOrder| && Distinct(tagOrder)
    ensures r.valid == []
    ensures forall u :: u in r.train <==> u in s.order && u in s.tags && DrawnTo(s.tags[u], tagOrder, draws, p, true)
    ensures forall u :: u in r.test <==> u in s.order && u in s.tags && DrawnTo(s.tags[u], tagOrder, draws, p, false)
    ensures multiset(r.train + r.test) == multiset(WhereIn(s.order, s.tags, tagOrder))
    decreases |tagOrder|
  {
    if tagOrder == [] then Split([], [], [])
    else
      var n := |tagOrder| - 1;
      DistinctPrefix(tagOrder, n);
      var r := OpenWorldSplit(s, tagOrder[..n], draws[..n], p);
      OpenWorldStep(s, tagOrder, draws, p, r);
      Place(r, Where(s.order, s.tags, tagOrder[n]), draws[n] < p)
  }

  /** One tag's uuids appended to train or to test. */
  function Place(r: Split, ids: seq<Uuid>, toTrain: bool): Split
  {
    if toTrain then Split(r.train + ids, r.valid, r.test) else Split(r.train, r.valid, r.test + ids)
  }

  /** The uuids of `ids` whose tag is one of `ts`, in order. */
  function WhereIn(ids: seq<Uuid>, tags: map<Uuid, Tag>, ts: seq<Tag>): (r: seq<Uuid>)
    ensures forall u :: u in r <==> u in ids && u in tags && tags[u] in ts
    ensures ts == [] ==> r == []
  {
    if ids == [] then []
    else (if ids[0] in tags && tags[ids[0]] in ts then [ids[0]] else []) + WhereIn(ids[1..], tags, ts)
  }

  /** Adding one more tag to the wanted ones adds exactly its uuids. */
  lemma {:induction false} WhereInExtend(ids: seq<Uuid>, tags: map<Uuid, Tag>, ts: seq<Tag>, t: Tag)
    requires t !in ts
    ensures multiset(WhereIn(ids, tags, ts + [t])) == multiset(WhereIn(ids, tags, ts)) + multiset(Where(ids, tags, t))
  {
    if ids != [] {
      WhereInExtend(ids[1..], tags, ts, t);
    }
  }

  lemma OpenWorldStep(s: Store, tagOrder: seq<Tag>, draws: seq<real>, p: real, r: Split)
    requires |draws| == |tagOrder| > 0 && Distinct(tagOrder)
    requires var n := |tagOrder| - 1;
      && r.valid == []
      && (forall u :: u in r.train <==> u in s.order && u in s.tags && DrawnTo(s.tags[u], tagOrder[..n], draws[..n], p, true))
      && (forall u :: u in r.test <==> u in s.order && u in s.tags && DrawnTo(s.tags[u], tagOrder[..n], draws[..n], p, false))
      && multiset(r.train + r.test) == multiset(WhereIn(s.order, s.tags, tagOrder[..n]))
    ensures var n := |tagOrder| - 1;
      var next := Place(r, Where(s.order, s.tags, tagOrder[n]), draws[n] < p);
      && next.valid == []
      && (forall u :: u in next.train <==> u in s.order && u in s.tags && DrawnTo(s.tags[u], tagOrder, draws, p, true))
      && (forall u :: u in next.test <==> u in s.order && u in s.tags && DrawnTo(s.tags[u], tagOrder, draws, p, false))
      && multiset(next.train + next.test) == multiset(WhereIn(s.order, s.tags, tagOrder))
  {
    var n := |tagOrder| - 1;
    var t := tagOrder[n];
    var ids := Where(s.order, s.tags, t);
    WhereMembers(s.order, s.tags, t);
    StepSide(s, tagOrder, draws, p, r.train, ids, true, draws[n] < p);
    StepSide(s, tagOrder, draws, p, r.test, ids, false, !(draws[n] < p));
    StepCount(s, tagOrder, r.train, r.test, ids);
  }

  /** One side after the last tag: it gains that tag's uuids exactly when
      the draw sends the tag there. */
  lemma StepSide(s: Store, tagOrder: seq<Tag>, draws: seq<real>, p: real, side: seq<Uuid>, ids: seq<Uuid>,
                 toTrain: bool, gains: bool)
    requires |draws| == |tagOrder| > 0
    requires var n := |tagOrder| - 1;
      && (forall u :: u in side <==> u in s.order && u in s.tags && DrawnTo(s.tags[u], tagOrder[..n], draws[..n], p, toTrain))
      && (forall u :: u in ids <==> u in s.order && u in s.tags && s.tags[u] == tagOrder[n])
      && gains == ((draws[n] < p) == toTrain)
    ensures forall u :: u in (if gains then side + ids else side) <==>
                        u in s.order && u in s.tags && DrawnTo(s.tags[u], tagOrder, draws, p, toTrain)
  {
    forall u | u in s.tags
      ensures DrawnTo(s.tags[u], tagOrder, draws, p, toTrain) <==>
              DrawnTo(s.tags[u], tagOrder[..|tagOrder| - 1], draws[..|tagOrder| - 1], p, toTrain)
              || (s.tags[u] == tagOrder[|tagOrder| - 1] && gains)
    {
      DrawnToExtend(s.tags[u], tagOrder, draws, p, toTrain);
    }
  }

  /** Both sides together gain exactly the last tag's uuids. */
  lemma StepCount(s: Store, tagOrder: seq<Tag>, train: seq<Uuid>, test: seq<Uuid>, ids: seq<Uuid>)
    requires |tagOrder| > 0 && Distinct(tagOrder)
    requires ids == Where(s.order, s.tags, tagOrder[|tagOrder| - 1])
    requires multiset(train + test) == multiset(WhereIn(s.order, s.tags, tagOrder[..|tagOrder| - 1]))
    ensures multiset(train + ids + test) == multiset(WhereIn(s.order, s.tags, tagOrder))
    ensures multiset(train + (test + ids)) == multiset(WhereIn(s.order, s.tags, tagOrder))
  {
    var n := |tagOrder| - 1;
    assert tagOrder == tagOrder[..n] + [tagOrder[n]];
    DistinctPrefix(tagOrder, n);
    WhereInExtend(s.order, s.tags, tagOrder[..n], tagOrder[n]);
    GainsPart(train, test, ids, WhereIn(s.order, s.tags, tagOrder[..n]), WhereIn(s.order, s.tags, tagOrder));
  }

  /** Adding a piece to either side of a two-way split adds it to the whole. */
  lemma GainsPart(train: seq<Uuid>, test: seq<Uuid>, ids: seq<Uuid>, part: seq<Uuid>, whole: seq<Uuid>)
    requires multiset(train + test) == multiset(part)
    requires multiset(whole) == multiset(part) + multiset(ids)
    ensures multiset(train + ids + test) == multiset(whole)
    ensures multiset(train + (test + ids)) == multiset(whole)
  {
  }

  /** A tag is drawn to a side by the first n tags, or it is the last tag
      and its draw says so. */
  lemma DrawnToExtend(x: Tag, tagOrder: seq<Tag>, draws: seq<real>, p: real, toTrain: bool)
    requires |draws| == |tagOrder| > 0
    ensures var n := |tagOrder| - 1;
            DrawnTo(x, tagOrder, draws, p, toTrain) <==>
            DrawnTo(x, tagOrder[..n], draws[..n], p, toTrain) || (x == tagOrder[n] && (draws[n] < p) == toTrain)
  {
    var n := |tagOrder| - 1;
    if DrawnTo(x, tagOrder, draws, p, toTrain) {
      var i :| 0 <= i < |tagOrder| && tagOrder[i] == x && (draws[i] < p) == toTrain;
      if i < n {
        assert tagOrder[..n][i] == tagOrder[i] && draws[..n][i] == draws[i];
      }
    }
    if DrawnTo(x, tagOrder[..n], draws[..n], p, toTrain) {
      var i :| 0 <= i < n && tagOrder[..n][i] == x && (draws[..n][i] < p) == toTrain;
      assert tagOrder[i] == x && (draws[i] < p) == toTrain;
    }
  }

  /** With distinct tags a tag is drawn to one side only. */
  lemma DrawnToOneSide(t: Tag, tagOrder: seq<Tag>, draws: seq<real>, p: real)
    requires |draws| == |tagOrder| && Distinct(tagOrder)
    ensures !(DrawnTo(t, tagOrder, draws, p, true) && DrawnTo(t, tagOrder, draws, p, false))
  {
    if DrawnTo(t, tagOrder, draws, p, true) {
      var i :| 0 <= i < |tagOrder| && tagOrder[i] == t && draws[i] < p;
      forall j | 0 <= j < |tagOrder| && tagOrder[j] == t ensures draws[j] < p {
        assert i == j;
      }
    }
  }

  /** No tag has uuids on both sides. */
  ghost predicate TagsWhole(s: Store, r: Split)
  {
    forall u, v :: u in r.train && v in r.test ==> u in s.tags && v in s.tags && s.tags[u] != s.tags[v]
  }

  /** The randomness one open-world fold consumes: the distinct tag values
      in iteration order, and one uniform draw in [0, 1) per tag. */
  ghost predicate OpenDraws(s: Store, tagOrder: seq<Tag>, draws: seq<real>)
  {
    && |draws| == |tagOrder| && Distinct(tagOrder)
    && (forall u :: u in s.tags ==> s.tags[u] in tagOrder)
    && (forall t :: t in tagOrder ==> exists u :: u in s.tags && s.tags[u] == t)
    && (forall i :: 0 <= i < |draws| ==> 0.0 <= draws[i] < 1.0)
  }

  /** An open-world fold puts every sample in train or test, once. */
  lemma OpenWorldPartitions(s: Store, tagOrder: seq<Tag>, draws: seq<real>, p: real)
    requires WellFormed(s) && OpenDraws(s, tagOrder, draws)
    ensures Partitions(s, OpenWorldSplit(s, tagOrder, draws, p))
  {
    var r := OpenWorldSplit(s, tagOrder, draws, p);
    TaggedPartitions(s, tagOrder, r);
  }

  lemma TaggedPartitions(s: Store, tagOrder: seq<Tag>, r: Split)
    requires WellFormed(s) && forall u :: u in s.tags ==> s.tags[u] in tagOrder
    requires r.valid == [] && multiset(r.train + r.test) == multiset(WhereIn(s.order, s.tags, tagOrder))
    ensures Partitions(s, r)
  {
    assert forall u :: u in s.order ==> u in s.tags && s.tags[u] in tagOrder;
    WhereInAll(s.order, s.tags, tagOrder);
    DistinctPieces(r.train, r.valid, r.test, s.order);
  }

  /** An open-world fold keeps each tag's samples on one side. */
  lemma OpenWorldTagsWhole(s: Store, tagOrder: seq<Tag>, draws: seq<real>, p: real)
    requires OpenDraws(s, tagOrder, draws)
    ensures TagsWhole(s, OpenWorldSplit(s, tagOrder, draws, p))
  {
    var r := OpenWorldSplit(s, tagOrder, draws, p);
    forall u, v | u in r.train && v in r.test ensures u in s.tags && v in s.tags && s.tags[u] != s.tags[v] {
      DrawnToOneSide(s.tags[u], tagOrder, draws, p);
    }
  }

  /** Keeping every uuid whose tag is wanted keeps all of them when every
      tag is wanted. */
  lemma {:induction false} WhereInAll(ids: seq<Uuid>, tags: map<Uuid, Tag>, ts: seq<Tag>)
    requires forall u :: u in ids ==> u in tags && tags[u] in ts
    ensures WhereIn(ids, tags, ts) == ids
  {
    if ids != [] {
      var u := ids[0];
      assert u in ids;
      assert forall v :: v in ids[1..] ==> v in ids;
      WhereInAll(ids[1..], tags, ts);
      assert ids == [u] + ids[1..];
    }
  }

  /** With training probability 1 every tag goes to train and the test
      part is empty. */
  lemma OpenWorldAllTrain(s: Store, tagOrder: seq<Tag>, draws: seq<real>)
    requires WellFormed(s) && OpenDraws(s, tagOrder, draws)
    ensures var r := OpenWorldSplit(s, tagOrder, draws, 1.0);
            r.test == [] && forall u :: u in s.labels ==> u in r.train
  {
    var r := OpenWorldSplit(s, tagOrder, draws, 1.0);
    forall u | u in s.labels ensures u in r.train {
      var i :| 0 <= i < |tagOrder| && tagOrder[i] == s.tags[u];
    }
    assert forall u :: u in s.tags ==> !DrawnTo(s.tags[u], tagOrder, draws, 1.0, false);
    NoMembers(r.test);
  }

  // ---------------------------------------------------------------------
  // Folds
  // ---------------------------------------------------------------------

  /** The randomness one fold consumes, for both modes. */
  datatype FoldDraws = FoldDraws(shuffled0: seq<Uuid>, shuffled1: seq<Uuid>, tagOrder: seq<Tag>, draws: seq<real>)

  /** What a fold needs of its randomness under `--open-world p`; nothing
      when `p` is refused. */
  ghost predicate DrawsFor(s: Store, p: real, d: FoldDraws)
  {
    if p > 1.0 then true
    else if p > 0.0 then OpenDraws(s, d.tagOrder, d.draws)
    else Shuffled(s, d.shuffled0, 0) && Shuffled(s, d.shuffled1, 1)
  }

  /** Each uuid goes to train exactly when its tag drew below `p`, and to
      test exactly when it did not. */
  ghost predicate PlacedByDraws(s: Store, r: Split, tagOrder: seq<Tag>, draws: seq<real>, p: real)
  {
    && |draws| == |tagOrder|
    && (forall u :: u in r.train <==> u in s.order && u in s.tags && DrawnTo(s.tags[u], tagOrder, draws, p, true))
    && (forall u :: u in r.test <==> u in s.order && u in s.tags && DrawnTo(s.tags[u], tagOrder, draws, p, false))
  }

  /** One fold's split: in open world each tag's uuids go where its draw
      sends them; in closed world each class is its shuffled list, cut. */
  function FoldSplit(s: Store, p: real, d: FoldDraws): (r: Split)
    requires WellFormed(s) && p <= 1.0 && DrawsFor(s, p, d)
    ensures Partitions(s, r)
    ensures p > 0.0 ==> r.valid == [] && TagsWhole(s, r) && PlacedByDraws(s, r, d.tagOrder, d.draws, p)
    ensures p <= 0.0 ==> CutClass(s, r, d.shuffled0, 0) && CutClass(s, r, d.shuffled1, 1)
    ensures p <= 0.0 ==> StratifiedClass(s, r, 0) && StratifiedClass(s, r, 1)
  {
    if p > 0.0 then
      OpenWorldPartitions(s, d.tagOrder, d.draws, p);
      OpenWorldTagsWhole(s, d.tagOrder, d.draws, p);
      OpenWorldSplit(s, d.tagOrder, d.draws, p)
    else ClosedWorldSplit(s, d.shuffled0, d.shuffled1)
  }

  /** The fold loop of `main`: refuse `p > 1`, otherwise one split per fold. */
  function PlanFolds(p: real, s: Store, folds: seq<FoldDraws>): (r: Result<seq<Split>, ConfigError>)
    requires WellFormed(s) && |folds| == FOLDS
    requires forall k :: 0 <= k < |folds| ==> DrawsFor(s, p, folds[k])
    ensures r.Err? <==> p > 1.0
    ensures r.Ok? ==> |r.value| == FOLDS
    ensures r.Ok? ==> forall k :: 0 <= k < FOLDS ==> r.value[k] == FoldSplit(s, p, folds[k])
    ensures r.Ok? ==> forall k :: 0 <= k < FOLDS ==> Partitions(s, r.value[k])
    ensures r.Ok? && p > 0.0 ==> forall k :: 0 <= k < FOLDS ==> r.value[k].valid == [] && TagsWhole(s, r.value[k])
    ensures r.Ok? && p <= 0.0 ==> forall k :: 0 <= k < FOLDS ==>
              StratifiedClass(s, r.value[k], 0) && StratifiedClass(s, r.value[k], 1)
  {
    match SelectMode(p)
    case Err(e) => Err(e)
    case Ok(_) => Ok(seq(|folds|, k requires 0 <= k < |folds| => FoldSplit(s, p, folds[k])))
  }

  /** A prefix of a sequence without repeats has none, and does not hold
      the element that follows it. */
  lemma DistinctPrefix<T>(s: seq<T>, n: nat)
    requires Distinct(s) && n < |s|
    ensures Distinct(s[..n]) && s[n] !in s[..n]
  {
    forall i, j | 0 <= i < j < n ensures s[..n][i] != s[..n][j] {
      assert s[..n][i] == s[i] && s[..n][j] == s[j];
    }
  }
}
