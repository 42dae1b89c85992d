/** Loading and merging the two labelled archives (`update_dataset` and the
    start of `main` in the binary classifier), and the baseline accuracy. */
module Loading {
  import opened Wrappers
  import opened Seqs

  /** Sample identifiers: the classifier only stores, compares and orders
      them, so they are modelled as integers. */
  type Uuid = int
  type Tag = string

  /** The classifier's input width: every stored trace is this long,
      whatever `--length` says. */
  const DF_WIDTH: nat := 5000

  /** One archive: `order` is the key order of its uuid -> tag dictionary,
      `traces` its uuid -> trace dictionary (the `[0, :]` row of each array). */
  datatype Archive = Archive(order: seq<Uuid>, tags: map<Uuid, Tag>, traces: map<Uuid, seq<real>>)

  /** The three dictionaries of `main`, plus the shared key order of `labels`
      and `tags` (both gain their keys in the same loop order). */
  datatype Store = Store(order: seq<Uuid>, labels: map<Uuid, int>, tags: map<Uuid, Tag>,
                         traces: map<Uuid, seq<real>>)

  datatype LoadError =
    | ShapeMismatch     // numpy refuses to copy more than DF_WIDTH values into a DF_WIDTH row
    | CountMismatch     // the `len(labels) == len(dataset) == len(tags)` assertion fails
    | NoSamples         // the baseline divides by zero

  /** A Python dictionary's key order: no repeats, and exactly the keys. */
  ghost predicate KeyOrder(order: seq<Uuid>, keys: set<Uuid>)
  {
    Distinct(order) && forall u :: u in keys <==> u in order
  }

  ghost predicate ArchiveOk(a: Archive)
  {
    KeyOrder(a.order, a.tags.Keys)
  }

  /** What a merged store satisfies: `labels` and `tags` share keys in
      `order`, and every label is 0 or 1. */
  ghost predicate WellFormed(s: Store)
  {
    && KeyOrder(s.order, s.labels.Keys)
    && s.labels.Keys == s.tags.Keys
    && (forall u :: u in s.labels ==> s.labels[u] == 0 || s.labels[u] == 1)
  }

  /** One trace of `update_dataset`: a zero row of DF_WIDTH whose first
      `n = min(length, |raw|)` entries are copied from the raw trace. numpy
      raises when `n` exceeds the row. */
  function Fit(raw: seq<real>, length: nat): (r: Result<seq<real>, LoadError>)
    ensures r.Err? <==> Min(length, |raw|) > DF_WIDTH
    ensures r.Ok? ==> |r.value| == DF_WIDTH
    ensures r.Ok? ==> forall i :: 0 <= i < DF_WIDTH ==>
              r.value[i] == if i < Min(length, |raw|) then raw[i] else 0.0
  {
    var n := Min(length, |raw|);
    if n > DF_WIDTH then Err(ShapeMismatch)
    else Ok(raw[..n] + seq(DF_WIDTH - n, _ => 0.0))
  }

  /** With `length <= DF_WIDTH` fitting never fails, and a trace no longer
      than `length` comes back zero-padded but otherwise intact. */
  lemma FitWithinWidth(raw: seq<real>, length: nat)
    requires length <= DF_WIDTH
    ensures Fit(raw, length).Ok?
    ensures |raw| <= length ==> Fit(raw, length).value[..|raw|] == raw
  {
  }

  /** Every trace fits the row once cut to `length`. */
  ghost predicate Fits(traces: map<Uuid, seq<real>>, length: nat)
  {
    forall u :: u in traces ==> Min(length, |traces[u]|) <= DF_WIDTH
  }

  /** The loop over the archive's traces: every trace fitted, or the error. */
  function FitAll(traces: map<Uuid, seq<real>>, length: nat): (r: Result<map<Uuid, seq<real>>, LoadError>)
    ensures r.Ok? <==> Fits(traces, length)
    ensures r.Err? ==> r.error == ShapeMismatch
    ensures r.Ok? ==> r.value.Keys == traces.Keys
    ensures r.Ok? ==> forall u :: u in r.value ==> Ok(r.value[u]) == Fit(traces[u], length)
  {
    if exists u :: u in traces && Fit(traces[u], length).Err? then Err(ShapeMismatch)
    else Ok(map u | u in traces :: Fit(traces[u], length).value)
  }

  /** The uuids of `order` that are not yet keys of `m`, in order. */
  function NewKeys<V>(order: seq<Uuid>, m: map<Uuid, V>): (r: seq<Uuid>)
    ensures forall i :: 0 <= i < |r| ==> r[i] !in m && r[i] in order
    ensures forall i :: 0 <= i < |order| && order[i] !in m ==> order[i] in r
  {
    if order == [] then []
    else (if order[0] in m then [] else [order[0]]) + NewKeys(order[1..], m)
  }

  lemma {:induction false} NewKeysDistinct<V>(order: seq<Uuid>, m: map<Uuid, V>)
    requires Distinct(order)
    ensures Distinct(NewKeys(order, m))
  {
    if order != [] {
      NewKeysDistinct(order[1..], m);
      assert order[0] !in order[1..] by {
        forall i | 0 <= i < |order[1..]| ensures order[1..][i] != order[0] {
          assert order[1..][i] == order[i + 1];
        }
      }
    }
  }

  /** Into an empty dictionary every uuid of the order is new. */
  lemma {:induction false} NewKeysNone<V>(order: seq<Uuid>, m: map<Uuid, V>)
    requires m == map[]
    ensures NewKeys(order, m) == order
  {
    if order != [] {
      NewKeysNone(order[1..], m);
    }
  }

  /** Which uuids are new depends only on the dictionary's keys. */
  lemma {:induction false} NewKeysSameKeys<V, W>(order: seq<Uuid>, m: map<Uuid, V>, n: map<Uuid, W>)
    requires m.Keys == n.Keys
    ensures NewKeys(order, m) == NewKeys(order, n)
  {
    if order != [] {
      assert (order[0] in m) == (order[0] in n);
      NewKeysSameKeys(order[1..], m, n);
    }
  }

  /** The dictionary `m` after assigning `v` to every key of `keys`. */
  function Assign(m: map<Uuid, int>, keys: set<Uuid>, v: int): (r: map<Uuid, int>)
    ensures r.Keys == m.Keys + keys
    ensures forall u :: u in r ==> r[u] == if u in keys then v else m[u]
  {
    m + map u | u in keys :: v
  }

  /** The key order after inserting the keys of `later` in order: new keys
      go to the end, keys already present keep their place. */
  lemma ExtendOrder<V, W>(order: seq<Uuid>, m: map<Uuid, V>, later: seq<Uuid>, n: map<Uuid, W>)
    requires KeyOrder(order, m.Keys) && KeyOrder(later, n.Keys)
    ensures KeyOrder(order + NewKeys(later, m), m.Keys + n.Keys)
  {
    NewKeysDistinct(later, m);
    var r := order + NewKeys(later, m);
    assert Distinct(r);
  }

  /** What `update_dataset` leaves in store `t` after reading archive `a`
      into store `s`: the archive's new uuids join the end of the key order,
      its uuids get label `name` and their tags (a later archive overwrites a
      colliding key), its traces are fitted to DF_WIDTH, and every other
      entry is kept. */
  ghost predicate Updated(t: Store, name: int, a: Archive, s: Store, length: nat)
  {
    && t.order == s.order + NewKeys(a.order, s.labels)
    && t.labels.Keys == s.labels.Keys + a.tags.Keys
    && (forall u :: u in t.labels ==> t.labels[u] == if u in a.tags then name else s.labels[u])
    && t.tags.Keys == s.tags.Keys + a.tags.Keys
    && (forall u :: u in t.tags ==> t.tags[u] == if u in a.tags then a.tags[u] else s.tags[u])
    && t.traces.Keys == s.traces.Keys + a.traces.Keys
    && (forall u :: u in a.traces ==> Ok(t.traces[u]) == Fit(a.traces[u], length))
    && (forall u :: u in s.traces && u !in a.traces ==> t.traces[u] == s.traces[u])
  }

  /** `update_dataset`: it fails, with numpy's shape error, exactly when some
      trace cut to `length` overflows the row; otherwise the store is updated
      as `Updated` says and keeps a proper key order. */
  method UpdateDataset(name: int, a: Archive, s: Store, length: nat) returns (r: Result<Store, LoadError>)
    requires ArchiveOk(a) && KeyOrder(s.order, s.labels.Keys)
    ensures r.Ok? <==> Fits(a.traces, length)
    ensures r.Err? ==> r.error == ShapeMismatch
    ensures r.Ok? ==> KeyOrder(r.value.order, r.value.labels.Keys)
    ensures r.Ok? ==> Updated(r.value, name, a, s, length)
    ensures r.Ok? && (forall u :: u in s.traces ==> |s.traces[u]| == DF_WIDTH) ==>
              forall u :: u in r.value.traces ==> |r.value.traces[u]| == DF_WIDTH
  {
    var fitted := FitAll(a.traces, length);
    if fitted.Err? {
      return Err(fitted.error);
    }
    ExtendOrder(s.order, s.labels, a.order, a.tags);
    r := Ok(Store(s.order + NewKeys(a.order, s.labels), Assign(s.labels, a.tags.Keys, name),
                  s.tags + a.tags, s.traces + fitted.value));
  }

  /** Every uuid of either archive is labelled, by the archive it came from
      last: 1 for the second, 0 for the first. */
  ghost predicate LabelledBy(s: Store, first: Archive, second: Archive)
  {
    && s.labels.Keys == first.tags.Keys + second.tags.Keys
    && (forall u :: u in second.tags ==> s.labels[u] == 1)
    && (forall u :: u in first.tags && u !in second.tags ==> s.labels[u] == 0)
  }

  /** One trace of DF_WIDTH per labelled uuid. */
  ghost predicate Uniform(s: Store)
  {
    && |s.labels| == |s.traces|
    && forall u :: u in s.traces ==> |s.traces[u]| == DF_WIDTH
  }

  /** The merged store and the two counts `main` takes as the dataset sizes:
      the first archive's size, and how many uuids the second one added. */
  datatype Loaded = Loaded(store: Store, firstCount: nat, secondCount: nat)

  /** What `main` holds after loading both archives. */
  ghost predicate MergedFrom(l: Loaded, first: Archive, second: Archive)
  {
    && WellFormed(l.store)
    && LabelledBy(l.store, first, second)
    && Uniform(l.store)
    && l.firstCount == |first.tags|
    && l.firstCount + l.secondCount == |l.store.labels|
  }

  /** How the archives' entries reach the merged store: the first archive's
      key order followed by the second's new uuids, the tags of both (the
      second's on a shared uuid), and every trace fitted to DF_WIDTH, the
      second archive's on a shared uuid. */
  ghost predicate Carried(s: Store, first: Archive, second: Archive, length: nat)
  {
    && s.order == first.order + NewKeys(second.order, first.tags)
    && s.tags.Keys == first.tags.Keys + second.tags.Keys
    && (forall u :: u in s.tags ==> s.tags[u] == if u in second.tags then second.tags[u] else first.tags[u])
    && s.traces.Keys == first.traces.Keys + second.traces.Keys
    && (forall u :: u in second.traces ==> Ok(s.traces[u]) == Fit(second.traces[u], length))
    && (forall u :: u in first.traces && u !in second.traces ==> Ok(s.traces[u]) == Fit(first.traces[u], length))
  }

  /** The store `main` starts from. */
  const EMPTY_STORE: Store := Store([], map[], map[], map[])

  /** The two `update_dataset` calls of `main` and the count assertion after
      them: label 0 for the first archive, label 1 for the second. Loading
      fails with numpy's shape error when a trace of either archive
      overflows the row, and with the assertion when the archives' trace
      uuids and tag uuids differ in number; otherwise both archives are
      carried into the store. */
  method Merge(first: Archive, second: Archive, length: nat) returns (r: Result<Loaded, LoadError>)
    requires ArchiveOk(first) && ArchiveOk(second)
    ensures r.Err? <==> !Fits(first.traces, length) || !Fits(second.traces, length)
                        || |first.traces.Keys + second.traces.Keys| != |first.tags.Keys + second.tags.Keys|
    ensures r.Err? ==> (r.error == ShapeMismatch <==> !Fits(first.traces, length) || !Fits(second.traces, length))
    ensures r.Ok? ==> MergedFrom(r.value, first, second) && Carried(r.value.store, first, second, length)
    ensures first.traces.Keys == first.tags.Keys && second.traces.Keys == second.tags.Keys
            && Fits(first.traces, length) && Fits(second.traces, length)
            ==> r.Ok?
  {
    var r1 := UpdateDataset(0, first, EMPTY_STORE, length);
    if r1.Err? {
      return Err(r1.error);
    }
    var s1 := r1.value;
    assert forall u :: u in s1.traces ==> |s1.traces[u]| == DF_WIDTH;
    var r2 := UpdateDataset(1, second, s1, length);
    if r2.Err? {
      return Err(r2.error);
    }
    var s2 := r2.value;
    MergedStore(first, second, s1, s2, length);
    if |s2.labels| == |s2.traces| && |s2.traces| == |s2.tags| {
      r := Ok(Loaded(s2, |s1.labels|, |s2.labels| - |s1.labels|));
    } else {
      r := Err(CountMismatch);
    }
  }

  /** What the two updates leave behind, from their contracts alone. */
  lemma MergedStore(first: Archive, second: Archive, s1: Store, s2: Store, length: nat)
    requires Updated(s1, 0, first, EMPTY_STORE, length) && Updated(s2, 1, second, s1, length)
    requires KeyOrder(s2.order, s2.labels.Keys)
    ensures WellFormed(s2) && LabelledBy(s2, first, second) && Carried(s2, first, second, length)
    ensures |s1.labels| == |first.tags| <= |s2.labels|
    ensures |s2.labels| == |s2.tags| == |first.tags.Keys + second.tags.Keys|
    ensures |s2.traces| == |first.traces.Keys + second.traces.Keys|
  {
    MergedLabels(first, second, s1, s2, length);
    MergedCarried(first, second, s1, s2, length);
  }

  lemma MergedLabels(first: Archive, second: Archive, s1: Store, s2: Store, length: nat)
    requires Updated(s1, 0, first, EMPTY_STORE, length) && Updated(s2, 1, second, s1, length)
    requires KeyOrder(s2.order, s2.labels.Keys)
    ensures WellFormed(s2) && LabelledBy(s2, first, second)
    ensures |s1.labels| == |first.tags| <= |s2.labels|
    ensures |s2.labels| == |s2.tags| == |first.tags.Keys + second.tags.Keys|
  {
    assert s1.labels.Keys == first.tags.Keys;
    SubsetCard(s1.labels.Keys, s2.labels.Keys);
    assert s2.labels.Keys == s2.tags.Keys;
  }

  lemma MergedCarried(first: Archive, second: Archive, s1: Store, s2: Store, length: nat)
    requires Updated(s1, 0, first, EMPTY_STORE, length) && Updated(s2, 1, second, s1, length)
    ensures Carried(s2, first, second, length)
    ensures |s2.traces| == |first.traces.Keys + second.traces.Keys|
  {
    NewKeysNone(first.order, EMPTY_STORE.labels);
    assert s1.order == first.order;
    assert s1.labels.Keys == first.tags.Keys;
    NewKeysSameKeys(second.order, s1.labels, first.tags);
    assert s1.traces.Keys == first.traces.Keys;
  }

  lemma SubsetCard<T>(a: set<T>, b: set<T>)
    requires a <= b
    ensures |a| <= |b|
  {
    assert b == a + (b - a);
  }

  /** The uuids of `ids` that `m` maps to `v`, in order: the list
      comprehensions over `labels` and `tags` in the split loops. */
  function Where<V(==)>(ids: seq<Uuid>, m: map<Uuid, V>, v: V): (r: seq<Uuid>)
    ensures |r| <= |ids|
    ensures forall i :: 0 <= i < |r| ==> r[i] in ids && r[i] in m && m[r[i]] == v
    ensures forall i :: 0 <= i < |ids| && ids[i] in m && m[ids[i]] == v ==> ids[i] in r
  {
    if ids == [] then []
    else (if ids[0] in m && m[ids[0]] == v then [ids[0]] else []) + Where(ids[1..], m, v)
  }

  /** Membership in a filter, stated on elements rather than indices. */
  lemma WhereMembers<V>(ids: seq<Uuid>, m: map<Uuid, V>, v: V)
    ensures forall u :: u in Where(ids, m, v) <==> u in ids && u in m && m[u] == v
  {
    forall u | u in ids && u in m && m[u] == v ensures u in Where(ids, m, v) {
      var i :| 0 <= i < |ids| && ids[i] == u;
    }
  }

  lemma {:induction false} WhereDistinct<V>(ids: seq<Uuid>, m: map<Uuid, V>, v: V)
    requires Distinct(ids)
    ensures Distinct(Where(ids, m, v))
  {
    if ids != [] {
      var rest := ids[1..];
      assert Distinct(rest) by {
        forall i, j | 0 <= i < j < |rest| ensures rest[i] != rest[j] {
          assert rest[i] == ids[i + 1] && rest[j] == ids[j + 1];
        }
      }
      WhereDistinct(rest, m, v);
      assert ids[0] !in rest by {
        forall k | 0 <= k < |rest| ensures rest[k] != ids[0] {
          assert rest[k] == ids[k + 1];
        }
      }
    }
  }

  lemma {:induction false} WhereConcat<V>(a: seq<Uuid>, b: seq<Uuid>, m: map<Uuid, V>, v: V)
    ensures Where(a + b, m, v) == Where(a, m, v) + Where(b, m, v)
  {
    if a != [] {
      var head := if a[0] in m && m[a[0]] == v then [a[0]] else [];
      assert (a + b)[0] == a[0];
      assert (a + b)[1..] == a[1..] + b;
      WhereConcat(a[1..], b, m, v);
      assert Where(a + b, m, v) == head + (Where(a[1..], m, v) + Where(b, m, v));
      assert Where(a, m, v) == head + Where(a[1..], m, v);
    } else {
      assert a + b == b;
    }
  }

  /** Filtering keeps everything when every uuid maps to `v`, and nothing
      when none does. */
  lemma {:induction false} WhereAllOrNone<V>(ids: seq<Uuid>, m: map<Uuid, V>, v: V)
    ensures (forall u :: u in ids ==> u in m && m[u] == v) ==> Where(ids, m, v) == ids
    ensures (forall u :: u in ids ==> u !in m || m[u] != v) ==> Where(ids, m, v) == []
  {
    if ids != [] {
      var u := ids[0];
      assert u in ids;
      assert forall u :: u in ids[1..] ==> u in ids;
      WhereAllOrNone(ids[1..], m, v);
    }
  }

  /** Every uuid labelled 0 or 1 lands in exactly one of the two classes, so
      the class sizes add up to the number of uuids. */
  lemma {:induction false} ClassSizes(ids: seq<Uuid>, labels: map<Uuid, int>)
    requires forall u :: u in ids ==> u in labels && (labels[u] == 0 || labels[u] == 1)
    ensures |Where(ids, labels, 0)| + |Where(ids, labels, 1)| == |ids|
  {
    if ids != [] {
      var u := ids[0];
      assert u in ids;
      assert u in labels;
      ClassSizes(ids[1..], labels);
    }
  }

  function Larger(a: nat, b: nat): nat
  {
    if a >= b then a else b
  }

  /** The larger of two counts as a share of their sum. */
  function MajorityShare(a: nat, b: nat): (r: real)
    requires a + b > 0
    ensures 1.0 / 2.0 <= r <= 1.0
    ensures r * (a + b) as real == Larger(a, b) as real
  {
    ShareBounds(Larger(a, b) as real, (a + b) as real);
    Larger(a, b) as real / (a + b) as real
  }

  lemma ShareBounds(m: real, t: real)
    requires 0.0 < t && 0.0 <= m <= t && 2.0 * m >= t
    ensures 1.0 / 2.0 <= m / t <= 1.0
    ensures (m / t) * t == m
  {
    var r := m / t;
    assert r * t == m;
    assert r <= 1.0 by {
      assert (1.0 - r) * t == t - m;
    }
    assert 0.5 <= r by {
      var d := r - 0.5;
      assert d * t == m - 0.5 * t;
      assert m - 0.5 * t >= 0.0;
    }
  }

  /** The baseline accuracy as `main` computes it: the larger of the two
      dataset sizes over the number of samples. */
  function BaselineAsWritten(l: Loaded): (r: Result<real, LoadError>)
    ensures r.Err? <==> l.firstCount + l.secondCount == 0
    ensures r.Ok? ==> r.value * (l.firstCount + l.secondCount) as real == Larger(l.firstCount, l.secondCount) as real
  {
    if l.firstCount + l.secondCount == 0 then Err(NoSamples)
    else Ok(MajorityShare(l.firstCount, l.secondCount))
  }

  /** The baseline accuracy as intended: the larger class's share of all
      samples, counting each sample under the label it carries. */
  function Baseline(s: Store): (r: Result<real, LoadError>)
    requires WellFormed(s)
    ensures r.Err? <==> |s.labels| == 0
    ensures r.Ok? ==> 1.0 / 2.0 <= r.value <= 1.0
    ensures r.Ok? ==> |Where(s.order, s.labels, 0)| + |Where(s.order, s.labels, 1)| == |s.labels| > 0
    ensures r.Ok? ==> r.value == MajorityShare(|Where(s.order, s.labels, 0)|, |Where(s.order, s.labels, 1)|)
  {
    StoreClassSizes(s);
    if |s.labels| == 0 then Err(NoSamples)
    else Ok(MajorityShare(|Where(s.order, s.labels, 0)|, |Where(s.order, s.labels, 1)|))
  }

  /** The uuids of a key order that carry label `l` are themselves a key
      order, of exactly the keys labelled `l`. */
  lemma {:induction false} WhereKeyOrder<V>(order: seq<Uuid>, labels: map<Uuid, V>, l: V, keys: set<Uuid>)
    requires KeyOrder(order, labels.Keys)
    requires forall u :: u in keys <==> u in labels && labels[u] == l
    ensures KeyOrder(Where(order, labels, l), keys)
    decreases |order|
  {
    var w := Where(order, labels, l);
    if order != [] {
      var rest := order[1..];
      var m := labels - {order[0]};
      assert order[0] !in rest;
      assert KeyOrder(rest, m.Keys) by {
        forall u ensures u in m.Keys <==> u in rest {
          if u in rest {
            var i :| 0 <= i < |rest| && rest[i] == u;
            assert order[i + 1] == u;
          }
        }
      }
      WhereKeyOrder(rest, m, l, keys - {order[0]});
      assert Where(rest, m, l) == Where(rest, labels, l) by {
        WhereOutside(rest, labels, m, l);
      }
    }
  }

  /** Filtering by label only looks at the uuids being filtered. */
  lemma {:induction false} WhereOutside<V>(ids: seq<Uuid>, labels: map<Uuid, V>, m: map<Uuid, V>, l: V)
    requires forall i :: 0 <= i < |ids| ==> (ids[i] in m <==> ids[i] in labels)
    requires forall i :: 0 <= i < |ids| && ids[i] in m ==> m[ids[i]] == labels[ids[i]]
    ensures Where(ids, m, l) == Where(ids, labels, l)
  {
    if ids != [] {
      WhereOutside(ids[1..], labels, m, l);
    }
  }

  /** When no uuid is in both archives, the two counts of `main` are the
      class sizes, and the baseline it reports is the intended one. */
  lemma BaselineWithoutOverlap(l: Loaded, first: Archive, second: Archive)
    requires MergedFrom(l, first, second)
    requires first.tags.Keys !! second.tags.Keys
    ensures BaselineAsWritten(l) == Baseline(l.store)
  {
    var s := l.store;
    WhereKeyOrder(s.order, s.labels, 1, second.tags.Keys);
    KeyOrderSize(Where(s.order, s.labels, 1), second.tags.Keys);
    WhereKeyOrder(s.order, s.labels, 0, first.tags.Keys);
    KeyOrderSize(Where(s.order, s.labels, 0), first.tags.Keys);
  }

  /** A uuid in both archives: `main` counts it for the first archive, but
      it carries label 1, so every sample is of class 1 and the intended
      baseline is 1 while the reported one is 1/2. */
  lemma BaselineOverlapCounterexample(l: Loaded)
    requires MergedFrom(l, Archive([1], map[1 := "t"], map[1 := []]),
                           Archive([1, 2], map[1 := "t", 2 := "t"], map[1 := [], 2 := []]))
    ensures BaselineAsWritten(l) == Ok(1.0 / 2.0)
    ensures Baseline(l.store) == Ok(1.0)
  {
    var s := l.store;
    assert s.labels.Keys == {1, 2};
    assert |s.labels| == 2;
    assert l.firstCount == 1 && l.secondCount == 1;
    assert MajorityShare(1, 1) == 1.0 / 2.0;
    AllOneClass(s, {1, 2});
  }

  lemma WholeShare(n: nat)
    requires n > 0
    ensures MajorityShare(0, n) == 1.0
  {
    var x := n as real;
    assert Larger(0, n) as real == x && (0 + n) as real == x;
    assert x / x == 1.0;
  }

  /** A store whose every sample has label 1 has intended baseline 1. */
  lemma AllOneClass(s: Store, keys: set<Uuid>)
    requires WellFormed(s) && s.labels.Keys == keys && |keys| > 0
    requires forall u :: u in keys ==> s.labels[u] == 1
    ensures Baseline(s) == Ok(1.0)
  {
    WhereKeyOrder(s.order, s.labels, 1, keys);
    KeyOrderSize(Where(s.order, s.labels, 1), keys);
    StoreClassSizes(s);
    var n := |keys|;
    assert |Where(s.order, s.labels, 1)| == n;
    assert |Where(s.order, s.labels, 0)| == 0;
    WholeShare(n);
  }

  /** In a well-formed store the two classes together are all samples. */
  lemma StoreClassSizes(s: Store)
    requires WellFormed(s)
    ensures |Where(s.order, s.labels, 0)| + |Where(s.order, s.labels, 1)| == |s.labels|
  {
    KeyOrderSize(s.order, s.labels.Keys);
    ClassSizes(s.order, s.labels);
  }

  /** A key order lists every key once, so it is as long as the dictionary. */
  lemma {:induction false} KeyOrderSize(order: seq<Uuid>, m: set<Uuid>)
    requires KeyOrder(order, m)
    ensures |order| == |m|
    decreases |order|
  {
    if order == [] {
      assert forall u :: u !in m;
      assert m == {};
    } else {
      var u := order[|order| - 1];
      var init := order[..|order| - 1];
      var m' := m - {u};
      assert Distinct(init);
      assert forall v :: v in m' <==> v in init by {
        forall v ensures v in m' <==> v in init {
          if v in init {
            var i :| 0 <= i < |init| && init[i] == v;
            assert order[i] == v;
          }
          if v in order && v != u {
            var i :| 0 <= i < |order| && order[i] == v;
            assert i < |order| - 1;
            assert init[i] == v;
          }
        }
      }
      KeyOrderSize(init, m');
      assert m == m' + {u};
    }
  }
}
