/** The open-world extraction (`extract_ol_format`, `extract_negative_autoloc`):
    each fetch of a capture file becomes labelled samples that join the first
    half of a general circuit's trace with the first half of a rendezvous
    circuit's trace. */
module ExtractOl {
  import opened Wrappers
  import opened Seqs
  import opened Traces
  import opened Circuits

  /** Circuits to these domains are never used. */
  const FILTERED_DOMAINS: seq<string> := ["securedrop.org", "185.220.103.112", "185.220.103.119"]

  /** Cloudflare's onion services and site; skipped when extracting the positive class. */
  const CF_DOMAINS: seq<string> := [
    "cflaresuje2rb7w2u3w43pn4luxdi6o7oatv6r2zrfb5xvsugj35d2qd.onion",
    "cflarexljc3rw355ysrkrzwapozws6nre6xsy3n4yrj7taye3uiby3ad.onion",
    "cflarenuttlfuyn7imozr4atzvfbiw3ezgbdjdldmdx7srterayaozid.onion",
    "cflareki4v3lh674hq55k3n7xd4ibkwx3pnw67rr3gkpsonjmxbktxyd.onion",
    "cflareub6dtu7nvs3kqmoigcjdwap2azrkx5zohb2yk7gqjkwoyotwqd.onion",
    "cflareusni3s7vwhq2f7gc4opsik7aa4t2ajedhzr42ez6uajaywh3qd.onion",
    "cflareer7qekzp3zeyqvcfktxfrmncse4ilc7trbf6bp6yzdabxuload.onion",
    "cflares35lvdlczhy3r6qbza5jjxbcplzvdveabhf7bsp7y4nzmn67yd.onion",
    "cflarejlah424meosswvaeqzb54rtdetr4xva6mq2bm2hfcx5isaglid.onion",
    "cflare2nge4h4yqr3574crrd7k66lil3torzbisz6uciyuzqc2h2ykyd.onion",
    "cloudflare.com"
  ]

  /** Sample identifiers. The source renders them as strings; here each
      format is a constructor, so distinct fields give distinct identifiers. */
  datatype SampleId =
    | FetchId(name: string, tag: string, fetch: int)               // "{name}-{tag}-{fetch}"
    | ComboId(name: string, tag: string, fetch: int, index: nat)   // "{name}-{tag}-{fetch}-{index}"
    | NegativeId(index: nat)                                       // "negative-{index}"

  datatype Sample = Sample(id: SampleId, tag: string, trace: Trace)

  /** The two dictionaries an extraction returns. */
  datatype Extracted<L> = Extracted(labels: map<SampleId, L>, dataset: map<SampleId, Trace>)

  /** The circuit filter of the per-fetch loop. */
  predicate Kept(c: Circuit, positive: bool)
  {
    && c.domain !in FILTERED_DOMAINS
    && !(positive && c.domain in CF_DOMAINS)
    && !(c.kind == KIND_GENERAL && IsDirCircuit(c.cells))
  }

  /** Which circuits the filter skips: filtered domains always, Cloudflare
      domains only for the positive class, general circuits only when they
      carry a directory cell. */
  lemma KeptRules(c: Circuit, positive: bool)
    ensures c.domain in FILTERED_DOMAINS ==> !Kept(c, positive)
    ensures c.domain in CF_DOMAINS && c.domain !in FILTERED_DOMAINS ==>
              (Kept(c, positive) <==> !positive && !(c.kind == KIND_GENERAL && IsDirCircuit(c.cells)))
    ensures (c.kind == KIND_GENERAL && exists i :: 0 <= i < |c.cells| && c.cells[i].relayCmd == RELAY_BEGIN_DIR) ==>
              !Kept(c, positive)
    ensures (c.kind != KIND_GENERAL && c.domain !in FILTERED_DOMAINS && c.domain !in CF_DOMAINS) ==>
              Kept(c, positive)
  {
  }

  /** The circuits of a fetch that pass the filter, in file order. */
  function KeptCircuits(cs: seq<Circuit>, positive: bool): (r: seq<Circuit>)
    ensures forall i :: 0 <= i < |r| ==> Kept(r[i], positive)
  {
    if cs == [] then []
    else (if Kept(cs[0], positive) then [cs[0]] else []) + KeptCircuits(cs[1..], positive)
  }

  /** A circuit is kept exactly when it is one of the fetch's circuits and
      passes the filter. */
  lemma {:induction false} KeptCircuitsMembers(cs: seq<Circuit>, positive: bool, c: Circuit)
    ensures c in KeptCircuits(cs, positive) <==> c in cs && Kept(c, positive)
  {
    if cs != [] {
      KeptCircuitsMembers(cs[1..], positive, c);
      assert cs == [cs[0]] + cs[1..];
    }
  }

  lemma {:induction false} KeptCircuitsConcat(a: seq<Circuit>, b: seq<Circuit>, positive: bool)
    ensures KeptCircuits(a + b, positive) == KeptCircuits(a, positive) + KeptCircuits(b, positive)
  {
    if a == [] {
      assert a + b == b;
    } else {
      assert (a + b)[1..] == a[1..] + b;
      KeptCircuitsConcat(a[1..], b, positive);
    }
  }

  /** The `traces` dictionary of one fetch: kept circuits grouped by kind,
      each converted with `cells2df` at LENGTH. */
  function FetchTraces(circuits: seq<Circuit>, positive: bool): (g: map<int, seq<Trace>>)
    ensures forall k :: k in g ==> g[k] != [] && AllOfLength(g[k], LENGTH)
  {
    var kept := KeptCircuits(circuits, positive);
    var g := GroupByKind(kept, LENGTH);
    assert forall k :: k in g ==> AllOfLength(g[k], LENGTH) by {
      forall k | k in g { TracesLength(kept, k, LENGTH); }
    }
    g
  }

  /** The fetch's `traces` dictionary has a list exactly for the kinds of the
      circuits the filter keeps, each holding the traces of that kind's kept
      circuits in file order. */
  lemma FetchTracesKinds(cs: seq<Circuit>, positive: bool, k: int)
    ensures var g := FetchTraces(cs, positive);
            && (k in g <==> exists i :: 0 <= i < |cs| && Kept(cs[i], positive) && cs[i].kind == k)
            && (k in g ==> g[k] == TracesOfKind(KeptCircuits(cs, positive), k, LENGTH))
  {
    var kept := KeptCircuits(cs, positive);
    var g := GroupByKind(kept, LENGTH);
    assert FetchTraces(cs, positive) == g;
    GroupByKindKeys(kept, LENGTH, k);
    KeptKindIff(cs, positive, k);
  }

  /** Some kept circuit has kind `k` exactly when some circuit of the fetch
      that the filter keeps has it. */
  lemma KeptKindIff(cs: seq<Circuit>, positive: bool, k: int)
    ensures var kept := KeptCircuits(cs, positive);
            (exists m :: 0 <= m < |kept| && kept[m].kind == k)
            <==> exists i :: 0 <= i < |cs| && Kept(cs[i], positive) && cs[i].kind == k
  {
    var kept := KeptCircuits(cs, positive);
    if exists m :: 0 <= m < |kept| && kept[m].kind == k {
      var m :| 0 <= m < |kept| && kept[m].kind == k;
      KeptCircuitsMembers(cs, positive, kept[m]);
      var i :| 0 <= i < |cs| && cs[i] == kept[m];
    }
    if exists i :: 0 <= i < |cs| && Kept(cs[i], positive) && cs[i].kind == k {
      var i :| 0 <= i < |cs| && Kept(cs[i], positive) && cs[i].kind == k;
      KeptCircuitsMembers(cs, positive, cs[i]);
      var m :| 0 <= m < |kept| && kept[m] == cs[i];
    }
  }

  /** Every circuit the filter keeps has its trace in its kind's list. */
  lemma FetchTracesHas(cs: seq<Circuit>, positive: bool, i: nat)
    requires i < |cs| && Kept(cs[i], positive)
    ensures var g := FetchTraces(cs, positive);
            cs[i].kind in g && CircuitTrace(cs[i], LENGTH) in g[cs[i].kind]
  {
    var kept := KeptCircuits(cs, positive);
    KeptCircuitsMembers(cs, positive, cs[i]);
    var m :| 0 <= m < |kept| && kept[m] == cs[i];
    TracesOfKindHas(kept, LENGTH, m);
  }

  /** Every trace in the fetch's `traces` dictionary is the trace of a circuit
      of that kind the filter keeps. */
  lemma FetchTracesOrigin(cs: seq<Circuit>, positive: bool, k: int, j: nat)
    requires var g := FetchTraces(cs, positive); k in g && j < |g[k]|
    ensures exists i :: 0 <= i < |cs| && Kept(cs[i], positive) && cs[i].kind == k
                        && FetchTraces(cs, positive)[k][j] == CircuitTrace(cs[i], LENGTH)
  {
    var kept := KeptCircuits(cs, positive);
    TracesOfKindOrigin(kept, k, LENGTH, j);
    var c :| c in kept && c.kind == k && FetchTraces(cs, positive)[k][j] == CircuitTrace(c, LENGTH);
    KeptCircuitsMembers(cs, positive, c);
    var i :| 0 <= i < |cs| && cs[i] == c;
  }

  /** A skipped circuit contributes nothing: removing it from the fetch leaves
      the grouped traces unchanged. */
  lemma SkippedCircuitIgnored(circuits: seq<Circuit>, i: nat, positive: bool)
    requires i < |circuits| && !Kept(circuits[i], positive)
    ensures FetchTraces(circuits, positive) == FetchTraces(circuits[..i] + circuits[i + 1..], positive)
  {
    var before, after := circuits[..i], circuits[i + 1..];
    assert circuits == before + ([circuits[i]] + after);
    KeptCircuitsConcat(before, [circuits[i]] + after, positive);
    KeptCircuitsConcat([circuits[i]], after, positive);
    KeptCircuitsConcat(before, after, positive);
    assert KeptCircuits([circuits[i]], positive) == [];
    assert KeptCircuits(circuits, positive) == KeptCircuits(before + after, positive);
  }

  /** The trace `get_max_nonzero_trace` picks from a non-empty list. */
  function Largest(ts: seq<Trace>): (t: Trace)
    requires ts != []
    ensures exists k :: IsFirstMax(ts, k) && t == ts[k]
    ensures forall j :: 0 <= j < |ts| ==> NonzeroCount(ts[j]) <= NonzeroCount(t)
  {
    GetMaxNonzeroTrace(ts).value
  }

  /** Every general trace joined with every rendezvous trace, general-major. */
  function Crossed(gs: seq<Trace>, rs: seq<Trace>): (r: seq<Trace>)
    ensures |r| == |gs| * |rs|
  {
    if gs == [] then []
    else seq(|rs|, j requires 0 <= j < |rs| => Join(gs[0], rs[j])) + Crossed(gs[1..], rs)
  }

  lemma {:induction false} CrossedLength(gs: seq<Trace>, rs: seq<Trace>)
    requires AllOfLength(gs, LENGTH) && AllOfLength(rs, LENGTH)
    ensures AllOfLength(Crossed(gs, rs), LENGTH)
  {
    if gs != [] {
      CrossedLength(gs[1..], rs);
    }
  }

  /** The `i`-th combined sample pairs general trace `i / |rs|` with rendezvous
      trace `i % |rs|`: the counter of the nested loop walks the pairs in
      general-major order. */
  lemma {:induction false} CrossedAt(gs: seq<Trace>, rs: seq<Trace>, a: nat, b: nat)
    requires a < |gs| && b < |rs|
    ensures a * |rs| + b < |gs| * |rs|
    ensures Crossed(gs, rs)[a * |rs| + b] == Join(gs[a], rs[b])
  {
    var k := |rs|;
    var head := seq(k, j requires 0 <= j < k => Join(gs[0], rs[j]));
    var rest := Crossed(gs[1..], rs);
    assert Crossed(gs, rs) == head + rest;
    assert |gs| * k == k + |rest|;
    if a == 0 {
      assert a * k + b == b;
    } else {
      CrossedAt(gs[1..], rs, a - 1, b);
      var i := (a - 1) * k + b;
      assert a * k + b == k + i by {
        assert a * k == (a - 1) * k + k;
      }
      assert (head + rest)[k + i] == rest[i];
    }
  }

  /** Positive class: at most one sample, keyed by the fetch identifier. */
  function PositiveSamples(id: SampleId, tag: string, g: map<int, seq<Trace>>, minNonzero: int)
    : (r: seq<Sample>)
    requires KIND_GENERAL in g && KIND_REND in g && g[KIND_GENERAL] != [] && g[KIND_REND] != []
    requires AllOfLength(g[KIND_GENERAL], LENGTH) && AllOfLength(g[KIND_REND], LENGTH)
    ensures |r| <= 1
    ensures forall i :: 0 <= i < |r| ==> r[i].id == id && r[i].tag == tag && |r[i].trace| == LENGTH
  {
    var general := Largest(g[KIND_GENERAL]);
    var rend := Largest(g[KIND_REND]);
    if NonzeroCount(general) < minNonzero || NonzeroCount(rend) < minNonzero then []
    else [Sample(id, tag, Join(general, rend))]
  }

  /** Negative class: every combination, numbered `0 .. k-1`. */
  function NegativeSamples(name: string, tag: string, fetch: int, gs: seq<Trace>, rs: seq<Trace>)
    : (r: seq<Sample>)
    requires AllOfLength(gs, LENGTH) && AllOfLength(rs, LENGTH)
    ensures |r| == |gs| * |rs|
    ensures forall i :: 0 <= i < |r| ==>
              r[i].id == ComboId(name, tag, fetch, i) && r[i].tag == tag && |r[i].trace| == LENGTH
  {
    var joined := Crossed(gs, rs);
    CrossedLength(gs, rs);
    seq(|joined|, i requires 0 <= i < |joined| => Sample(ComboId(name, tag, fetch, i), tag, joined[i]))
  }

  /** The samples of one fetch; `circuits` are the fetch's circuits in file
      order. Only fetches with both a general and a rendezvous trace count. */
  function FetchSamples(name: string, tag: string, fetch: int, circuits: seq<Circuit>,
                        minNonzero: int, positive: bool): (r: seq<Sample>)
    ensures forall i :: 0 <= i < |r| ==> r[i].tag == tag && |r[i].trace| == LENGTH
    ensures positive ==> |r| <= 1 && forall i :: 0 <= i < |r| ==> r[i].id == FetchId(name, tag, fetch)
    ensures !positive ==> forall i :: 0 <= i < |r| ==> r[i].id == ComboId(name, tag, fetch, i)
  {
    var g := FetchTraces(circuits, positive);
    if KIND_GENERAL !in g || KIND_REND !in g then []
    else if positive then PositiveSamples(FetchId(name, tag, fetch), tag, g, minNonzero)
    else NegativeSamples(name, tag, fetch, g[KIND_GENERAL], g[KIND_REND])
  }

  /** Positive class: a fetch yields its one sample exactly when both a
      general and a rendezvous circuit survive the filter and both largest
      traces reach `minNonzero`; the sample is the two largest traces' halves. */
  lemma PositiveFetch(name: string, tag: string, fetch: int, circuits: seq<Circuit>, minNonzero: int)
    ensures var g := FetchTraces(circuits, true);
            var r := FetchSamples(name, tag, fetch, circuits, minNonzero, true);
            && (|r| == 1 <==>
                  KIND_GENERAL in g && KIND_REND in g
                  && NonzeroCount(Largest(g[KIND_GENERAL])) >= minNonzero
                  && NonzeroCount(Largest(g[KIND_REND])) >= minNonzero)
            && (|r| == 1 ==>
                  r[0].trace[..HALF] == Largest(g[KIND_GENERAL])[..HALF]
                  && r[0].trace[HALF..] == Largest(g[KIND_REND])[..HALF])
  {
  }

  /** Negative class: a fetch with both kinds yields one sample per
      (general, rendezvous) pair; any other fetch yields none. */
  lemma NegativeFetch(name: string, tag: string, fetch: int, circuits: seq<Circuit>, minNonzero: int)
    ensures var g := FetchTraces(circuits, false);
            var r := FetchSamples(name, tag, fetch, circuits, minNonzero, false);
            if KIND_GENERAL in g && KIND_REND in g then |r| == |g[KIND_GENERAL]| * |g[KIND_REND]|
            else r == []
  {
  }

  /** The combination numbered `a * |rs| + b` joins general trace `a` with
      rendezvous trace `b`: the counter of the nested loops walks the pairs
      in general-major order. */
  lemma NegativeSamplesAt(name: string, tag: string, fetch: int, gs: seq<Trace>, rs: seq<Trace>, a: nat, b: nat)
    requires AllOfLength(gs, LENGTH) && AllOfLength(rs, LENGTH)
    requires a < |gs| && b < |rs|
    ensures a * |rs| + b < |NegativeSamples(name, tag, fetch, gs, rs)|
    ensures NegativeSamples(name, tag, fetch, gs, rs)[a * |rs| + b]
            == Sample(ComboId(name, tag, fetch, a * |rs| + b), tag, Join(gs[a], rs[b]))
  {
    CrossedAt(gs, rs, a, b);
  }

  /** A sample taken from a file with tag `tag` under directory `name`, of
      the class's identifier kind. */
  predicate FromFile(s: Sample, name: string, tag: string, positive: bool)
  {
    && s.tag == tag && |s.trace| == LENGTH
    && (if positive then s.id.FetchId? else s.id.ComboId?)
    && s.id.name == name && s.id.tag == tag
  }

  /** The samples of one capture file, fetch by fetch in `np.unique` order. */
  function FileSamples(name: string, file: CaptureFile, fetches: seq<int>,
                       minNonzero: int, positive: bool): (r: seq<Sample>)
    ensures positive ==> |r| <= |fetches|
    ensures forall i :: 0 <= i < |r| ==> FromFile(r[i], name, file.tag, positive)
  {
    if fetches == [] then []
    else
      var circuits := CircuitsOfFetch(file.circuits, fetches[0]);
      FetchFromFile(name, file.tag, fetches[0], circuits, minNonzero, positive);
      FetchSamples(name, file.tag, fetches[0], circuits, minNonzero, positive)
      + FileSamples(name, file, fetches[1..], minNonzero, positive)
  }

  lemma FetchFromFile(name: string, tag: string, fetch: int, circuits: seq<Circuit>, minNonzero: int, positive: bool)
    ensures var r := FetchSamples(name, tag, fetch, circuits, minNonzero, positive);
            (positive ==> |r| <= 1) && forall i :: 0 <= i < |r| ==> FromFile(r[i], name, tag, positive)
  {
  }

  /** Every sample of a listed fetch is among the file's samples. */
  lemma {:induction false} FileSamplesHas(name: string, file: CaptureFile, fetches: seq<int>, k: nat,
                                          minNonzero: int, positive: bool, s: Sample)
    requires k < |fetches|
    requires s in FetchSamples(name, file.tag, fetches[k], CircuitsOfFetch(file.circuits, fetches[k]),
                               minNonzero, positive)
    ensures s in FileSamples(name, file, fetches, minNonzero, positive)
  {
    if k > 0 {
      assert fetches[1..][k - 1] == fetches[k];
      FileSamplesHas(name, file, fetches[1..], k - 1, minNonzero, positive, s);
    }
  }

  /** The tags of the capture files, in file order. */
  function FileTags(files: seq<CaptureFile>): (tags: seq<string>)
    ensures |tags| == |files|
    ensures forall j :: 0 <= j < |files| ==> tags[j] == files[j].tag
  {
    seq(|files|, j requires 0 <= j < |files| => files[j].tag)
  }

  /** What every extracted sample satisfies: its identifier names the
      directory and the tag it carries, and that tag is some file's tag. */
  predicate Extractable(s: Sample, files: seq<CaptureFile>, name: string, positive: bool)
  {
    && |s.trace| == LENGTH
    && s.tag in FileTags(files)
    && (if positive then s.id.FetchId? else s.id.ComboId?)
    && s.id.name == name && s.id.tag == s.tag
  }

  /** The samples of all files, in file order. */
  function AllSamples(name: string, files: seq<CaptureFile>, minNonzero: int, positive: bool): (r: seq<Sample>)
    ensures forall i :: 0 <= i < |r| ==> Extractable(r[i], files, name, positive)
  {
    if files == [] then []
    else
      var head := FileSamples(name, files[0], files[0].fetches, minNonzero, positive);
      var tail := AllSamples(name, files[1..], minNonzero, positive);
      assert FileTags(files) == [files[0].tag] + FileTags(files[1..]);
      head + tail
  }

  /** Every sample of every file is among all the samples. */
  lemma {:induction false} AllSamplesHas(name: string, files: seq<CaptureFile>, j: nat,
                                         minNonzero: int, positive: bool, s: Sample)
    requires j < |files|
    requires s in FileSamples(name, files[j], files[j].fetches, minNonzero, positive)
    ensures s in AllSamples(name, files, minNonzero, positive)
  {
    if j > 0 {
      assert files[1..][j - 1] == files[j];
      AllSamplesHas(name, files[1..], j - 1, minNonzero, positive, s);
    }
  }

  /** Storing samples into the two dictionaries in order; a later sample with
      an identifier already present overwrites it. */
  function Store<L>(samples: seq<Sample>, labelOf: Sample -> L): (e: Extracted<L>)
    ensures e.labels.Keys == e.dataset.Keys
    ensures forall id :: id in e.labels <==> exists i :: 0 <= i < |samples| && samples[i].id == id
  {
    if samples == [] then Extracted(map[], map[])
    else
      var n := |samples| - 1;
      var s := samples[n];
      var e := Store(samples[..n], labelOf);
      assert forall i :: 0 <= i < n ==> samples[..n][i] == samples[i];
      Extracted(e.labels[s.id := labelOf(s)], e.dataset[s.id := s.trace])
  }

  /** Every stored entry is the label and trace of some sample with that identifier. */
  lemma {:induction false} StoreOrigin<L>(samples: seq<Sample>, labelOf: Sample -> L, id: SampleId)
    requires id in Store(samples, labelOf).labels
    ensures exists i :: 0 <= i < |samples| && samples[i].id == id
              && Store(samples, labelOf).labels[id] == labelOf(samples[i])
              && Store(samples, labelOf).dataset[id] == samples[i].trace
  {
    var n := |samples| - 1;
    if samples[n].id != id {
      var init := samples[..n];
      StoreOrigin(init, labelOf, id);
      var i :| 0 <= i < |init| && init[i].id == id
              && Store(init, labelOf).labels[id] == labelOf(init[i])
              && Store(init, labelOf).dataset[id] == init[i].trace;
      assert init[i] == samples[i];
    }
  }

  /** Storing one more sample overwrites (or adds) its identifier's entry. */
  lemma StoreStep<L>(samples: seq<Sample>, labelOf: Sample -> L)
    requires samples != []
    ensures var n := |samples| - 1;
            var e := Store(samples[..n], labelOf);
            Store(samples, labelOf).labels == e.labels[samples[n].id := labelOf(samples[n])]
            && Store(samples, labelOf).dataset == e.dataset[samples[n].id := samples[n].trace]
  {
  }

  /** The last sample with a given identifier is the one that stays. */
  lemma {:induction false} StoreLastWins<L>(samples: seq<Sample>, labelOf: Sample -> L, i: nat)
    requires i < |samples|
    requires forall j :: i < j < |samples| ==> samples[j].id != samples[i].id
    ensures samples[i].id in Store(samples, labelOf).labels
    ensures Store(samples, labelOf).labels[samples[i].id] == labelOf(samples[i])
    ensures Store(samples, labelOf).dataset[samples[i].id] == samples[i].trace
  {
    var n := |samples| - 1;
    var id := samples[i].id;
    StoreStep(samples, labelOf);
    if i < n {
      var init := samples[..n];
      assert init[i] == samples[i];
      assert forall j :: i < j < |init| ==> init[j].id != init[i].id by {
        forall j | i < j < |init| ensures init[j].id != init[i].id {
          assert init[j] == samples[j];
        }
      }
      StoreLastWins(init, labelOf, i);
      assert samples[n].id != id;
    }
  }

  /** The label `extract_ol_format` stores for a sample: its file's tag. */
  function TagOf(s: Sample): string
  {
    s.tag
  }

  /** The dictionaries built from `samples` in order: exactly their
      identifiers are keys, every entry is a sample labelled with the tag its
      identifier names, and the last sample with an identifier supplies its
      trace. */
  ghost predicate OlExtracted(e: Extracted<string>, samples: seq<Sample>, files: seq<CaptureFile>,
                              name: string, positive: bool)
  {
    && e.labels.Keys == e.dataset.Keys
    && (forall id :: id in e.labels <==> exists i :: 0 <= i < |samples| && samples[i].id == id)
    && (forall id :: id in e.labels ==>
          Extractable(Sample(id, e.labels[id], e.dataset[id]), files, name, positive) && e.labels[id] == id.tag)
    && (forall i :: 0 <= i < |samples| && (forall j :: i < j < |samples| ==> samples[j].id != samples[i].id) ==>
          samples[i].id in e.dataset && e.dataset[samples[i].id] == samples[i].trace)
  }

  /** Storing extractable samples labelled by their tags gives the
      dictionaries `OlExtracted` describes. */
  lemma StoreExtracted(samples: seq<Sample>, files: seq<CaptureFile>, name: string, positive: bool)
    requires forall i :: 0 <= i < |samples| ==> Extractable(samples[i], files, name, positive)
    ensures OlExtracted(Store(samples, TagOf), samples, files, name, positive)
  {
    var e := Store(samples, TagOf);
    forall id | id in e.labels
      ensures Extractable(Sample(id, e.labels[id], e.dataset[id]), files, name, positive) && e.labels[id] == id.tag
    {
      StoreOrigin(samples, TagOf, id);
      var i :| 0 <= i < |samples| && samples[i].id == id
               && e.labels[id] == TagOf(samples[i]) && e.dataset[id] == samples[i].trace;
      assert Extractable(samples[i], files, name, positive);
    }
    forall i | 0 <= i < |samples| && (forall j :: i < j < |samples| ==> samples[j].id != samples[i].id)
      ensures samples[i].id in e.dataset && e.dataset[samples[i].id] == samples[i].trace
    {
      StoreLastWins(samples, TagOf, i);
    }
  }

  /** The circuits `extract_ol_format` converts: those the filter keeps. */
  function KeptBy(positive: bool): Circuit -> bool
  {
    (c: Circuit) => Kept(c, positive)
  }

  /** `extract_ol_format`. It raises when a circuit it converts has no
      cells; otherwise its dictionaries hold exactly the identifiers of the
      samples the files yield, each labelled with the tag of its file, the
      positive class keyed by fetch identifiers and the negative class by
      numbered combinations, every trace LENGTH long. */
  function ExtractOlFormat(files: seq<CaptureFile>, name: string, minNonzero: int, positive: bool)
    : (r: Result<Extracted<string>, ExtractError>)
    requires forall j :: 0 <= j < |files| ==> UniqueFetches(files[j])
    ensures r.Err? <==> SomeUnconvertible(files, KeptBy(positive))
    ensures r.Ok? ==> OlExtracted(r.value, AllSamples(name, files, minNonzero, positive), files, name, positive)
  {
    if !FilesConvertible(files, KeptBy(positive)) then Err(EmptyCircuit)
    else
      var samples := AllSamples(name, files, minNonzero, positive);
      StoreExtracted(samples, files, name, positive);
      Ok(Store(samples, TagOf))
  }

  /** Every sample a fetch of a file yields is stored, labelled with that
      file's tag. */
  lemma FetchSampleExtracted(files: seq<CaptureFile>, name: string, minNonzero: int, positive: bool,
                             j: nat, k: nat, s: Sample)
    requires forall j :: 0 <= j < |files| ==> UniqueFetches(files[j])
    requires j < |files| && k < |files[j].fetches|
    requires s in FetchSamples(name, files[j].tag, files[j].fetches[k],
                               CircuitsOfFetch(files[j].circuits, files[j].fetches[k]), minNonzero, positive)
    ensures var r := ExtractOlFormat(files, name, minNonzero, positive);
            r.Ok? ==> s.id in r.value.labels && r.value.labels[s.id] == files[j].tag
  {
    FileSamplesHas(name, files[j], files[j].fetches, k, minNonzero, positive, s);
    AllSamplesHas(name, files, j, minNonzero, positive, s);
    var samples := AllSamples(name, files, minNonzero, positive);
    var i :| 0 <= i < |samples| && samples[i] == s;
  }

  /** The circuits `extract_negative_autoloc` collects: those `want` selects
      whose LENGTH trace has at least `minNonzero` nonzero entries. */
  function Qualifying(want: Circuit -> bool, minNonzero: int): Circuit -> bool
  {
    (c: Circuit) => want(c) && NonzeroCount(CircuitTrace(c, LENGTH)) >= minNonzero
  }

  /** The LENGTH traces of a list of circuits, in order. */
  function TracesOf(cs: seq<Circuit>): (ts: seq<Trace>)
    ensures |ts| == |cs|
    ensures forall i :: 0 <= i < |cs| ==> ts[i] == CircuitTrace(cs[i], LENGTH)
  {
    seq(|cs|, i requires 0 <= i < |cs| => CircuitTrace(cs[i], LENGTH))
  }

  lemma TracesOfConcat(a: seq<Circuit>, b: seq<Circuit>)
    ensures TracesOf(a + b) == TracesOf(a) + TracesOf(b)
  {
    var l, r := TracesOf(a + b), TracesOf(a) + TracesOf(b);
    forall i | 0 <= i < |l| ensures l[i] == r[i] {
      if i < |a| {
        assert (a + b)[i] == a[i];
      } else {
        assert (a + b)[i] == b[i - |a|];
      }
    }
  }

  /** The circuits of the listed fetches of a file, fetch by fetch. */
  function ListedCircuits(file: CaptureFile, fetches: seq<int>): (r: seq<Circuit>)
    ensures forall c :: c in r <==> c in file.circuits && c.fetch in fetches
  {
    if fetches == [] then []
    else
      var head := CircuitsOfFetch(file.circuits, fetches[0]);
      var rest := ListedCircuits(file, fetches[1..]);
      assert forall c :: c in head <==> c in file.circuits && c.fetch == fetches[0] by {
        forall c | c in file.circuits && c.fetch == fetches[0] ensures c in head {
          var i :| 0 <= i < |file.circuits| && file.circuits[i] == c;
        }
        forall c | c in head ensures c in file.circuits && c.fetch == fetches[0] {
          var i :| 0 <= i < |head| && head[i] == c;
        }
      }
      assert forall f :: f in fetches <==> f == fetches[0] || f in fetches[1..];
      head + rest
  }

  /** Circuit `c` belongs to one of the files. */
  predicate InSomeFile(files: seq<CaptureFile>, c: Circuit)
  {
    exists j :: 0 <= j < |files| && c in files[j].circuits
  }

  lemma InSomeFileSplit(files: seq<CaptureFile>, c: Circuit)
    requires files != []
    ensures InSomeFile(files, c) <==> c in files[0].circuits || InSomeFile(files[1..], c)
  {
    if InSomeFile(files, c) {
      var j :| 0 <= j < |files| && c in files[j].circuits;
      if j > 0 { assert files[1..][j - 1] == files[j]; }
    }
    if InSomeFile(files[1..], c) {
      var j :| 0 <= j < |files[1..]| && c in files[1..][j].circuits;
      assert files[1..][j] == files[j + 1];
    }
  }

  /** The circuits of every listed fetch of every file, in the order the
      loops visit them; with `np.unique` fetch lists, every circuit of every file. */
  function FilesCircuits(files: seq<CaptureFile>): (r: seq<Circuit>)
    requires forall j :: 0 <= j < |files| ==> UniqueFetches(files[j])
    ensures forall c :: c in r <==> InSomeFile(files, c)
  {
    if files == [] then []
    else
      var head := ListedCircuits(files[0], files[0].fetches);
      var rest := FilesCircuits(files[1..]);
      assert forall c :: c in head <==> c in files[0].circuits by {
        assert UniqueFetches(files[0]);
        forall c | c in files[0].circuits ensures c.fetch in files[0].fetches {
          var i :| 0 <= i < |files[0].circuits| && files[0].circuits[i] == c;
        }
      }
      assert forall c :: c in head + rest <==> InSomeFile(files, c) by {
        forall c { InSomeFileSplit(files, c); }
      }
      head + rest
  }

  /** The qualifying traces of a non-empty list: the first circuit's trace
      when it qualifies, then those of the rest. */
  lemma QualifyingStep(cs: seq<Circuit>, want: Circuit -> bool, minNonzero: int)
    requires cs != []
    ensures var t := CircuitTrace(cs[0], LENGTH);
            TracesOf(Filter(cs, Qualifying(want, minNonzero)))
            == (if want(cs[0]) && NonzeroCount(t) >= minNonzero then [t] else [])
               + TracesOf(Filter(cs[1..], Qualifying(want, minNonzero)))
  {
    var q := Qualifying(want, minNonzero);
    TracesOfFilterStep(cs, q);
    assert q(cs[0]) == (want(cs[0]) && NonzeroCount(CircuitTrace(cs[0], LENGTH)) >= minNonzero);
  }

  lemma TracesOfFilterStep(cs: seq<Circuit>, q: Circuit -> bool)
    requires cs != []
    ensures TracesOf(Filter(cs, q))
            == (if q(cs[0]) then [CircuitTrace(cs[0], LENGTH)] else []) + TracesOf(Filter(cs[1..], q))
  {
    var head := if q(cs[0]) then [cs[0]] else [];
    var rest := Filter(cs[1..], q);
    assert Filter(cs, q) == head + rest;
    TracesOfConcat(head, rest);
    if q(cs[0]) {
      assert TracesOf(head) == [CircuitTrace(cs[0], LENGTH)];
    } else {
      assert TracesOf(head) == [];
    }
  }

  /** The traces `extract_negative_autoloc` collects from one fetch: in
      circuit order, the LENGTH trace of every circuit `want` selects whose
      trace has at least `minNonzero` nonzero entries, and nothing else. */
  function FetchCollected(cs: seq<Circuit>, want: Circuit -> bool, minNonzero: int): (r: seq<Trace>)
    ensures r == TracesOf(Filter(cs, Qualifying(want, minNonzero)))
    ensures forall i :: 0 <= i < |r| ==> |r[i]| == LENGTH && NonzeroCount(r[i]) >= minNonzero
    ensures |r| <= |cs|
  {
    if cs == [] then []
    else
      var t := CircuitTrace(cs[0], LENGTH);
      QualifyingStep(cs, want, minNonzero);
      (if want(cs[0]) && NonzeroCount(t) >= minNonzero then [t] else []) + FetchCollected(cs[1..], want, minNonzero)
  }

  /** The traces collected from the listed fetches of one file. */
  function FileCollected(file: CaptureFile, fetches: seq<int>, want: Circuit -> bool, minNonzero: int)
    : (r: seq<Trace>)
    ensures r == TracesOf(Filter(ListedCircuits(file, fetches), Qualifying(want, minNonzero)))
    ensures forall i :: 0 <= i < |r| ==> |r[i]| == LENGTH && NonzeroCount(r[i]) >= minNonzero
  {
    if fetches == [] then []
    else
      var q := Qualifying(want, minNonzero);
      var head := CircuitsOfFetch(file.circuits, fetches[0]);
      var rest := ListedCircuits(file, fetches[1..]);
      FilterConcat(head, rest, q);
      TracesOfConcat(Filter(head, q), Filter(rest, q));
      FetchCollected(head, want, minNonzero) + FileCollected(file, fetches[1..], want, minNonzero)
  }

  /** The list `extract_negative_autoloc` builds from a list of files, before
      shuffling: the traces of the qualifying circuits of every file's fetches. */
  function Collected(files: seq<CaptureFile>, want: Circuit -> bool, minNonzero: int): (r: seq<Trace>)
    requires forall j :: 0 <= j < |files| ==> UniqueFetches(files[j])
    ensures r == TracesOf(Filter(FilesCircuits(files), Qualifying(want, minNonzero)))
    ensures forall i :: 0 <= i < |r| ==> |r[i]| == LENGTH && NonzeroCount(r[i]) >= minNonzero
  {
    if files == [] then []
    else
      var q := Qualifying(want, minNonzero);
      var head := ListedCircuits(files[0], files[0].fetches);
      var rest := FilesCircuits(files[1..]);
      FilterConcat(head, rest, q);
      TracesOfConcat(Filter(head, q), Filter(rest, q));
      FileCollected(files[0], files[0].fetches, want, minNonzero) + Collected(files[1..], want, minNonzero)
  }

  /** Every circuit of every file that `want` selects and whose trace
      reaches `minNonzero` has its trace collected. */
  lemma CollectedHas(files: seq<CaptureFile>, want: Circuit -> bool, minNonzero: int, j: nat, i: nat)
    requires forall j :: 0 <= j < |files| ==> UniqueFetches(files[j])
    requires j < |files| && i < |files[j].circuits|
    requires want(files[j].circuits[i]) && NonzeroCount(CircuitTrace(files[j].circuits[i], LENGTH)) >= minNonzero
    ensures CircuitTrace(files[j].circuits[i], LENGTH) in Collected(files, want, minNonzero)
  {
    var q := Qualifying(want, minNonzero);
    var all := FilesCircuits(files);
    var kept := Filter(all, q);
    var c := files[j].circuits[i];
    assert InSomeFile(files, c);
    assert c in all && q(c);
    var a :| 0 <= a < |all| && all[a] == c;
    var m :| 0 <= m < |kept| && kept[m] == c;
    assert TracesOf(kept)[m] == CircuitTrace(c, LENGTH);
  }

  /** Every collected trace is the trace of a circuit of some file that
      `want` selects and whose trace reaches `minNonzero`. */
  lemma CollectedOrigin(files: seq<CaptureFile>, want: Circuit -> bool, minNonzero: int, m: nat)
    requires forall j :: 0 <= j < |files| ==> UniqueFetches(files[j])
    requires m < |Collected(files, want, minNonzero)|
    ensures exists j, i :: 0 <= j < |files| && 0 <= i < |files[j].circuits|
                           && want(files[j].circuits[i])
                           && NonzeroCount(CircuitTrace(files[j].circuits[i], LENGTH)) >= minNonzero
                           && Collected(files, want, minNonzero)[m] == CircuitTrace(files[j].circuits[i], LENGTH)
  {
    var q := Qualifying(want, minNonzero);
    var all := FilesCircuits(files);
    var kept := Filter(all, q);
    var c := kept[m];
    assert c in all && q(c);
    assert InSomeFile(files, c);
    var j :| 0 <= j < |files| && c in files[j].circuits;
    var i :| 0 <= i < |files[j].circuits| && files[j].circuits[i] == c;
  }

  /** Clearnet general circuits without a directory cell (no domain filter applies). */
  predicate ClearnetGeneral(c: Circuit)
  {
    c.kind == KIND_GENERAL && !IsDirCircuit(c.cells)
  }

  predicate OnionRend(c: Circuit)
  {
    c.kind == KIND_REND
  }

  /** The identifiers `negative-0 .. negative-(n-1)`: `n` distinct keys. */
  function NegativeIds(n: nat): (ids: set<SampleId>)
    ensures |ids| == n
    ensures forall id :: id in ids <==> id.NegativeId? && id.index < n
  {
    if n == 0 then {}
    else
      var ids := NegativeIds(n - 1);
      assert NegativeId(n - 1) !in ids;
      ids + {NegativeId(n - 1)}
  }

  /** The labels the merge loop stores: 0 for each of the first `n` indices. */
  function ZipLabels(n: nat): (m: map<SampleId, int>)
    ensures m.Keys == NegativeIds(n)
    ensures forall id :: id in m ==> m[id] == 0
  {
    if n == 0 then map[] else ZipLabels(n - 1)[NegativeId(n - 1) := 0]
  }

  /** The traces the merge loop stores: sample `negative-i` joins the i-th
      general trace with the i-th rendezvous trace. */
  function ZipDataset(gs: seq<Trace>, rs: seq<Trace>, n: nat): (m: map<SampleId, Trace>)
    requires n <= |gs| && n <= |rs|
    ensures m.Keys == NegativeIds(n)
    ensures forall i :: 0 <= i < n ==> m[NegativeId(i)] == Join(gs[i], rs[i])
  {
    if n == 0 then map[] else ZipDataset(gs, rs, n - 1)[NegativeId(n - 1) := Join(gs[n - 1], rs[n - 1])]
  }

  /** `extract_negative_autoloc`, with the two `np.random.shuffle` results
      supplied as permutations of the collected lists. It raises when a
      circuit it converts (a clearnet general circuit without a directory
      cell, or an onion rendezvous circuit) has no cells. Otherwise it yields
      as many negative samples as the shorter list holds, all labelled 0,
      sample `negative-i` joining the i-th general with the i-th rendezvous
      trace, each trace reaching `minNonzero`. */
  function ExtractNegativeAutoloc(clearnet: seq<CaptureFile>, onion: seq<CaptureFile>, minNonzero: int,
                                  shuffledGenerals: seq<Trace>, shuffledRends: seq<Trace>)
    : (r: Result<Extracted<int>, ExtractError>)
    requires forall j :: 0 <= j < |clearnet| ==> UniqueFetches(clearnet[j])
    requires forall j :: 0 <= j < |onion| ==> UniqueFetches(onion[j])
    requires multiset(shuffledGenerals) == multiset(Collected(clearnet, ClearnetGeneral, minNonzero))
    requires multiset(shuffledRends) == multiset(Collected(onion, OnionRend, minNonzero))
    ensures r.Err? <==> SomeUnconvertible(clearnet, ClearnetGeneral) || SomeUnconvertible(onion, OnionRend)
    ensures r.Ok? ==> |r.value.labels| == Min(|shuffledGenerals|, |shuffledRends|)
    ensures r.Ok? ==> |r.value.labels| == Min(|Filter(FilesCircuits(clearnet), Qualifying(ClearnetGeneral, minNonzero))|,
                                              |Filter(FilesCircuits(onion), Qualifying(OnionRend, minNonzero))|)
    ensures r.Ok? ==> r.value.labels.Keys == r.value.dataset.Keys
    ensures r.Ok? ==> forall id :: id in r.value.labels ==> r.value.labels[id] == 0
    ensures forall i :: 0 <= i < |shuffledGenerals| ==> NonzeroCount(shuffledGenerals[i]) >= minNonzero
    ensures forall i :: 0 <= i < |shuffledRends| ==> NonzeroCount(shuffledRends[i]) >= minNonzero
    ensures r.Ok? ==> forall i :: 0 <= i < Min(|shuffledGenerals|, |shuffledRends|) ==>
              NegativeId(i) in r.value.dataset
              && r.value.dataset[NegativeId(i)] == Join(shuffledGenerals[i], shuffledRends[i])
    ensures r.Ok? ==> forall id :: id in r.value.dataset ==> |r.value.dataset[id]| == LENGTH
  {
    Shuffled(shuffledGenerals, clearnet, ClearnetGeneral, minNonzero);
    Shuffled(shuffledRends, onion, OnionRend, minNonzero);
    if !FilesConvertible(clearnet, ClearnetGeneral) || !FilesConvertible(onion, OnionRend) then Err(EmptyCircuit)
    else
      Ok(Merged(shuffledGenerals, shuffledRends))
  }

  /** The merge loop over two shuffled lists: `negative-i` for every index
      both lists have, labelled 0 and joining the i-th general with the i-th
      rendezvous trace. */
  function Merged(gs: seq<Trace>, rs: seq<Trace>): (e: Extracted<int>)
    requires forall i :: 0 <= i < |gs| ==> |gs[i]| == LENGTH
    requires forall i :: 0 <= i < |rs| ==> |rs[i]| == LENGTH
    ensures |e.labels| == Min(|gs|, |rs|)
    ensures e.labels.Keys == e.dataset.Keys
    ensures forall id :: id in e.labels ==> id.NegativeId? && id.index < Min(|gs|, |rs|) && e.labels[id] == 0
    ensures forall i :: 0 <= i < Min(|gs|, |rs|) ==>
              NegativeId(i) in e.dataset && e.dataset[NegativeId(i)] == Join(gs[i], rs[i])
    ensures forall id :: id in e.dataset ==> |e.dataset[id]| == LENGTH
  {
    var n := Min(|gs|, |rs|);
    var labels := ZipLabels(n);
    var dataset := ZipDataset(gs, rs, n);
    ZipLengths(gs, rs, n);
    assert |labels| == |NegativeIds(n)|;
    Extracted(labels, dataset)
  }

  /** Joining traces of LENGTH gives traces of LENGTH. */
  lemma ZipLengths(gs: seq<Trace>, rs: seq<Trace>, n: nat)
    requires n <= |gs| && n <= |rs|
    requires forall i :: 0 <= i < |gs| ==> |gs[i]| == LENGTH
    requires forall i :: 0 <= i < |rs| ==> |rs[i]| == LENGTH
    ensures forall id :: id in ZipDataset(gs, rs, n) ==> |ZipDataset(gs, rs, n)[id]| == LENGTH
  {
    forall id | id in ZipDataset(gs, rs, n) ensures |ZipDataset(gs, rs, n)[id]| == LENGTH {
      var i := id.index;
      assert |gs[i]| == LENGTH && |rs[i]| == LENGTH;
    }
  }

  /** A shuffle of the traces collected from `files` holds one trace per
      qualifying circuit, each LENGTH long and reaching `minNonzero`. */
  lemma Shuffled(shuffled: seq<Trace>, files: seq<CaptureFile>, want: Circuit -> bool, minNonzero: int)
    requires forall j :: 0 <= j < |files| ==> UniqueFetches(files[j])
    requires multiset(shuffled) == multiset(Collected(files, want, minNonzero))
    ensures |shuffled| == |Filter(FilesCircuits(files), Qualifying(want, minNonzero))|
    ensures forall i :: 0 <= i < |shuffled| ==> |shuffled[i]| == LENGTH && NonzeroCount(shuffled[i]) >= minNonzero
  {
    PermutedTraces(shuffled, Collected(files, want, minNonzero), minNonzero);
    assert |shuffled| == |multiset(shuffled)|;
  }

  /** A permutation of collected traces still holds only LENGTH traces that reach `minNonzero`. */
  lemma PermutedTraces(shuffled: seq<Trace>, collected: seq<Trace>, minNonzero: int)
    requires multiset(shuffled) == multiset(collected)
    requires forall i :: 0 <= i < |collected| ==> |collected[i]| == LENGTH && NonzeroCount(collected[i]) >= minNonzero
    ensures forall i :: 0 <= i < |shuffled| ==> |shuffled[i]| == LENGTH && NonzeroCount(shuffled[i]) >= minNonzero
  {
    forall i | 0 <= i < |shuffled|
      ensures |shuffled[i]| == LENGTH && NonzeroCount(shuffled[i]) >= minNonzero
    {
      assert shuffled[i] in multiset(shuffled);
      assert shuffled[i] in collected;
    }
  }
}
