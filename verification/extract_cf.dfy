/** The circuit-fingerprinting extraction (`extract_dataset`, `process_kinds`):
    every kept circuit of a selected kind becomes one 512-entry sample. */
module ExtractCf {
  import opened Wrappers
  import opened Seqs
  import opened Traces
  import opened Circuits

  /** The fetch identifier `"{name}-{tag}-{fetch}"`. */
  datatype FetchKey = FetchKey(name: string, tag: string, fetch: int)

  /** The sample identifier `"{uuid}-{kind}-{index}"`. As with `FetchKey`,
      the string rendering is replaced by a constructor. */
  datatype KindId = KindId(uuid: FetchKey, kind: int, index: nat)

  datatype Extracted = Extracted(labels: map<KindId, string>, dataset: map<KindId, Trace>)

  /** `cells2df` with its default length of 512. */
  function CfTrace(c: Circuit): (t: Trace)
    ensures |t| == CF_LENGTH
    ensures forall i :: 0 <= i < CF_LENGTH ==>
              t[i] == if i < |KeptCells(c.cells)| then KeptCells(c.cells)[i].direction else 0
  {
    CircuitTrace(c, CF_LENGTH)
  }

  /** The only circuit filter of `extract_dataset`: a general circuit with a
      directory cell is skipped; no domain filter applies. */
  predicate CfKept(c: Circuit)
  {
    !(c.kind == KIND_GENERAL && IsDirCircuit(c.cells))
  }

  /** The `traces` dictionary of one fetch. */
  function FetchGroups(circuits: seq<Circuit>): map<int, seq<Trace>>
  {
    GroupByKind(Filter(circuits, CfKept), CF_LENGTH)
  }

  /** Circuits of any kind other than general are grouped regardless of
      their cells: each such kind gets every one of its circuits, in order. */
  lemma OtherKindsKept(circuits: seq<Circuit>, k: int)
    requires k != KIND_GENERAL
    ensures k in FetchGroups(circuits) <==> exists i :: 0 <= i < |circuits| && circuits[i].kind == k
    ensures k in FetchGroups(circuits) ==>
              FetchGroups(circuits)[k] == TracesOfKind(circuits, k, CF_LENGTH)
  {
    TracesOfKindFilter(circuits, CfKept, k, CF_LENGTH);
    TracesOfKindEmpty(circuits, k, CF_LENGTH);
  }

  /** A general circuit with a directory cell contributes nothing: dropping
      it from the fetch leaves the grouped traces unchanged. */
  lemma DirCircuitExcluded(circuits: seq<Circuit>, i: nat)
    requires i < |circuits| && circuits[i].kind == KIND_GENERAL
    requires exists j :: 0 <= j < |circuits[i].cells| && circuits[i].cells[j].relayCmd == RELAY_BEGIN_DIR
    ensures FetchGroups(circuits) == FetchGroups(circuits[..i] + circuits[i + 1..])
  {
    assert IsDirCircuit(circuits[i].cells);
    FilterDropsRejected(circuits, i, CfKept);
  }

  /** `id` is one of the identifiers `process_kinds` generates for `uuid`:
      a listed kind that has traces, and an index within that kind's list. */
  predicate Generated<V>(id: KindId, uuid: FetchKey, kinds: seq<int>, values: map<int, seq<V>>)
  {
    id.uuid == uuid && id.kind in kinds && id.kind in values && id.index < |values[id.kind]|
  }

  /** `id` is `uuid-kind-i` for some `i < n`. */
  predicate InKind(id: KindId, uuid: FetchKey, kind: int, n: nat)
  {
    id.uuid == uuid && id.kind == kind && id.index < n
  }

  /** The inner loop for one kind: entry `uuid-kind-i` gets `vals[i]`. */
  function PutKind<V>(m: map<KindId, V>, uuid: FetchKey, kind: int, vals: seq<V>): (r: map<KindId, V>)
    ensures forall id :: id in r <==> id in m || InKind(id, uuid, kind, |vals|)
    ensures forall id :: InKind(id, uuid, kind, |vals|) ==> r[id] == vals[id.index]
    ensures forall id :: id in m && !InKind(id, uuid, kind, |vals|) ==> r[id] == m[id]
  {
    if vals == [] then m
    else
      var n := |vals| - 1;
      var r := PutKind(m, uuid, kind, vals[..n]);
      r[KindId(uuid, kind, n) := vals[n]]
  }

  /** The outer loop over `kinds`; kinds without traces are skipped. */
  function PutKinds<V>(m: map<KindId, V>, uuid: FetchKey, kinds: seq<int>, values: map<int, seq<V>>)
    : (r: map<KindId, V>)
    ensures forall id :: id in r <==> id in m || Generated(id, uuid, kinds, values)
    ensures forall id :: Generated(id, uuid, kinds, values) ==> r[id] == values[id.kind][id.index]
    ensures forall id :: id in m && !Generated(id, uuid, kinds, values) ==> r[id] == m[id]
  {
    if kinds == [] then m
    else
      var n := |kinds| - 1;
      var init := kinds[..n];
      var r := PutKinds(m, uuid, init, values);
      assert forall k :: k in kinds <==> k in init || k == kinds[n];
      if kinds[n] in values then PutKind(r, uuid, kinds[n], values[kinds[n]]) else r
  }

  /** `process_kinds`: for every listed kind present in `traces`, entry
      `uuid-kind-i` is labelled `tag` and holds the kind's i-th trace; every
      other entry is left as it was. */
  function ProcessKinds(kinds: seq<int>, uuid: FetchKey, tag: string, traces: map<int, seq<Trace>>,
                        e: Extracted): (r: Extracted)
    ensures forall id :: id in r.labels <==> id in e.labels || Generated(id, uuid, kinds, traces)
    ensures forall id :: id in r.dataset <==> id in e.dataset || Generated(id, uuid, kinds, traces)
    ensures forall id :: Generated(id, uuid, kinds, traces) ==>
              r.labels[id] == tag && r.dataset[id] == traces[id.kind][id.index]
    ensures forall id :: id in e.labels && !Generated(id, uuid, kinds, traces) ==> r.labels[id] == e.labels[id]
    ensures forall id :: id in e.dataset && !Generated(id, uuid, kinds, traces) ==> r.dataset[id] == e.dataset[id]
  {
    var tags := map k | k in traces :: seq(|traces[k]|, _ => tag);
    assert forall id :: Generated(id, uuid, kinds, tags) <==> Generated(id, uuid, kinds, traces);
    Extracted(PutKinds(e.labels, uuid, kinds, tags), PutKinds(e.dataset, uuid, kinds, traces))
  }

  /** Kinds that are not listed, or listed but absent from `traces`, add nothing. */
  lemma AbsentKindsAddNothing(kinds: seq<int>, uuid: FetchKey, tag: string, traces: map<int, seq<Trace>>,
                              e: Extracted)
    requires forall i :: 0 <= i < |kinds| ==> kinds[i] !in traces
    ensures ProcessKinds(kinds, uuid, tag, traces, e) == e
  {
    var r := ProcessKinds(kinds, uuid, tag, traces, e);
    assert r.labels == e.labels;
    assert r.dataset == e.dataset;
  }

  /** What the accumulated dictionaries of `extract_dataset` satisfy: the
      same keys, every label the tag of the sample's own fetch, every kind a
      listed one, every trace 512 entries long. */
  predicate Consistent(e: Extracted, kinds: seq<int>, name: string)
  {
    && e.labels.Keys == e.dataset.Keys
    && (forall id :: id in e.labels ==> id.uuid.name == name && id.kind in kinds && e.labels[id] == id.uuid.tag)
    && (forall id :: id in e.dataset ==> |e.dataset[id]| == CF_LENGTH)
  }

  /** The grouped traces of fetch `f` of a file. */
  function Groups(file: CaptureFile, f: int): map<int, seq<Trace>>
  {
    FetchGroups(CircuitsOfFetch(file.circuits, f))
  }

  /** `id` is one of the identifiers fetch `f` of `file` generates. */
  predicate FetchWrites(id: KindId, kinds: seq<int>, name: string, file: CaptureFile, f: int)
  {
    Generated(id, FetchKey(name, file.tag, f), kinds, Groups(file, f))
  }

  /** `id` is generated by one of the listed fetches of `file`. */
  predicate WrittenBy(id: KindId, kinds: seq<int>, name: string, file: CaptureFile, fetches: seq<int>)
  {
    id.uuid.fetch in fetches && FetchWrites(id, kinds, name, file, id.uuid.fetch)
  }

  /** `id` is generated by some file of the list. */
  predicate WrittenByFiles(id: KindId, kinds: seq<int>, name: string, files: seq<CaptureFile>)
  {
    exists j :: 0 <= j < |files| && WrittenBy(id, kinds, name, files[j], files[j].fetches)
  }

  /** File `j` is the last of the list to generate `id`. */
  predicate LastWriter(id: KindId, kinds: seq<int>, name: string, files: seq<CaptureFile>, j: int)
  {
    && 0 <= j < |files| && WrittenBy(id, kinds, name, files[j], files[j].fetches)
    && forall j' :: j < j' < |files| ==> !WrittenBy(id, kinds, name, files[j'], files[j'].fetches)
  }

  /** A generated entry holds the 512-entry trace of a kept circuit of the
      identifier's kind in the identifier's fetch of that file. */
  lemma WrittenTrace(id: KindId, kinds: seq<int>, name: string, file: CaptureFile, fetches: seq<int>)
    requires WrittenBy(id, kinds, name, file, fetches)
    ensures exists c :: c in file.circuits && c.fetch == id.uuid.fetch && c.kind == id.kind && CfKept(c)
                        && Groups(file, id.uuid.fetch)[id.kind][id.index] == CfTrace(c)
  {
    var cs := CircuitsOfFetch(file.circuits, id.uuid.fetch);
    var kept := Filter(cs, CfKept);
    TracesOfKindOrigin(kept, id.kind, CF_LENGTH, id.index);
    var c :| c in kept && c.kind == id.kind && TracesOfKind(kept, id.kind, CF_LENGTH)[id.index] == CircuitTrace(c, CF_LENGTH);
    var i :| 0 <= i < |kept| && kept[i] == c;
    var i' :| 0 <= i' < |cs| && cs[i'] == c;
    assert c in file.circuits && c.fetch == id.uuid.fetch;
  }

  /** One fetch of the loop in `extract_dataset`: it adds the identifiers
      the fetch generates, each holding its kind's trace, and leaves every
      other entry as it was. */
  function ProcessFetch(kinds: seq<int>, name: string, file: CaptureFile, f: int, e: Extracted): (r: Extracted)
    requires Consistent(e, kinds, name)
    ensures Consistent(r, kinds, name)
    ensures forall id :: id in r.labels <==> id in e.labels || FetchWrites(id, kinds, name, file, f)
    ensures forall id :: FetchWrites(id, kinds, name, file, f) ==> r.dataset[id] == Groups(file, f)[id.kind][id.index]
    ensures forall id :: id in e.labels && !FetchWrites(id, kinds, name, file, f) ==> r.dataset[id] == e.dataset[id]
  {
    var g := Groups(file, f);
    var kept := Filter(CircuitsOfFetch(file.circuits, f), CfKept);
    assert forall k, i :: k in g && 0 <= i < |g[k]| ==> |g[k][i]| == CF_LENGTH by {
      forall k | k in g { TracesLength(kept, k, CF_LENGTH); }
    }
    KindsConsistent(kinds, name, FetchKey(name, file.tag, f), g, e);
    ProcessKinds(kinds, FetchKey(name, file.tag, f), file.tag, g, e)
  }

  /** Adding one fetch's samples keeps the dictionaries consistent. */
  lemma KindsConsistent(kinds: seq<int>, name: string, uuid: FetchKey, traces: map<int, seq<Trace>>, e: Extracted)
    requires Consistent(e, kinds, name) && uuid.name == name
    requires forall k, i :: k in traces && 0 <= i < |traces[k]| ==> |traces[k][i]| == CF_LENGTH
    ensures Consistent(ProcessKinds(kinds, uuid, uuid.tag, traces, e), kinds, name)
  {
    var r := ProcessKinds(kinds, uuid, uuid.tag, traces, e);
    assert r.labels.Keys == r.dataset.Keys;
    forall id | id in r.labels
      ensures id.uuid.name == name && id.kind in kinds && r.labels[id] == id.uuid.tag
    {
      if !Generated(id, uuid, kinds, traces) {
        assert r.labels[id] == e.labels[id];
      }
    }
    forall id | id in r.dataset ensures |r.dataset[id]| == CF_LENGTH {
      if !Generated(id, uuid, kinds, traces) {
        assert r.dataset[id] == e.dataset[id];
      }
    }
  }

  /** The fetch loop of one file: it adds exactly the identifiers its
      fetches generate; a fetch number fixes the identifier's key, so each
      entry holds the trace of the fetch it names. */
  function ProcessFile(kinds: seq<int>, name: string, file: CaptureFile, fetches: seq<int>, e: Extracted)
    : (r: Extracted)
    requires Consistent(e, kinds, name)
    ensures Consistent(r, kinds, name)
    ensures forall id :: id in r.labels <==> id in e.labels || WrittenBy(id, kinds, name, file, fetches)
    ensures forall id :: WrittenBy(id, kinds, name, file, fetches) ==>
              r.dataset[id] == Groups(file, id.uuid.fetch)[id.kind][id.index]
    ensures forall id :: id in e.labels && !WrittenBy(id, kinds, name, file, fetches) ==> r.dataset[id] == e.dataset[id]
  {
    if fetches == [] then e
    else
      var e' := ProcessFetch(kinds, name, file, fetches[0], e);
      var r := ProcessFile(kinds, name, file, fetches[1..], e');
      assert forall f :: f in fetches <==> f == fetches[0] || f in fetches[1..];
      r
  }

  /** The loop over all files: it adds exactly the identifiers some file
      generates, and the last file to generate an identifier supplies its
      trace. */
  function ProcessFiles(kinds: seq<int>, name: string, files: seq<CaptureFile>, e: Extracted): (r: Extracted)
    requires Consistent(e, kinds, name)
    ensures Consistent(r, kinds, name)
    ensures forall id :: id in r.labels <==> id in e.labels || WrittenByFiles(id, kinds, name, files)
    ensures forall id, j :: LastWriter(id, kinds, name, files, j) ==>
              id in r.dataset && r.dataset[id] == Groups(files[j], id.uuid.fetch)[id.kind][id.index]
    ensures forall id :: id in e.labels && !WrittenByFiles(id, kinds, name, files) ==> r.dataset[id] == e.dataset[id]
  {
    if files == [] then e
    else
      var e' := ProcessFile(kinds, name, files[0], files[0].fetches, e);
      var r := ProcessFiles(kinds, name, files[1..], e');
      ProcessFilesStep(kinds, name, files, e, e', r);
      r
  }

  /** A list of files generates `id` exactly when its first file or the rest does. */
  lemma WrittenByFilesSplit(id: KindId, kinds: seq<int>, name: string, files: seq<CaptureFile>)
    requires files != []
    ensures WrittenByFiles(id, kinds, name, files) <==>
              WrittenBy(id, kinds, name, files[0], files[0].fetches) || WrittenByFiles(id, kinds, name, files[1..])
  {
    var rest := files[1..];
    if WrittenByFiles(id, kinds, name, files) {
      var j :| 0 <= j < |files| && WrittenBy(id, kinds, name, files[j], files[j].fetches);
      if j > 0 {
        assert rest[j - 1] == files[j];
      }
    }
    if WrittenByFiles(id, kinds, name, rest) {
      var j :| 0 <= j < |rest| && WrittenBy(id, kinds, name, rest[j], rest[j].fetches);
      assert rest[j] == files[j + 1];
    }
  }

  /** The last writer of a list is either its first file, which the rest
      then never overrides, or the last writer of the rest. */
  lemma LastWriterSplit(id: KindId, kinds: seq<int>, name: string, files: seq<CaptureFile>, j: nat)
    requires LastWriter(id, kinds, name, files, j)
    ensures j == 0 ==> !WrittenByFiles(id, kinds, name, files[1..])
    ensures j > 0 ==> LastWriter(id, kinds, name, files[1..], j - 1)
  {
    var rest := files[1..];
    if j > 0 {
      assert rest[j - 1] == files[j];
      forall j' | j - 1 < j' < |rest| ensures !WrittenBy(id, kinds, name, rest[j'], rest[j'].fetches) {
        assert rest[j'] == files[j' + 1];
      }
    }
  }

  /** The induction step of `ProcessFiles`: the first file's entries stay
      unless a later file generates the same identifier. */
  lemma ProcessFilesStep(kinds: seq<int>, name: string, files: seq<CaptureFile>, e: Extracted, e': Extracted,
                         r: Extracted)
    requires files != [] && Consistent(e, kinds, name) && Consistent(r, kinds, name)
    requires forall id :: id in e'.labels <==> id in e.labels || WrittenBy(id, kinds, name, files[0], files[0].fetches)
    requires forall id :: WrittenBy(id, kinds, name, files[0], files[0].fetches) ==>
               id in e'.dataset && e'.dataset[id] == Groups(files[0], id.uuid.fetch)[id.kind][id.index]
    requires forall id :: id in e.labels && !WrittenBy(id, kinds, name, files[0], files[0].fetches) ==>
               id in e'.dataset && e'.dataset[id] == e.dataset[id]
    requires forall id :: id in r.labels <==> id in e'.labels || WrittenByFiles(id, kinds, name, files[1..])
    requires forall id, j :: LastWriter(id, kinds, name, files[1..], j) ==>
               id in r.dataset && r.dataset[id] == Groups(files[1..][j], id.uuid.fetch)[id.kind][id.index]
    requires forall id :: id in e'.labels && !WrittenByFiles(id, kinds, name, files[1..]) ==>
               r.dataset[id] == e'.dataset[id]
    ensures forall id :: id in r.labels <==> id in e.labels || WrittenByFiles(id, kinds, name, files)
    ensures forall id, j :: LastWriter(id, kinds, name, files, j) ==>
              id in r.dataset && r.dataset[id] == Groups(files[j], id.uuid.fetch)[id.kind][id.index]
    ensures forall id :: id in e.labels && !WrittenByFiles(id, kinds, name, files) ==> r.dataset[id] == e.dataset[id]
  {
    forall id ensures id in r.labels <==> id in e.labels || WrittenByFiles(id, kinds, name, files) {
      WrittenByFilesSplit(id, kinds, name, files);
    }
    forall id, j | LastWriter(id, kinds, name, files, j)
      ensures id in r.dataset && r.dataset[id] == Groups(files[j], id.uuid.fetch)[id.kind][id.index]
    {
      LastWriterSplit(id, kinds, name, files, j);
      if j > 0 {
        assert files[1..][j - 1] == files[j];
      }
    }
    forall id | id in e.labels && !WrittenByFiles(id, kinds, name, files)
      ensures r.dataset[id] == e.dataset[id]
    {
      WrittenByFilesSplit(id, kinds, name, files);
    }
  }

  /** `extract_dataset`. It raises when a kept circuit has no cells;
      otherwise labels and traces share their keys, which are exactly the
      identifiers the files generate, each labelled with its fetch's tag and
      holding the trace of the last file that generates it. */
  function ExtractDataset(kinds: seq<int>, files: seq<CaptureFile>, name: string): (r: Result<Extracted, ExtractError>)
    requires forall j :: 0 <= j < |files| ==> UniqueFetches(files[j])
    ensures r.Err? <==> SomeUnconvertible(files, CfKept)
    ensures r.Ok? ==> Consistent(r.value, kinds, name)
    ensures r.Ok? ==> forall id :: id in r.value.labels <==> WrittenByFiles(id, kinds, name, files)
    ensures r.Ok? ==> forall id, j :: LastWriter(id, kinds, name, files, j) ==>
              id in r.value.dataset && r.value.dataset[id] == Groups(files[j], id.uuid.fetch)[id.kind][id.index]
  {
    if !FilesConvertible(files, CfKept) then Err(EmptyCircuit)
    else Ok(ProcessFiles(kinds, name, files, Extracted(map[], map[])))
  }

  /** Every entry of a successful extraction holds the 512-entry trace of a
      kept circuit of its kind, from its fetch of the last file generating it. */
  lemma ExtractedTrace(kinds: seq<int>, files: seq<CaptureFile>, name: string, id: KindId, j: nat)
    requires forall j :: 0 <= j < |files| ==> UniqueFetches(files[j])
    requires LastWriter(id, kinds, name, files, j)
    ensures var r := ExtractDataset(kinds, files, name);
            r.Ok? ==> id in r.value.dataset
                      && exists c :: c in files[j].circuits && c.fetch == id.uuid.fetch && c.kind == id.kind
                                     && CfKept(c) && r.value.dataset[id] == CfTrace(c)
  {
    WrittenTrace(id, kinds, name, files[j], files[j].fetches);
  }
}
