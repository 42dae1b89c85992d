/** Circuit records as the extraction scripts read them from a capture file,
    and the steps both scripts share: the directory-circuit test, cell
    filtering, trace conversion and grouping of traces by circuit kind. */
module Circuits {
  import opened Seqs
  import opened Traces

  const KIND_GENERAL: int := 0
  const KIND_HSDIR: int := 1
  const KIND_INTRO: int := 2
  const KIND_REND: int := 3

  /** Relay command 13 (BEGIN_DIR) marks a directory circuit. */
  const RELAY_BEGIN_DIR: int := 13
  /** Cells whose fourth record field holds this value are dropped before conversion. */
  const DROPPED_CELL_FIELD: int := 16

  /** A cell record; `field3` is the record's fourth field, which the source
      addresses only by position. */
  datatype Cell = Cell(direction: int, relayCmd: int, field3: int)

  datatype Circuit = Circuit(fetch: int, domain: string, kind: int, cells: seq<Cell>)

  /** One capture file: the site tag and its circuits. `fetches` is the list
      `np.unique` derives from the circuits' fetch numbers. */
  datatype CaptureFile = CaptureFile(tag: string, circuits: seq<Circuit>, fetches: seq<int>)

  /** `fetches` is what `np.unique` returns: strictly increasing, and exactly
      the fetch numbers that occur among the circuits. */
  predicate UniqueFetches(file: CaptureFile)
  {
    && (forall i, j :: 0 <= i < j < |file.fetches| ==> file.fetches[i] < file.fetches[j])
    && (forall i :: 0 <= i < |file.circuits| ==> file.circuits[i].fetch in file.fetches)
    && (forall j :: 0 <= j < |file.fetches| ==>
          exists i :: 0 <= i < |file.circuits| && file.circuits[i].fetch == file.fetches[j])
  }

  /** The cell mask is built with `np.vectorize` and no `otypes`, which
      raises ValueError on a size-0 array: only a circuit with at least one
      cell can be converted. */
  predicate Convertible(c: Circuit)
  {
    c.cells != []
  }

  /** Why an extraction aborts. */
  datatype ExtractError = EmptyCircuit   // the ValueError of `np.vectorize` on a circuit without cells

  /** Some circuit of some file that the extraction converts (`selected`)
      has no cells, so the extraction raises before it returns. */
  predicate SomeUnconvertible(files: seq<CaptureFile>, selected: Circuit -> bool)
  {
    exists j, i :: 0 <= j < |files| && 0 <= i < |files[j].circuits|
                   && selected(files[j].circuits[i]) && !Convertible(files[j].circuits[i])
  }

  /** Whether every circuit of a list that `selected` picks can be converted. */
  function CircuitsConvertible(cs: seq<Circuit>, selected: Circuit -> bool): (ok: bool)
    ensures ok <==> forall i :: 0 <= i < |cs| && selected(cs[i]) ==> Convertible(cs[i])
  {
    cs == [] || ((selected(cs[0]) ==> Convertible(cs[0])) && CircuitsConvertible(cs[1..], selected))
  }

  /** The per-fetch loop of one file over `fetches` converts the selected
      circuits of each fetch in turn; it finishes exactly when every selected
      circuit whose fetch is listed has cells. */
  function FetchesConvertible(circuits: seq<Circuit>, fetches: seq<int>, selected: Circuit -> bool): (ok: bool)
    ensures ok <==> forall i :: 0 <= i < |circuits| && circuits[i].fetch in fetches && selected(circuits[i])
                                ==> Convertible(circuits[i])
  {
    if fetches == [] then true
    else
      var cs := CircuitsOfFetch(circuits, fetches[0]);
      var rest := FetchesConvertible(circuits, fetches[1..], selected);
      assert forall i :: 0 <= i < |circuits| && circuits[i].fetch == fetches[0] ==> circuits[i] in cs;
      CircuitsConvertible(cs, selected) && rest
  }

  /** The loops over all files finish without error exactly when no selected
      circuit lacks cells: with the fetch lists `np.unique` derives, every
      circuit of every file is visited. */
  function FilesConvertible(files: seq<CaptureFile>, selected: Circuit -> bool): (ok: bool)
    requires forall j :: 0 <= j < |files| ==> UniqueFetches(files[j])
    ensures ok <==> !SomeUnconvertible(files, selected)
  {
    if files == [] then true
    else
      var first := FetchesConvertible(files[0].circuits, files[0].fetches, selected);
      var rest := FilesConvertible(files[1..], selected);
      UnconvertibleSplit(files, selected);
      var file := files[0];
      assert first <==> forall i :: 0 <= i < |file.circuits| && selected(file.circuits[i])
                                    ==> Convertible(file.circuits[i]) by {
        assert UniqueFetches(file);
      }
      first && rest
  }

  /** A file list holds an unconvertible selected circuit exactly when its
      first file or the rest does. */
  lemma UnconvertibleSplit(files: seq<CaptureFile>, selected: Circuit -> bool)
    requires files != []
    ensures SomeUnconvertible(files, selected) <==>
              (exists i :: 0 <= i < |files[0].circuits| && selected(files[0].circuits[i])
                             && !Convertible(files[0].circuits[i]))
              || SomeUnconvertible(files[1..], selected)
  {
    if SomeUnconvertible(files, selected) {
      var j, i :| 0 <= j < |files| && 0 <= i < |files[j].circuits|
                  && selected(files[j].circuits[i]) && !Convertible(files[j].circuits[i]);
      if j > 0 {
        assert files[1..][j - 1] == files[j];
      }
    }
    if SomeUnconvertible(files[1..], selected) {
      var j, i :| 0 <= j < |files[1..]| && 0 <= i < |files[1..][j].circuits|
                  && selected(files[1..][j].circuits[i]) && !Convertible(files[1..][j].circuits[i]);
      assert files[1..][j] == files[j + 1];
    }
  }

  /** `is_dir_circuit`: the scan returns at the first cell with relay command 13. */
  function IsDirCircuit(cells: seq<Cell>): (r: bool)
    ensures r <==> exists i :: 0 <= i < |cells| && cells[i].relayCmd == RELAY_BEGIN_DIR
  {
    if cells == [] then false
    else if cells[0].relayCmd == RELAY_BEGIN_DIR then true
    else
      var rest := IsDirCircuit(cells[1..]);
      assert forall i :: 1 <= i < |cells| ==> cells[i] == cells[1..][i - 1];
      rest
  }

  /** The boolean-mask selection `cell[3] != 16`. */
  function KeptCells(cells: seq<Cell>): seq<Cell>
  {
    Filter(cells, (c: Cell) => c.field3 != DROPPED_CELL_FIELD)
  }

  /** The `direction` column of a cell array. */
  function Directions(cells: seq<Cell>): (d: seq<int>)
    ensures |d| == |cells|
    ensures forall i :: 0 <= i < |cells| ==> d[i] == cells[i].direction
  {
    seq(|cells|, i requires 0 <= i < |cells| => cells[i].direction)
  }

  /** The trace of one circuit: its kept cells' directions through `cells2df`. */
  function CircuitTrace(c: Circuit, length: nat): (t: Trace)
    ensures |t| == length
    ensures forall i :: 0 <= i < |t| && i >= |KeptCells(c.cells)| ==> t[i] == 0
    ensures forall i :: 0 <= i < |t| && i < |KeptCells(c.cells)| ==>
              t[i] == KeptCells(c.cells)[i].direction
  {
    Pad(Directions(KeptCells(c.cells)), length)
  }

  /** `selected_circuits[selected_circuits["fetch"] == f]`, in file order. */
  function CircuitsOfFetch(circuits: seq<Circuit>, f: int): (r: seq<Circuit>)
    ensures forall i :: 0 <= i < |r| ==> r[i].fetch == f
  {
    Filter(circuits, (c: Circuit) => c.fetch == f)
  }

  /** Reference definition: the traces of the circuits of kind `k`, in circuit order. */
  function TracesOfKind(cs: seq<Circuit>, k: int, length: nat): seq<Trace>
  {
    if cs == [] then []
    else (if cs[0].kind == k then [CircuitTrace(cs[0], length)] else []) + TracesOfKind(cs[1..], k, length)
  }

  lemma {:induction false} TracesOfKindAppend(cs: seq<Circuit>, c: Circuit, k: int, length: nat)
    ensures TracesOfKind(cs + [c], k, length) ==
            TracesOfKind(cs, k, length) + (if c.kind == k then [CircuitTrace(c, length)] else [])
  {
    if cs == [] {
      assert [c] + [] == [c];
      assert ([c])[1..] == [];
    } else {
      assert (cs + [c])[1..] == cs[1..] + [c];
      TracesOfKindAppend(cs[1..], c, k, length);
    }
  }

  /** Every trace of a kind's list has the conversion length. */
  lemma {:induction false} TracesLength(cs: seq<Circuit>, k: int, length: nat)
    ensures AllOfLength(TracesOfKind(cs, k, length), length)
  {
    if cs != [] {
      TracesLength(cs[1..], k, length);
    }
  }

  /** The i-th trace of a kind's list is the trace of a circuit of that kind. */
  lemma {:induction false} TracesOfKindOrigin(cs: seq<Circuit>, k: int, length: nat, i: nat)
    requires i < |TracesOfKind(cs, k, length)|
    ensures exists c :: c in cs && c.kind == k && TracesOfKind(cs, k, length)[i] == CircuitTrace(c, length)
  {
    var head := if cs[0].kind == k then [CircuitTrace(cs[0], length)] else [];
    var rest := TracesOfKind(cs[1..], k, length);
    assert TracesOfKind(cs, k, length) == head + rest;
    if i < |head| {
      assert TracesOfKind(cs, k, length)[i] == CircuitTrace(cs[0], length);
    } else {
      TracesOfKindOrigin(cs[1..], k, length, i - |head|);
      assert TracesOfKind(cs, k, length)[i] == rest[i - |head|];
    }
  }

  /** The trace of every circuit of kind `k` is in that kind's list. */
  lemma {:induction false} TracesOfKindHas(cs: seq<Circuit>, length: nat, i: nat)
    requires i < |cs|
    ensures CircuitTrace(cs[i], length) in TracesOfKind(cs, cs[i].kind, length)
  {
    var k := cs[i].kind;
    var head := if cs[0].kind == k then [CircuitTrace(cs[0], length)] else [];
    var rest := TracesOfKind(cs[1..], k, length);
    assert TracesOfKind(cs, k, length) == head + rest;
    if i > 0 {
      assert cs[1..][i - 1] == cs[i];
      TracesOfKindHas(cs[1..], length, i - 1);
      assert CircuitTrace(cs[i], length) in rest;
    }
  }

  /** `TracesOfKind` is empty exactly when no circuit has kind `k`. */
  lemma {:induction false} TracesOfKindEmpty(cs: seq<Circuit>, k: int, length: nat)
    ensures TracesOfKind(cs, k, length) == [] <==> forall i :: 0 <= i < |cs| ==> cs[i].kind != k
  {
    if cs != [] {
      TracesOfKindEmpty(cs[1..], k, length);
      var rest := TracesOfKind(cs[1..], k, length);
      assert TracesOfKind(cs, k, length) ==
        (if cs[0].kind == k then [CircuitTrace(cs[0], length)] else []) + rest;
      assert (forall i :: 0 <= i < |cs| ==> cs[i].kind != k) <==>
        cs[0].kind != k && forall i :: 0 <= i < |cs[1..]| ==> cs[1..][i].kind != k;
    }
  }

  /** Grouping that keeps every circuit of kind `k` keeps that kind's traces unchanged. */
  lemma {:induction false} TracesOfKindFilter(cs: seq<Circuit>, keep: Circuit -> bool, k: int, length: nat)
    requires forall i :: 0 <= i < |cs| && cs[i].kind == k ==> keep(cs[i])
    ensures TracesOfKind(Filter(cs, keep), k, length) == TracesOfKind(cs, k, length)
  {
    if cs != [] {
      TracesOfKindFilter(cs[1..], keep, k, length);
      if !keep(cs[0]) {
        assert Filter(cs, keep) == Filter(cs[1..], keep);
      } else {
        assert Filter(cs, keep) == [cs[0]] + Filter(cs[1..], keep);
        assert ([cs[0]] + Filter(cs[1..], keep))[1..] == Filter(cs[1..], keep);
      }
    }
  }

  /** The `traces` dictionary both scripts build: the loop appends each
      circuit's trace to the list of its kind, creating the list on first use. */
  function GroupByKind(cs: seq<Circuit>, length: nat): (g: map<int, seq<Trace>>)
    ensures forall k :: k in g <==> TracesOfKind(cs, k, length) != []
    ensures forall k :: k in g ==> g[k] == TracesOfKind(cs, k, length)
  {
    if cs == [] then map[]
    else
      var init := cs[..|cs| - 1];
      var c := cs[|cs| - 1];
      var g := GroupByKind(init, length);
      assert init + [c] == cs;
      assert forall k :: (TracesOfKind(cs, k, length) ==
                          TracesOfKind(init, k, length) + (if c.kind == k then [CircuitTrace(c, length)] else [])) by {
        forall k { TracesOfKindAppend(init, c, k, length); }
      }
      g[c.kind := (if c.kind in g then g[c.kind] else []) + [CircuitTrace(c, length)]]
  }

  /** A kind has a group exactly when some circuit of that kind was kept. */
  lemma GroupByKindKeys(cs: seq<Circuit>, length: nat, k: int)
    ensures k in GroupByKind(cs, length) <==> exists i :: 0 <= i < |cs| && cs[i].kind == k
  {
    TracesOfKindEmpty(cs, k, length);
  }
}
