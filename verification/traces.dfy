/** Directional traces built from circuit cells, as `cells2df`,
    `get_trace_length` and `get_max_nonzero_trace` in the extraction scripts. */
module Traces {
  import opened Wrappers

  /** One entry per cell: the cell's direction, with 0 as padding. The source
      stores these as float32; every value it stores is a cell direction or 0. */
  type Trace = seq<int>

  /** Trace length fed to the DF classifier by the open-world extraction. */
  const LENGTH: nat := 5000
  /** `int(LENGTH / 2)`: how much of each circuit a combined sample keeps. */
  const HALF: nat := 2500
  /** Trace length of the circuit-fingerprinting extraction. */
  const CF_LENGTH: nat := 512

  /** `cells2df`: the directions zero-padded or truncated to exactly `length` entries. */
  function Pad(dirs: seq<int>, length: nat): (t: Trace)
    ensures |t| == length
    ensures forall i :: 0 <= i < length ==> t[i] == (if i < |dirs| then dirs[i] else 0)
  {
    if |dirs| >= length then dirs[..length] else dirs + seq(length - |dirs|, _ => 0)
  }

  /** A trace that already has the requested length is left as it is, and
      padding twice is padding once. */
  lemma PadFixedPoint(dirs: seq<int>, length: nat)
    ensures Pad(dirs, |dirs|) == dirs
    ensures Pad(Pad(dirs, length), length) == Pad(dirs, length)
  {
    var t := Pad(dirs, length);
    assert Pad(t, length) == t;
  }

  /** `get_trace_length`: the number of nonzero entries. */
  function NonzeroCount(t: Trace): (n: nat)
    ensures n <= |t|
  {
    if t == [] then 0
    else NonzeroCount(t[..|t| - 1]) + (if t[|t| - 1] != 0 then 1 else 0)
  }

  /** The positions `np.nonzero` reports. */
  function NonzeroIndices(t: Trace): set<nat>
  {
    set i: nat | i < |t| && t[i] != 0
  }

  /** `get_trace_length` is exactly the size of the `np.nonzero` index set. */
  lemma {:induction false} NonzeroCountIsCardinality(t: Trace)
    ensures NonzeroCount(t) == |NonzeroIndices(t)|
  {
    if t != [] {
      var n := |t| - 1;
      var p := t[..n];
      NonzeroCountIsCardinality(p);
      assert NonzeroIndices(p) == NonzeroIndices(t) - {n};
      if t[n] != 0 {
        assert NonzeroIndices(t) == NonzeroIndices(p) + {n};
      } else {
        assert NonzeroIndices(t) == NonzeroIndices(p);
      }
    }
  }

  /** Counting nonzero entries is additive over concatenation. */
  lemma {:induction false} NonzeroCountConcat(a: Trace, b: Trace)
    ensures NonzeroCount(a + b) == NonzeroCount(a) + NonzeroCount(b)
    decreases |b|
  {
    if b == [] {
      assert a + b == a;
    } else {
      var n := |b| - 1;
      assert (a + b)[..|a + b| - 1] == a + b[..n];
      NonzeroCountConcat(a, b[..n]);
    }
  }

  /** A run of zeros has no nonzero entry. */
  lemma {:induction false} NonzeroCountZeros(k: nat)
    ensures NonzeroCount(seq(k, _ => 0)) == 0
  {
    if k > 0 {
      assert seq(k, _ => 0)[..k - 1] == seq(k - 1, _ => 0);
      NonzeroCountZeros(k - 1);
    }
  }

  /** Padding adds no nonzero entry and truncation keeps those of the kept prefix. */
  lemma PadNonzeroCount(dirs: seq<int>, length: nat)
    ensures NonzeroCount(Pad(dirs, length)) ==
            NonzeroCount(dirs[..if |dirs| <= length then |dirs| else length])
  {
    if |dirs| < length {
      assert dirs[..|dirs|] == dirs;
      NonzeroCountConcat(dirs, seq(length - |dirs|, _ => 0));
      NonzeroCountZeros(length - |dirs|);
    }
  }

  /** Every trace in the list has `n` entries. */
  predicate AllOfLength(ts: seq<Trace>, n: nat)
  {
    forall i :: 0 <= i < |ts| ==> |ts[i]| == n
  }

  /** Python's `t[:n]` on a trace. */
  function Take(t: Trace, n: nat): (r: Trace)
    ensures |r| == if |t| <= n then |t| else n
    ensures r == t[..|r|]
  {
    if |t| <= n then t else t[..n]
  }

  /** The open-world sample: the first HALF cells of a general-circuit trace
      followed by the first HALF cells of a rendezvous-circuit trace. */
  function Join(general: Trace, rend: Trace): (r: Trace)
    ensures |general| >= HALF && |rend| >= HALF ==>
      |r| == LENGTH && r[..HALF] == general[..HALF] && r[HALF..] == rend[..HALF]
  {
    Take(general, HALF) + Take(rend, HALF)
  }

  /** `k` is where `get_max_nonzero_trace` settles: no trace has more nonzero
      entries, and every earlier trace has strictly fewer (the scan uses `>`). */
  predicate IsFirstMax(ts: seq<Trace>, k: int)
  {
    && 0 <= k < |ts|
    && (forall j :: 0 <= j < |ts| ==> NonzeroCount(ts[j]) <= NonzeroCount(ts[k]))
    && (forall j :: 0 <= j < k ==> NonzeroCount(ts[j]) < NonzeroCount(ts[k]))
  }

  /** At most one index is the first maximum. */
  lemma FirstMaxUnique(ts: seq<Trace>, k1: int, k2: int)
    requires IsFirstMax(ts, k1) && IsFirstMax(ts, k2)
    ensures k1 == k2
  {
    assert NonzeroCount(ts[k1]) == NonzeroCount(ts[k2]);
  }

  /** The left-to-right scan of `get_max_nonzero_trace`: a later trace
      replaces the running maximum only when it has strictly more nonzero entries. */
  function MaxIndex(ts: seq<Trace>): (k: nat)
    requires |ts| > 0
    ensures IsFirstMax(ts, k)
  {
    if |ts| == 1 then 0
    else
      var k := MaxIndex(ts[..|ts| - 1]);
      if NonzeroCount(ts[|ts| - 1]) > NonzeroCount(ts[k]) then |ts| - 1 else k
  }

  /** `get_max_nonzero_trace`: `None` for an empty list, otherwise the earliest
      trace with the most nonzero entries. */
  function GetMaxNonzeroTrace(ts: seq<Trace>): (r: Option<Trace>)
    ensures r.None? <==> ts == []
    ensures r.Some? ==> exists k :: IsFirstMax(ts, k) && r.value == ts[k]
  {
    if ts == [] then None else Some(ts[MaxIndex(ts)])
  }
}
