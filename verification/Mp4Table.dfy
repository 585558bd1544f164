/**
  * The sample tables of an MP4 track (sections 8.6 and 8.7 of ISO/IEC 14496-12) and what they mean:
  * for every sample its time, chunk, place in the chunk, file offset, size, key flag and composition delay.
  * The meaning is given by expanding the run-length tables, with no cursor in sight.
  */
module Mp4Table {
  import opened Bytes

  /** `count` consecutive samples share `value`: a time-to-sample or composition-offset entry. */
  datatype Run = Run(count: uint32, value: uint32)

  /** From chunk `first` on, chunks hold `perChunk` samples: a sample-to-chunk entry. */
  datatype ChunkRun = ChunkRun(first: uint32, perChunk: uint32)

  datatype Sizes = Fixed(size: uint32) | Each(entries: seq<uint32>)

  datatype Tables = Tables(times: seq<Run>, delays: Option<seq<Run>>, keys: Option<seq<uint32>>,
                           chunks: seq<ChunkRun>, sizes: Sizes, offsets: seq<nat>)

  // ----- Run-length tables

  function Repeat(v: uint32, n: nat): (s: seq<uint32>)
    ensures |s| == n && forall i :: 0 <= i < n ==> s[i] == v
  {
    seq(n, i => v)
  }

  /** The table with one entry per sample. */
  function Expand(runs: seq<Run>): seq<uint32> {
    if runs == [] then []
    else Expand(runs[..|runs| - 1]) + Repeat(runs[|runs| - 1].value, runs[|runs| - 1].count)
  }

  /** Samples before run `i`. */
  function Before(runs: seq<Run>, i: nat): nat
    requires i <= |runs|
  {
    |Expand(runs[..i])|
  }

  function Sum(s: seq<uint32>): nat {
    if s == [] then 0 else Sum(s[..|s| - 1]) + s[|s| - 1]
  }

  /** The time of sample `k`: the sum of the differences before it. */
  function TimeAt(runs: seq<Run>, k: nat): nat
    requires k <= |Expand(runs)|
  {
    Sum(Expand(runs)[..k])
  }

  lemma BeforeStep(runs: seq<Run>, i: nat)
    requires i < |runs|
    ensures Expand(runs[..i + 1]) == Expand(runs[..i]) + Repeat(runs[i].value, runs[i].count)
    ensures Before(runs, i + 1) == Before(runs, i) + runs[i].count
  {
    assert runs[..i + 1][..i] == runs[..i];
  }

  lemma {:induction false} ExpandPrefix(runs: seq<Run>, i: nat)
    requires i <= |runs|
    ensures Before(runs, i) <= |Expand(runs)| && Expand(runs)[..Before(runs, i)] == Expand(runs[..i])
    decreases |runs| - i
  {
    if i == |runs| {
      assert runs[..i] == runs;
    } else {
      ExpandPrefix(runs, i + 1);
      BeforeStep(runs, i);
      assert Expand(runs)[..Before(runs, i)] == Expand(runs)[..Before(runs, i + 1)][..Before(runs, i)];
    }
  }

  lemma ExpandAt(runs: seq<Run>, i: nat, j: nat)
    requires i < |runs| && j < runs[i].count
    ensures Before(runs, i) + j < |Expand(runs)| && Expand(runs)[Before(runs, i) + j] == runs[i].value
  {
    ExpandPrefix(runs, i + 1);
    BeforeStep(runs, i);
    assert Expand(runs)[Before(runs, i) + j] == Expand(runs)[..Before(runs, i + 1)][Before(runs, i) + j];
  }

  lemma {:induction false} BeforeMonotone(runs: seq<Run>, i: nat, j: nat)
    requires i <= j <= |runs|
    ensures Before(runs, i) <= Before(runs, j)
    decreases j - i
  {
    if i < j {
      BeforeStep(runs, i);
      BeforeMonotone(runs, i + 1, j);
    }
  }

  lemma TimeStep(runs: seq<Run>, k: nat)
    requires k < |Expand(runs)|
    ensures TimeAt(runs, k + 1) == TimeAt(runs, k) + Expand(runs)[k]
  {
    assert Expand(runs)[..k + 1][..k] == Expand(runs)[..k];
  }

  lemma {:induction false} TimeMonotone(runs: seq<Run>, j: nat, k: nat)
    requires j <= k <= |Expand(runs)|
    ensures TimeAt(runs, j) <= TimeAt(runs, k)
    decreases k - j
  {
    if j < k {
      TimeStep(runs, j);
      TimeMonotone(runs, j + 1, k);
    }
  }

  /** Inside a run time advances by the run's difference. */
  lemma {:induction false} TimeInRun(runs: seq<Run>, i: nat, j: nat)
    requires i < |runs| && j <= runs[i].count
    ensures Before(runs, i) + j <= |Expand(runs)|
    ensures TimeAt(runs, Before(runs, i) + j) == TimeAt(runs, Before(runs, i)) + j * runs[i].value
    decreases j
  {
    ExpandPrefix(runs, i);
    if j > 0 {
      TimeInRun(runs, i, j - 1);
      ExpandAt(runs, i, j - 1);
      TimeStep(runs, Before(runs, i) + j - 1);
      assert (j - 1) * runs[i].value + runs[i].value == j * runs[i].value;
    }
  }

  ghost predicate PositiveRuns(runs: seq<Run>) {
    forall i :: 0 <= i < |runs| ==> runs[i].count > 0
  }

  // ----- Sample-to-chunk

  ghost predicate ChunksOk(chunks: seq<ChunkRun>) {
    && chunks != [] && chunks[0].first >= 1
    && (forall i :: 0 <= i < |chunks| ==> chunks[i].perChunk > 0)
    && (forall i, j :: 0 <= i < j < |chunks| ==> chunks[i].first < chunks[j].first)
  }

  /** Samples in chunk `c`: what the last entry that starts at or before `c` says. */
  function PerChunk(chunks: seq<ChunkRun>, c: nat): nat
    requires chunks != []
  {
    var n := |chunks| - 1;
    if n == 0 || chunks[n].first <= c then chunks[n].perChunk else PerChunk(chunks[..n], c)
  }

  lemma {:induction false} PerChunkIs(chunks: seq<ChunkRun>, i: nat, c: nat)
    requires ChunksOk(chunks) && i < |chunks|
    requires chunks[i].first <= c && (i + 1 < |chunks| ==> c < chunks[i + 1].first)
    ensures PerChunk(chunks, c) == chunks[i].perChunk
    decreases |chunks|
  {
    var n := |chunks| - 1;
    if i < n {
      assert c < chunks[n].first by {
        if i + 1 < n {
          assert chunks[i + 1].first < chunks[n].first;
        }
      }
      PerChunkIs(chunks[..n], i, c);
    }
  }

  /** A sample's chunk and its place in it. */
  datatype Cell = Cell(chunk: nat, index: nat)

  function Row(c: nat, n: nat): (s: seq<Cell>)
    ensures |s| == n && forall i :: 0 <= i < n ==> s[i] == Cell(c, i)
  {
    seq(n, i requires 0 <= i < n => Cell(c, i))
  }

  /** The cells of the samples of all chunks before `c`, in order. */
  function Cells(chunks: seq<ChunkRun>, c: nat): seq<Cell>
    requires chunks != []
    decreases c
  {
    if c <= chunks[0].first then [] else Cells(chunks, c - 1) + Row(c - 1, PerChunk(chunks, c - 1))
  }

  function ChunkStart(chunks: seq<ChunkRun>, c: nat): nat
    requires chunks != []
  {
    |Cells(chunks, c)|
  }

  lemma {:induction false} CellsPrefix(chunks: seq<ChunkRun>, c: nat, d: nat)
    requires chunks != [] && c <= d
    ensures ChunkStart(chunks, c) <= ChunkStart(chunks, d)
            && Cells(chunks, d)[..ChunkStart(chunks, c)] == Cells(chunks, c)
    decreases d
  {
    if c < d {
      CellsPrefix(chunks, c, d - 1);
      if d > chunks[0].first {
        assert Cells(chunks, d)[..ChunkStart(chunks, c)] == Cells(chunks, d - 1)[..ChunkStart(chunks, c)];
      }
    }
  }

  lemma CellAt(chunks: seq<ChunkRun>, c: nat, i: nat, d: nat)
    requires chunks != [] && chunks[0].first <= c < d && i < PerChunk(chunks, c)
    ensures ChunkStart(chunks, c) + i < ChunkStart(chunks, d)
    ensures Cells(chunks, d)[ChunkStart(chunks, c) + i] == Cell(c, i)
  {
    CellsPrefix(chunks, c + 1, d);
    var k := ChunkStart(chunks, c) + i;
    assert Cells(chunks, d)[k] == Cells(chunks, d)[..ChunkStart(chunks, c + 1)][k];
  }

  /** Within a sample-to-chunk entry the start advances by the same number of samples per chunk. */
  lemma {:induction false} StartInRun(chunks: seq<ChunkRun>, i: nat, d: nat)
    requires ChunksOk(chunks) && i < |chunks|
    requires i + 1 < |chunks| ==> chunks[i].first + d <= chunks[i + 1].first
    ensures ChunkStart(chunks, chunks[i].first + d) == ChunkStart(chunks, chunks[i].first) + d * chunks[i].perChunk
    decreases d
  {
    if d > 0 {
      StartInRun(chunks, i, d - 1);
      assert chunks[0].first <= chunks[i].first by {
        if i > 0 {
          assert chunks[0].first < chunks[i].first;
        }
      }
      PerChunkIs(chunks, i, chunks[i].first + d - 1);
      assert (d - 1) * chunks[i].perChunk + chunks[i].perChunk == d * chunks[i].perChunk;
    }
  }

  // ----- Sizes, keys, samples

  function SizeAt(sizes: Sizes, k: nat): uint32
    requires sizes.Each? ==> k < |sizes.entries|
  {
    if sizes.Fixed? then sizes.size else sizes.entries[k]
  }

  /** Bytes of the `n` samples that end before sample `k`. */
  function SizeSum(sizes: Sizes, k: nat, n: nat): nat
    requires n <= k && (sizes.Each? ==> k <= |sizes.entries|)
  {
    if n == 0 then 0 else SizeSum(sizes, k, n - 1) + SizeAt(sizes, k - n)
  }

  /** The same sum, one sample later. */
  lemma {:induction false} SizeSumNext(sizes: Sizes, k: nat, n: nat)
    requires n <= k && (sizes.Each? ==> k < |sizes.entries|)
    ensures SizeSum(sizes, k + 1, n + 1) == SizeSum(sizes, k, n) + SizeAt(sizes, k)
    decreases n
  {
    if n > 0 {
      SizeSumNext(sizes, k, n - 1);
      assert SizeSum(sizes, k + 1, n + 1) == SizeSum(sizes, k + 1, n) + SizeAt(sizes, k + 1 - (n + 1));
    } else {
      assert SizeSum(sizes, k + 1, 1) == SizeSum(sizes, k + 1, 0) + SizeAt(sizes, k);
    }
  }

  lemma {:induction false} SizeSumFixed(sizes: Sizes, k: nat, n: nat)
    requires sizes.Fixed? && n <= k
    ensures SizeSum(sizes, k, n) == n * sizes.size
    decreases n
  {
    if n > 0 {
      SizeSumFixed(sizes, k, n - 1);
      assert (n - 1) * sizes.size + sizes.size == n * sizes.size;
    }
  }

  function Samples(t: Tables): nat {
    |Expand(t.times)|
  }

  function Duration(t: Tables): nat {
    TimeAt(t.times, Samples(t))
  }

  /** Tables that describe the same samples, with totals a 32-bit clock can hold. */
  ghost predicate TablesOk(t: Tables) {
    && PositiveRuns(t.times) && Samples(t) < TWO32 && Duration(t) < TWO32
    && ChunksOk(t.chunks) && t.chunks[|t.chunks| - 1].first <= |t.offsets|
    && ChunkStart(t.chunks, |t.offsets| + 1) == Samples(t)
    && (t.sizes.Each? ==> |t.sizes.entries| == Samples(t))
    && (t.sizes.Fixed? ==> t.sizes.size > 0)
    && (t.delays.Some? ==> PositiveRuns(t.delays.value) && |Expand(t.delays.value)| == Samples(t))
    && (t.keys.Some? ==>
          && (forall i :: 0 <= i < |t.keys.value| ==> 1 <= t.keys.value[i] <= Samples(t))
          && (forall i, j :: 0 <= i < j < |t.keys.value| ==> t.keys.value[i] < t.keys.value[j]))
  }

  datatype Sample = Sample(time: nat, chunk: nat, index: nat, offset: nat, size: uint32, key: bool, delay: uint32)

  function CellOf(t: Tables, k: nat): Cell
    requires TablesOk(t) && k < Samples(t)
  {
    Cells(t.chunks, |t.offsets| + 1)[k]
  }

  /** A sample's cell is in a real chunk, at a place its predecessors fill. */
  lemma CellIsReal(t: Tables, k: nat)
    requires TablesOk(t) && k < Samples(t)
    ensures 1 <= CellOf(t, k).chunk <= |t.offsets| && CellOf(t, k).index <= k
    ensures t.chunks[0].first <= CellOf(t, k).chunk && CellOf(t, k).index < PerChunk(t.chunks, CellOf(t, k).chunk)
    ensures k == ChunkStart(t.chunks, CellOf(t, k).chunk) + CellOf(t, k).index
  {
    CellInverse(t.chunks, |t.offsets| + 1, k);
  }

  lemma {:induction false} CellInverse(chunks: seq<ChunkRun>, d: nat, k: nat)
    requires chunks != [] && k < ChunkStart(chunks, d)
    ensures var c := Cells(chunks, d)[k];
            && chunks[0].first <= c.chunk < d && c.index < PerChunk(chunks, c.chunk)
            && k == ChunkStart(chunks, c.chunk) + c.index
    decreases d
  {
    if k < ChunkStart(chunks, d - 1) {
      CellInverse(chunks, d - 1, k);
    } else {
      assert Cells(chunks, d)[k] == Cell(d - 1, k - ChunkStart(chunks, d - 1));
    }
  }

  /** What the tables say about sample `k`. */
  ghost function SampleAt(t: Tables, k: nat): Sample
    requires TablesOk(t) && k < Samples(t)
  {
    CellIsReal(t, k);
    var cell := CellOf(t, k);
    Sample(TimeAt(t.times, k), cell.chunk, cell.index,
           t.offsets[cell.chunk - 1] + SizeSum(t.sizes, k, cell.index), SizeAt(t.sizes, k),
           t.keys.Some? && k + 1 in t.keys.value,
           if t.delays.Some? then Expand(t.delays.value)[k] else 0)
  }
}
