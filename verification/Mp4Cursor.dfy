/**
  * The sample cursor of a track: the incremental `next` operations and the jumping `seek` operations, both
  * proved against the meaning of the tables in Mp4Table.
  */
module Mp4Cursor {
  import opened Bytes
  import opened Mp4Table

  // The cursor, by the table each part walks over.
  datatype TimeCursor = TimeCursor(timestamp: uint32, last: uint32, notFirst: bool, pos: nat, run: nat, count: nat)
  datatype KeyCursor = KeyCursor(key: bool, pos: nat)
  datatype ChunkCursor = ChunkCursor(chunk: nat, run: nat, count: nat)
  datatype DataCursor = DataCursor(offset: nat, size: uint32, pos: nat)
  datatype DelayCursor = DelayCursor(delay: uint32, run: nat, count: nat)

  datatype Cursor = Cursor(time: TimeCursor, key: KeyCursor, chunk: ChunkCursor, data: DataCursor, delay: DelayCursor)

  // ----- When a part of the cursor is at sample `k`

  /** `place` samples into run `run`, which is where sample `k` lies. */
  ghost predicate InRun(runs: seq<Run>, run: nat, place: nat, k: nat) {
    && run <= |runs| && Before(runs, run) + place == k
    && (if run < |runs| then place < runs[run].count else place == 0)
  }

  ghost predicate TimeOk(times: seq<Run>, c: TimeCursor, k: nat) {
    && c.pos == k <= |Expand(times)|
    && InRun(times, c.run, c.count, k)
    && c.timestamp == TimeAt(times, k)
    && (c.notFirst ==> k > 0 && c.last == TimeAt(times, k - 1))
  }

  /** `p` is the index of the first key number above `k`. */
  ghost predicate KeyIndex(keys: seq<uint32>, p: nat, k: nat) {
    && p <= |keys|
    && (forall i :: 0 <= i < p ==> keys[i] <= k)
    && (p < |keys| ==> keys[p] > k)
  }

  ghost predicate KeyOk(keys: Option<seq<uint32>>, c: KeyCursor, k: nat) {
    if keys.None? then !c.key
    else KeyIndex(keys.value, c.pos, k) && c.key == (k + 1 in keys.value)
  }

  ghost predicate ChunkOk(chunks: seq<ChunkRun>, c: ChunkCursor, k: nat) {
    && c.run < |chunks|
    && chunks[c.run].first <= c.chunk
    && (c.run + 1 < |chunks| ==> c.chunk < chunks[c.run + 1].first)
    && c.count < chunks[c.run].perChunk
    && ChunkStart(chunks, c.chunk) + c.count == k
  }

  ghost predicate DataOk(sizes: Sizes, offsets: seq<nat>, cell: ChunkCursor, c: DataCursor, k: nat) {
    && (sizes.Each? ==> k < |sizes.entries| && c.pos == k)
    && 1 <= cell.chunk <= |offsets| && cell.count <= k
    && c.offset == offsets[cell.chunk - 1] + SizeSum(sizes, k, cell.count)
    && c.size == SizeAt(sizes, k)
  }

  ghost predicate DelayOk(delays: Option<seq<Run>>, c: DelayCursor, k: nat) {
    if delays.None? then c.delay == 0
    else InRun(delays.value, c.run, c.count, k) && c.run < |delays.value| && c.delay == delays.value[c.run].value
  }

  /** Everything but the time is at sample `k`. */
  ghost predicate Placed(t: Tables, cr: Cursor, k: nat) {
    && k < Samples(t)
    && KeyOk(t.keys, cr.key, k) && ChunkOk(t.chunks, cr.chunk, k)
    && DataOk(t.sizes, t.offsets, cr.chunk, cr.data, k) && DelayOk(t.delays, cr.delay, k)
  }

  /** The cursor is at sample `k`, ready for the next step. */
  ghost predicate At(t: Tables, cr: Cursor, k: nat) {
    Placed(t, cr, k) && TimeOk(t.times, cr.time, k)
  }

  /** What a cursor shows. */
  function Shown(cr: Cursor): Sample {
    Sample(cr.time.timestamp, cr.chunk.chunk, cr.chunk.count, cr.data.offset, cr.data.size, cr.key.key, cr.delay.delay)
  }

  /** A placed cursor shows what the tables say about sample `k`, but for the time. */
  lemma PlacedShowsSample(t: Tables, cr: Cursor, k: nat)
    requires TablesOk(t) && Placed(t, cr, k)
    ensures Shown(cr) == SampleAt(t, k).(time := cr.time.timestamp)
  {
    PerChunkIs(t.chunks, cr.chunk.run, cr.chunk.chunk);
    FirstIsLeast(t.chunks, cr.chunk.run);
    CellAt(t.chunks, cr.chunk.chunk, cr.chunk.count, |t.offsets| + 1);
    if t.delays.Some? {
      ExpandAt(t.delays.value, cr.delay.run, cr.delay.count);
    }
  }

  /** A cursor at sample `k` shows what the tables say about sample `k`. */
  lemma AtShowsSample(t: Tables, cr: Cursor, k: nat)
    requires TablesOk(t) && At(t, cr, k)
    ensures Shown(cr) == SampleAt(t, k)
  {
    PlacedShowsSample(t, cr, k);
  }

  lemma FirstIsLeast(chunks: seq<ChunkRun>, i: nat)
    requires ChunksOk(chunks) && i < |chunks|
    ensures chunks[0].first <= chunks[i].first
  {
    if i > 0 {
      assert chunks[0].first < chunks[i].first;
    }
  }

  /** Being at a sample fixes the cursor, up to the memory of the previous sample and parts without a table. */
  lemma AtIsUnique(t: Tables, a: Cursor, b: Cursor, k: nat)
    requires TablesOk(t) && At(t, a, k) && At(t, b, k)
    ensures a.time.(last := 0, notFirst := false) == b.time.(last := 0, notFirst := false)
    ensures a.chunk == b.chunk && a.data.(pos := 0) == b.data.(pos := 0)
    ensures a.key.key == b.key.key && (t.keys.Some? ==> a.key == b.key)
    ensures a.delay.delay == b.delay.delay && (t.delays.Some? ==> a.delay == b.delay)
    ensures t.sizes.Each? ==> a.data == b.data
  {
    InRunUnique(t.times, a.time.run, a.time.count, b.time.run, b.time.count, k);
    AtShowsSample(t, a, k);
    AtShowsSample(t, b, k);
    if t.delays.Some? {
      InRunUnique(t.delays.value, a.delay.run, a.delay.count, b.delay.run, b.delay.count, k);
    }
  }

  lemma InRunUnique(runs: seq<Run>, i: nat, x: nat, j: nat, y: nat, k: nat)
    requires InRun(runs, i, x, k) && InRun(runs, j, y, k) && PositiveRuns(runs)
    ensures i == j && x == y
  {
    if i < j {
      BeforeStep(runs, i);
      BeforeMonotone(runs, i + 1, j);
    } else if j < i {
      BeforeStep(runs, j);
      BeforeMonotone(runs, j + 1, i);
    }
  }

  /** A sample that exists lies in a run that exists. */
  lemma InRunExists(runs: seq<Run>, run: nat, place: nat, k: nat)
    requires InRun(runs, run, place, k) && k < |Expand(runs)|
    ensures run < |runs|
  {
    assert runs[..|runs|] == runs;
  }

  // ----- One step forward, part by part

  ghost function Ticked(times: seq<Run>, c: TimeCursor): TimeCursor
    requires c.run < |times|
  {
    var next := TimeCursor(Add32(c.timestamp, times[c.run].value), c.timestamp, true, c.pos + 1, c.run, c.count + 1);
    if c.count + 1 >= times[c.run].count then next.(run := c.run + 1, count := 0) else next
  }

  ghost function KeyStepped(keys: Option<seq<uint32>>, c: KeyCursor, pos: nat): KeyCursor {
    if keys.None? then c
    else
      var p := if c.key then c.pos + 1 else c.pos;
      KeyCursor(p < |keys.value| && pos + 1 == keys.value[p], p)
  }

  ghost function ChunkStepped(chunks: seq<ChunkRun>, c: ChunkCursor): ChunkCursor
    requires c.run < |chunks|
  {
    if c.count + 1 < chunks[c.run].perChunk then c.(count := c.count + 1)
    else
      var moved := c.run + 1 < |chunks| && c.chunk + 1 >= chunks[c.run + 1].first;
      ChunkCursor(c.chunk + 1, if moved then c.run + 1 else c.run, 0)
  }

  ghost function DelayStepped(delays: Option<seq<Run>>, c: DelayCursor): DelayCursor {
    if delays.None? || c.run >= |delays.value| then c
    else
      var ds := delays.value;
      var last := c.count + 1 >= ds[c.run].count;
      var run := if last then c.run + 1 else c.run;
      DelayCursor(if run < |ds| then ds[run].value else c.delay, run, if last then 0 else c.count + 1)
  }

  /** The place of the next sample: one further in the run, or at the start of the next run. */
  lemma NextInRun(runs: seq<Run>, run: nat, place: nat, k: nat)
    requires PositiveRuns(runs) && InRun(runs, run, place, k) && run < |runs|
    ensures if place + 1 >= runs[run].count then InRun(runs, run + 1, 0, k + 1) else InRun(runs, run, place + 1, k + 1)
  {
    BeforeStep(runs, run);
  }

  /** Time advances by the difference of the run the cursor is in. */
  lemma NextInTime(times: seq<Run>, run: nat, place: nat, k: nat)
    requires TimeAt(times, |Expand(times)|) < TWO32
    requires InRun(times, run, place, k) && run < |times| && k < |Expand(times)|
    ensures TimeAt(times, k) + times[run].value == TimeAt(times, k + 1) < TWO32
  {
    ExpandAt(times, run, place);
    TimeStep(times, k);
    TimeMonotone(times, k + 1, |Expand(times)|);
  }

  lemma TickKeepsTime(times: seq<Run>, c: TimeCursor, k: nat)
    requires PositiveRuns(times) && TimeAt(times, |Expand(times)|) < TWO32
    requires TimeOk(times, c, k) && k < |Expand(times)|
    ensures c.run < |times| && TimeOk(times, Ticked(times, c), k + 1)
  {
    InRunExists(times, c.run, c.count, k);
    NextInRun(times, c.run, c.count, k);
    NextInTime(times, c.run, c.count, k);
    TickedOk(times, c, k, TimeAt(times, k), TimeAt(times, k + 1));
  }

  lemma TickedOk(times: seq<Run>, c: TimeCursor, k: nat, now: nat, next: nat)
    requires c.run < |times| && k < |Expand(times)| && c.pos == k && c.timestamp == now
    requires now == TimeAt(times, k) && next == TimeAt(times, k + 1) && now + times[c.run].value == next < TWO32
    requires if c.count + 1 >= times[c.run].count then InRun(times, c.run + 1, 0, k + 1)
             else InRun(times, c.run, c.count + 1, k + 1)
    ensures TimeOk(times, Ticked(times, c), k + 1)
  {
  }

  ghost predicate Increasing(keys: seq<uint32>) {
    forall i, j :: 0 <= i < j < |keys| ==> keys[i] < keys[j]
  }

  lemma KeyStepKeeps(keys: Option<seq<uint32>>, c: KeyCursor, k: nat)
    requires keys.Some? ==> Increasing(keys.value)
    requires KeyOk(keys, c, k)
    ensures KeyOk(keys, KeyStepped(keys, c, k + 1), k + 1)
  {
    if keys.Some? {
      var ks, c1 := keys.value, KeyStepped(keys, c, k + 1);
      if c.key {
        var i :| 0 <= i < |ks| && ks[i] == k + 1;
        assert i == c.pos;
      }
      if k + 2 in ks {
        var i :| 0 <= i < |ks| && ks[i] == k + 2;
        assert i == c1.pos;
      }
    }
  }

  /** A chunk holds as many samples as its entry says. */
  lemma StartNext(chunks: seq<ChunkRun>, run: nat, c: nat)
    requires ChunksOk(chunks) && run < |chunks| && chunks[run].first <= c
    requires run + 1 < |chunks| ==> c < chunks[run + 1].first
    ensures ChunkStart(chunks, c + 1) == ChunkStart(chunks, c) + chunks[run].perChunk
  {
    PerChunkIs(chunks, run, c);
    FirstIsLeast(chunks, run);
  }

  /** The next sample is in the same chunk, or is the first of the next one. */
  lemma ChunkStepKeeps(chunks: seq<ChunkRun>, n: nat, c: ChunkCursor, k: nat)
    requires ChunksOk(chunks) && ChunkOk(chunks, c, k) && k < ChunkStart(chunks, n + 1) && 1 <= c.chunk <= n
    ensures ChunkStepped(chunks, c).chunk <= n <==> k + 1 < ChunkStart(chunks, n + 1)
    ensures k + 1 < ChunkStart(chunks, n + 1) ==> ChunkOk(chunks, ChunkStepped(chunks, c), k + 1)
  {
    StartNext(chunks, c.run, c.chunk);
    CellsPrefix(chunks, c.chunk + 1, n + 1);
    if c.count + 1 >= chunks[c.run].perChunk && c.chunk < n {
      NewChunkHasSamples(chunks, n, c, k);
    }
  }

  lemma NewChunkHasSamples(chunks: seq<ChunkRun>, n: nat, c: ChunkCursor, k: nat)
    requires ChunksOk(chunks) && ChunkOk(chunks, c, k) && 1 <= c.chunk < n
    requires c.count + 1 >= chunks[c.run].perChunk && ChunkStart(chunks, c.chunk + 1) == k + 1
    ensures ChunkStart(chunks, n + 1) > k + 1
    ensures ChunkOk(chunks, ChunkStepped(chunks, c), k + 1)
  {
    var c1 := ChunkStepped(chunks, c);
    if c.run + 2 < |chunks| {
      assert chunks[c.run + 1].first < chunks[c.run + 2].first;
    }
    StartNext(chunks, c1.run, c1.chunk);
    CellsPrefix(chunks, c1.chunk + 1, n + 1);
  }

  lemma DelayStepKeeps(delays: Option<seq<Run>>, c: DelayCursor, k: nat)
    requires delays.Some? ==> PositiveRuns(delays.value) && k + 1 < |Expand(delays.value)|
    requires DelayOk(delays, c, k)
    ensures DelayOk(delays, DelayStepped(delays, c), k + 1)
  {
    if delays.Some? {
      var ds := delays.value;
      NextInRun(ds, c.run, c.count, k);
      var c1 := DelayStepped(delays, c);
      InRunExists(ds, c1.run, c1.count, k + 1);
    }
  }
}
