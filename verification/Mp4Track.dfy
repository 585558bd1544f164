/**
  * A track: the incremental `next` operations and the jumping `seek` operations on its cursor, both proved against
  * the meaning of the tables in Mp4Table.
  */
module Mp4Track {
  import opened Bytes
  import opened Mp4Table
  import opened Mp4Cursor
  import opened Mp4Seek

  lemma {:induction false} MulMono(a: nat, b: nat, v: nat)
    requires a <= b
    ensures a * v <= b * v
    decreases b - a
  {
    if a < b {
      MulMono(a, b - 1, v);
      assert b * v == (b - 1) * v + v;
    }
  }

  lemma MulOrder(a: nat, b: nat, v: nat)
    requires v > 0
    ensures a <= b <==> a * v <= b * v
  {
    if a <= b {
      MulMono(a, b, v);
    } else {
      MulMono(b + 1, a, v);
      assert (b + 1) * v == b * v + v;
    }
  }

  /** Whole steps of `v` towards a target that `n` of them reach. */
  lemma WholeSteps(start: nat, v: nat, n: nat, q: nat, target: nat)
    requires v > 0 && start + q * v <= target < start + (q + 1) * v && target <= start + n * v
    ensures q <= n && (q == n <==> target == start + n * v)
  {
    MulOrder(q, n, v);
    MulOrder(q + 1, n, v);
  }

  /** Where going `q` whole steps towards `target` lands. */
  lemma StepsLand(times: seq<Run>, run: nat, target: nat, q: nat)
    requires run < |times| && times[run].value > 0
    requires RunTime(times, run) + q * times[run].value <= target < RunTime(times, run) + (q + 1) * times[run].value
    requires target <= RunTime(times, run + 1)
    ensures q <= times[run].count && Before(times, run) + q <= |Expand(times)|
    ensures TimeAt(times, Before(times, run) + q) == RunTime(times, run) + q * times[run].value
    ensures q == times[run].count <==> target == RunTime(times, run + 1)
    ensures q < times[run].count ==> Landing(times, target, Before(times, run) + q)
  {
    RunTimeStep(times, run);
    WholeSteps(RunTime(times, run), times[run].value, times[run].count, q, target);
    TimeInRun(times, run, q);
    if q < times[run].count {
      StepLands(times, run, target, q);
    }
  }

  lemma StepLands(times: seq<Run>, run: nat, target: nat, q: nat)
    requires run < |times| && q < times[run].count
    requires RunTime(times, run) + q * times[run].value <= target < RunTime(times, run) + (q + 1) * times[run].value
    ensures Landing(times, target, Before(times, run) + q)
  {
    TimeInRun(times, run, q);
    TimeInRun(times, run, q + 1);
    assert Before(times, run) + (q + 1) == (Before(times, run) + q) + 1;
  }

  /** `uint32_t` multiplication, where it does not wrap. */
  method Multiply(a: uint32, b: uint32) returns (r: uint32)
    requires a * b < TWO32
    ensures r == a * b
  {
    MulMono(0, a, b);
    r := Wrap32(a * b);
  }

  function Wrap32(x: nat): (r: uint32)
    ensures x < TWO32 ==> r == x
  {
    x % TWO32
  }

  method Divide(dist: nat, v: nat) returns (q: nat)
    requires v > 0
    ensures q * v <= dist < (q + 1) * v
  {
    q := dist / v;
    assert dist == q * v + dist % v;
    assert (q + 1) * v == q * v + v;
  }

  /** How many samples into run `run` the target is, and the time there. */
  method StepsInto(times: seq<Run>, run: nat, start: uint32, target: uint32) returns (count: uint32, now: uint32)
    requires run < |times| && times[run].value > 0 && start == RunTime(times, run)
    requires start <= target <= RunTime(times, run + 1) < TWO32
    ensures count <= times[run].count && Before(times, run) + count <= |Expand(times)|
    ensures now == TimeAt(times, Before(times, run) + count)
    ensures count == times[run].count <==> target == RunTime(times, run + 1)
    ensures count < times[run].count ==> Landing(times, target, Before(times, run) + count)
  {
    var q := Divide(target - start, times[run].value);
    StepsLand(times, run, target, q);
    count := q;
    var step := Multiply(count, times[run].value);
    Add32Cases(start, step);
    now := Add32(start, step);
  }

  /** Sample `k` in terms of the chunks of entry `i`: `d` whole chunks and `rest` samples. */
  method ChunksInto(chunks: seq<ChunkRun>, i: nat, k: nat, pos: nat) returns (d: nat, rest: nat)
    requires ChunksOk(chunks) && i < |chunks| && pos == ChunkStart(chunks, chunks[i].first) <= k
    requires i + 1 < |chunks| ==> k < ChunkStart(chunks, chunks[i + 1].first)
    ensures ChunkOk(chunks, ChunkCursor(chunks[i].first + d, i, rest), k)
  {
    d := Divide(k - pos, chunks[i].perChunk);
    DivisionStaysInRun(chunks, i, k, d);
    rest := k - pos - d * chunks[i].perChunk;
  }

  /** The data of sample `k + 1`: behind sample `k`, or at the start of a new chunk. */
  lemma DataStepKeeps(sizes: Sizes, offsets: seq<nat>, cell: ChunkCursor, cell': ChunkCursor, c: DataCursor,
                      c': DataCursor, k: nat)
    requires DataOk(sizes, offsets, cell, c, k) && (sizes.Each? ==> k + 1 < |sizes.entries| && c'.pos == k + 1)
    requires c'.size == SizeAt(sizes, k + 1)
    requires if cell'.chunk == cell.chunk then cell'.count == cell.count + 1 && c'.offset == c.offset + c.size
             else cell'.count == 0 && 1 <= cell'.chunk <= |offsets| && c'.offset == offsets[cell'.chunk - 1]
    ensures DataOk(sizes, offsets, cell', c', k + 1)
  {
    SizeSumNext(sizes, k, cell.count);
  }

  class Track {
    const t: Tables
    var time: TimeCursor
    var key: KeyCursor
    var chunk: ChunkCursor
    var data: DataCursor
    var delay: DelayCursor
    var valid: bool

    constructor (t: Tables)
      ensures this.t == t
    {
      this.t := t;
      time, key, chunk := TimeCursor(0, 0, false, 0, 0, 0), KeyCursor(false, 0), ChunkCursor(0, 0, 0);
      data, delay, valid := DataCursor(0, 0, 0), DelayCursor(0, 0, 0), false;
    }

    function Here(): Cursor
      reads this
    {
      Cursor(time, key, chunk, data, delay)
    }

    method NextTime() returns (ok: bool)
      modifies this`time
      ensures ok == (old(time).run < |t.times|)
      ensures time == if ok then Ticked(t.times, old(time)) else old(time)
    {
      if time.run >= |t.times| { return false; }
      var te := t.times[time.run];
      time := time.(last := time.timestamp, timestamp := Add32(time.timestamp, te.value), notFirst := true);
      time := time.(count := time.count + 1, pos := time.pos + 1);
      if time.count >= te.count {
        time := time.(run := time.run + 1, count := 0);
      }
      return true;
    }

    method NextKey()
      modifies this`key
      ensures key == KeyStepped(t.keys, old(key), time.pos)
    {
      if t.keys.None? { return; }
      if key.key {
        key := key.(pos := key.pos + 1);
      }
      if key.pos >= |t.keys.value| {
        key := key.(key := false);
        return;
      }
      key := key.(key := time.pos + 1 == t.keys.value[key.pos]);
    }

    method UpdateOffset() returns (ok: bool)
      modifies this`data
      ensures ok == (1 <= chunk.chunk <= |t.offsets|)
      ensures data == if ok then old(data).(offset := t.offsets[chunk.chunk - 1], size := 0) else old(data)
    {
      if chunk.chunk < 1 { return false; }
      var c := chunk.chunk - 1;
      if c >= |t.offsets| { return false; }
      data := data.(offset := t.offsets[c], size := 0);
      return true;
    }

    method NextChunk() returns (ok: bool)
      modifies this`chunk, this`data
      ensures old(chunk).run >= |t.chunks| ==> !ok
      ensures old(chunk).run < |t.chunks| ==>
                && chunk == ChunkStepped(t.chunks, old(chunk))
                && (chunk.chunk == old(chunk).chunk ==> ok && data == old(data))
                && (chunk.chunk != old(chunk).chunk ==>
                      && ok == (chunk.chunk <= |t.offsets|)
                      && (ok ==> data == old(data).(offset := t.offsets[chunk.chunk - 1], size := 0)))
    {
      if chunk.run >= |t.chunks| { return false; }
      var ce := t.chunks[chunk.run];
      chunk := chunk.(count := chunk.count + 1);
      if chunk.count < ce.perChunk { return true; }
      chunk := chunk.(count := 0, chunk := chunk.chunk + 1);
      if chunk.run + 1 < |t.chunks| {
        if chunk.chunk >= t.chunks[chunk.run + 1].first {
          chunk := chunk.(run := chunk.run + 1);
        }
      }
      ok := UpdateOffset();
    }

    /** The offset moves past the previous sample of the same chunk. */
    method NextSize() returns (ok: bool)
      modifies this`data
      ensures data.offset == old(data).offset + old(data).size
      ensures ok == (t.sizes.Fixed? || old(data).pos + 1 < |t.sizes.entries|)
      ensures t.sizes.Fixed? ==> data.size == t.sizes.size
      ensures t.sizes.Each? && ok ==> data.pos == old(data).pos + 1 && data.size == t.sizes.entries[data.pos]
    {
      data := data.(offset := data.offset + data.size);
      if t.sizes.Fixed? {
        data := data.(size := t.sizes.size);
        return true;
      }
      data := data.(pos := data.pos + 1);
      if data.pos >= |t.sizes.entries| { return false; }
      data := data.(size := t.sizes.entries[data.pos]);
      return true;
    }

    method NextDelay()
      modifies this`delay
      ensures delay == DelayStepped(t.delays, old(delay))
    {
      if t.delays.None? { return; }
      var ds := t.delays.value;
      if delay.run >= |ds| { return; }
      delay := delay.(count := delay.count + 1);
      if delay.count >= ds[delay.run].count {
        delay := delay.(run := delay.run + 1, count := 0);
      }
      if delay.run >= |ds| { return; }
      delay := delay.(delay := ds[delay.run].value);
    }

    /** Chunk, offset and size move to sample `k + 1`. */
    method NextPlace(ghost k: nat) returns (ok: bool)
      requires ChunksOk(t.chunks) && k < ChunkStart(t.chunks, |t.offsets| + 1)
      requires t.sizes.Each? ==> |t.sizes.entries| == ChunkStart(t.chunks, |t.offsets| + 1)
      requires ChunkOk(t.chunks, chunk, k) && DataOk(t.sizes, t.offsets, chunk, data, k)
      modifies this`chunk, this`data
      ensures ok == (k + 1 < ChunkStart(t.chunks, |t.offsets| + 1))
      ensures ok ==> ChunkOk(t.chunks, chunk, k + 1) && DataOk(t.sizes, t.offsets, chunk, data, k + 1)
    {
      ghost var cell, data0 := chunk, data;
      ChunkStepKeeps(t.chunks, |t.offsets|, chunk, k);
      ok := NextChunk();
      if ok {
        ok := NextSize();
        if ok {
          DataStepKeeps(t.sizes, t.offsets, cell, chunk, data0, data, k);
        }
      }
    }

    /**
      * One sample forward.  From sample `k` it succeeds exactly when there is a sample `k + 1`, and has then come to
      * it; a cursor that is late stays late.
      */
    method Next(ghost k: nat, ghost late: Option<nat>) returns (ok: bool)
      requires TablesOk(t) && Follows(t, Here(), k, late)
      modifies this
      ensures ok == valid == (k + 1 < Samples(t))
      ensures ok ==> Follows(t, Here(), k + 1, late)
    {
      assert Unfold(0);
      TickKeeps(t.times, time, k, late);
      ok := NextTime();
      if ok {
        ok := NextRest(k);
      }
      valid := ok;
    }

    /** Everything but the time moves to sample `k + 1`. */
    method NextRest(ghost k: nat) returns (ok: bool)
      requires TablesOk(t) && Placed(t, Here(), k) && time.pos == k + 1
      modifies this`key, this`chunk, this`data, this`delay
      ensures ok == (k + 1 < Samples(t))
      ensures ok ==> Placed(t, Here(), k + 1)
    {
      KeyStepKeeps(t.keys, key, k);
      NextKey();
      ok := NextPlace(k);
      if ok {
        DelayStepKeeps(t.delays, delay, k);
        NextDelay();
      }
    }

    // ----- seek

    /** Finds the run that holds `target` and the sample in it, from a cleared cursor. */
    method SeekTime(target: uint32) returns (ok: bool)
      requires PositiveRuns(t.times) && Duration(t) < TWO32
      requires time == TimeCursor(0, 0, false, 0, 0, 0)
      modifies this`time
      ensures var r := StopRun(t.times, target); ok == (r < |t.times| && t.times[r].value > 0)
      ensures ok ==> Sought(t, target, time)
    {
      RunTimeStart(t.times);
      while time.run < |t.times|
        invariant time.run <= |t.times| && (time.run == 0 || RunTime(t.times, time.run) < target)
        invariant time == TimeCursor(RunTime(t.times, time.run), 0, false, Before(t.times, time.run), time.run, 0)
        decreases |t.times| - time.run
      {
        var end := RunEndTime();
        if end >= target {
          ok := FinishSeekTime(target);
          StopRunIs(t.times, target, time.run);
          if ok {
            Landed(t, target, time);
          }
          return;
        }
        NextRun(end);
      }
      StopRunIs(t.times, target, time.run);
      return false;
    }

    /** The whole current run is passed over. */
    method NextRun(end: uint32)
      requires time.run < |t.times| && end == RunTime(t.times, time.run + 1)
      requires time.pos == Before(t.times, time.run)
      modifies this`time
      ensures var r := old(time).run + 1;
                time == old(time).(timestamp := RunTime(t.times, r), pos := Before(t.times, r), run := r)
    {
      BeforeStep(t.times, time.run);
      time := time.(timestamp := end, pos := time.pos + t.times[time.run].count, run := time.run + 1);
    }

    /** The time at which the current run ends, from its start. */
    method RunEndTime() returns (end: uint32)
      requires time.run < |t.times| && Duration(t) < TWO32 && time.timestamp == RunTime(t.times, time.run)
      ensures end == RunTime(t.times, time.run + 1)
    {
      RunTimeStep(t.times, time.run);
      var dt := Multiply(t.times[time.run].count, t.times[time.run].value);
      Add32Cases(time.timestamp, dt);
      end := Add32(time.timestamp, dt);
    }

    /** The run is found; the rest of the way is a division. */
    method FinishSeekTime(target: uint32) returns (ok: bool)
      requires time.run < |t.times|
      requires time.timestamp == RunTime(t.times, time.run) <= target <= RunTime(t.times, time.run + 1) < TWO32
      requires time.pos == Before(t.times, time.run) && time.count == 0 && !time.notFirst
      modifies this`time
      ensures time.run == old(time).run && ok == (t.times[time.run].value > 0)
      ensures ok ==> Divided(t.times, target, time)
    {
      if t.times[time.run].value == 0 {
        return false;
      }
      var count, now := StepsInto(t.times, time.run, time.timestamp, target);
      time := TimeCursor(now, time.last, false, time.pos + count, time.run, count);
      return true;
    }

    /** Moves to the first key sample at or after the current one, if a key is left. */
    method SeekKey(ghost late: Option<nat>)
      requires PositiveRuns(t.times) && Duration(t) < TWO32 && (t.keys.Some? ==> Increasing(t.keys.value))
      requires t.keys.Some? ==> forall i :: 0 <= i < |t.keys.value| ==> 1 <= t.keys.value[i] <= Samples(t)
      requires key == KeyCursor(false, 0) && time.pos <= Samples(t) && OnTime(t.times, time, time.pos, late)
      modifies this`time, this`key
      ensures OnTime(t.times, time, time.pos, late) && (old(time).pos == Samples(t) ==> time == old(time))
      ensures old(time).pos < Samples(t) ==>
                time.pos < Samples(t) && KeyOk(t.keys, key, time.pos) && KeyFrom(t.keys, old(time).pos, time.pos)
    {
      if t.keys.None? { return; }
      var keys := t.keys.value;
      FindKey();
      if key.pos >= |keys| { return; }
      var dpos: int := keys[key.pos] - time.pos - 1;
      key := key.(key := true);
      Walk(dpos, late);
    }

    /** `n` samples of time forward. */
    method Walk(n: nat, ghost late: Option<nat>)
      requires PositiveRuns(t.times) && Duration(t) < TWO32
      requires OnTime(t.times, time, time.pos, late) && time.pos + n <= Samples(t)
      modifies this`time
      ensures time.pos == old(time).pos + n && OnTime(t.times, time, time.pos, late)
    {
      var i := 0;
      while i < n
        invariant i <= n && time.pos == old(time).pos + i && OnTime(t.times, time, time.pos, late)
      {
        TickKeeps(t.times, time, time.pos, late);
        var ok := NextTime();
        i := i + 1;
      }
    }

    /** The first key number above the current sample number. */
    method FindKey()
      requires t.keys.Some? && key == KeyCursor(false, 0)
      modifies this`key
      ensures KeyIndex(t.keys.value, key.pos, time.pos) && !key.key
    {
      while key.pos < |t.keys.value| && t.keys.value[key.pos] <= time.pos
        invariant key.pos <= |t.keys.value| && !key.key
        invariant forall i :: 0 <= i < key.pos ==> t.keys.value[i] <= time.pos
        decreases |t.keys.value| - key.pos
      {
        key := key.(pos := key.pos + 1);
      }
    }

    /** The chunk of the current sample, and the place in it. */
    method SeekChunk() returns (ok: bool)
      requires ChunksOk(t.chunks) && t.chunks[|t.chunks| - 1].first <= |t.offsets|
      requires ChunkStart(t.chunks, |t.offsets| + 1) < TWO32
      requires chunk.run == 0
      modifies this`chunk, this`data
      ensures ok == (1 <= chunk.chunk <= |t.offsets|)
      ensures ChunkOk(t.chunks, chunk, time.pos)
      ensures ok ==> data.offset == t.offsets[chunk.chunk - 1]
      ensures time.pos < ChunkStart(t.chunks, |t.offsets| + 1) ==> ok
      ensures data.pos == old(data).pos
    {
      var pos := FindChunkRun();
      var dchunk, rest := ChunksInto(t.chunks, chunk.run, time.pos, pos);
      chunk := ChunkCursor(t.chunks[chunk.run].first + dchunk, chunk.run, rest);
      ChunkWithin(t.chunks, |t.offsets|, chunk, time.pos);
      ok := UpdateOffset();
    }

    /** The entry whose chunks hold the current sample, and the number of samples before it. */
    method FindChunkRun() returns (pos: nat)
      requires ChunksOk(t.chunks) && t.chunks[|t.chunks| - 1].first <= |t.offsets|
      requires ChunkStart(t.chunks, |t.offsets| + 1) < TWO32
      requires chunk.run == 0
      modifies this`chunk
      ensures chunk.run < |t.chunks| && pos == ChunkStart(t.chunks, t.chunks[chunk.run].first) <= time.pos
      ensures chunk.run + 1 < |t.chunks| ==> time.pos < ChunkStart(t.chunks, t.chunks[chunk.run + 1].first)
    {
      pos := 0;
      while chunk.run + 1 < |t.chunks|
        invariant chunk.run < |t.chunks| && pos == ChunkStart(t.chunks, t.chunks[chunk.run].first) <= time.pos
        decreases |t.chunks| - chunk.run
      {
        var dpos := ChunkRunSpan(chunk.run);
        if pos + dpos > time.pos { return; }
        pos := pos + dpos;
        chunk := chunk.(run := chunk.run + 1);
      }
    }

    /** The samples in the chunks of entry `i`, which another entry follows. */
    method ChunkRunSpan(i: nat) returns (dpos: uint32)
      requires ChunksOk(t.chunks) && t.chunks[|t.chunks| - 1].first <= |t.offsets|
      requires ChunkStart(t.chunks, |t.offsets| + 1) < TWO32
      requires i + 1 < |t.chunks|
      ensures ChunkStart(t.chunks, t.chunks[i].first) + dpos == ChunkStart(t.chunks, t.chunks[i + 1].first)
    {
      var d := t.chunks[i + 1].first - t.chunks[i].first;
      StartInRun(t.chunks, i, d);
      LastIsGreatest(t.chunks, i + 1);
      CellsPrefix(t.chunks, t.chunks[i + 1].first, |t.offsets| + 1);
      dpos := Multiply(d, t.chunks[i].perChunk);
    }

    /** Adds the sizes of the samples before the current one in its chunk. */
    method SeekSize() returns (ok: bool)
      requires 1 <= chunk.chunk <= |t.offsets| && data.offset == t.offsets[chunk.chunk - 1]
      modifies this`data
      ensures ok == (chunk.count <= time.pos && (t.sizes.Each? ==> time.pos < |t.sizes.entries|))
      ensures ok ==> DataOk(t.sizes, t.offsets, chunk, data, time.pos)
    {
      if chunk.count > time.pos { return false; }
      if t.sizes.Fixed? {
        SizeSumFixed(t.sizes, time.pos, chunk.count);
        data := data.(size := t.sizes.size, offset := data.offset + t.sizes.size * chunk.count);
        return true;
      }
      if time.pos >= |t.sizes.entries| { return false; }
      var p := 1;
      while p <= chunk.count
        invariant 1 <= p <= chunk.count + 1
        invariant data.offset == t.offsets[chunk.chunk - 1] + SizeSum(t.sizes, time.pos, p - 1)
      {
        data := data.(offset := data.offset + t.sizes.entries[time.pos - p]);
        p := p + 1;
      }
      data := data.(pos := time.pos, size := t.sizes.entries[time.pos]);
      return true;
    }

    /** The composition delay of the current sample. */
    method SeekDelay()
      requires delay == DelayCursor(0, 0, 0)
      modifies this`delay
      ensures t.delays.None? || time.pos < |Expand(t.delays.value)| ==> DelayOk(t.delays, delay, time.pos)
    {
      if t.delays.None? { return; }
      var ds := t.delays.value;
      var pos: nat := 0;
      assert ds[..0] == [] && ds[..|ds|] == ds;
      while delay.run < |ds|
        invariant delay == DelayCursor(0, delay.run, 0) && delay.run <= |ds|
        invariant pos == Before(ds, delay.run) <= time.pos
        decreases |ds| - delay.run
      {
        BeforeStep(ds, delay.run);
        if pos + ds[delay.run].count > time.pos {
          delay := delay.(count := time.pos - pos, delay := ds[delay.run].value);
          return;
        }
        pos := pos + ds[delay.run].count;
        delay := delay.(run := delay.run + 1);
      }
    }

    /**
      * Seeks to `target`.  It succeeds exactly when a sample is found, and is then at the first key sample from the
      * one the target lands at; it is late when the target is the end of a run.
      */
    method SeekTrack(target: uint32) returns (ok: bool, ghost k0: nat)
      requires TablesOk(t)
      modifies this
      ensures ok == valid == Found(t, target)
      ensures ok ==> LandsAt(t, target, k0) && KeyFrom(t.keys, k0, time.pos)
      ensures ok ==> Follows(t, Here(), time.pos, EndOf(t, target))
    {
      time, key, chunk := TimeCursor(0, 0, false, 0, 0, 0), KeyCursor(false, 0), ChunkCursor(0, 0, 0);
      data, delay, valid := DataCursor(0, 0, 0), DelayCursor(0, 0, 0), false;
      ok := SeekTime(target);
      k0 := time.pos;
      if ok {
        FoundIs(t, target, time);
        ok := SeekFrom(k0, EndOf(t, target));
        valid := ok;
      }
    }

    /** The time has been found; the rest of the seek. */
    method SeekFrom(ghost k0: nat, ghost late: Option<nat>) returns (ok: bool)
      requires TablesOk(t) && key == KeyCursor(false, 0) && chunk.run == 0 && delay == DelayCursor(0, 0, 0)
      requires k0 == time.pos <= Samples(t) && OnTime(t.times, time, time.pos, late)
      modifies this`time, this`key, this`chunk, this`data, this`delay
      ensures ok == (k0 < Samples(t))
      ensures ok ==> KeyFrom(t.keys, k0, time.pos) && Follows(t, Here(), time.pos, late)
    {
      SeekKey(late);
      ok := SeekPlace();
    }

    /** Everything but time and key of the current sample, if it exists. */
    method SeekPlace() returns (ok: bool)
      requires TablesOk(t) && chunk.run == 0 && delay == DelayCursor(0, 0, 0) && time.pos <= Samples(t)
      modifies this`chunk, this`data, this`delay
      ensures ok == (time.pos < Samples(t))
      ensures ok && KeyOk(t.keys, key, time.pos) ==> Placed(t, Here(), time.pos)
    {
      ok := SeekChunk();
      ChunkExists(t, chunk, time.pos);
      if ok {
        ok := SeekSize();
        SeekDelay();
      }
    }

    /** Seeks, and steps on to the end of the track; `shown` is what the cursor shows on the way. */
    method Play(target: uint32) returns (ok: bool, ghost start: nat, shown: seq<Sample>)
      requires TablesOk(t)
      modifies this
      ensures ok == Found(t, target)
      ensures ok ==> exists k0 :: LandsAt(t, target, k0) && KeyFrom(t.keys, k0, start)
      ensures ok ==> start + |shown| == Samples(t) && (EndOf(t, target).Some? ==> 0 < EndOf(t, target).value <= start)
      ensures ok ==> ShownFrom(t, shown, start, EndOf(t, target)) && start < Samples(t)
      ensures ok ==> (Declared(t, shown, start) <==>
                EndOf(t, target).None? || SameSteps(t, start, EndOf(t, target).value))
    {
      ghost var k0;
      ok, k0 := SeekTrack(target);
      start, shown := time.pos, [];
      if ok {
        shown := PlayOn(start, EndOf(t, target));
        AllRight(t, shown, start, EndOf(t, target));
      }
    }

    /** Steps on from sample `start` to the end of the track. */
    method PlayOn(ghost start: nat, ghost late: Option<nat>) returns (shown: seq<Sample>)
      requires TablesOk(t) && Follows(t, Here(), start, late)
      modifies this
      ensures start + |shown| == Samples(t) && (late.Some? ==> 0 < late.value <= start)
      ensures ShownFrom(t, shown, start, late)
    {
      FollowsShows(t, Here(), start, late);
      shown := [];
      var more := true;
      ghost var k := start;
      while more
        invariant start + |shown| == k <= Samples(t) && ShownFrom(t, shown, start, late)
        invariant if more then Follows(t, Here(), k, late) else k == Samples(t)
        decreases Samples(t) - k, more
      {
        ghost var cr := Here();
        ShownMore(t, shown, start, late, cr, k);
        shown := shown + [Shown(Here())];
        assert start + |shown| == k + 1 <= Samples(t) && ShownFrom(t, shown, start, late);
        more := Next(k, late);
        k := k + 1;
      }
    }
  }

  /** The cursor has gone as many whole steps into its run as fit before the target. */
  ghost predicate Divided(times: seq<Run>, target: nat, c: TimeCursor) {
    && c.run < |times| && c.count <= times[c.run].count
    && c.pos == Before(times, c.run) + c.count <= |Expand(times)|
    && c.timestamp == TimeAt(times, c.pos) && !c.notFirst
    && (c.count == times[c.run].count <==> target == RunTime(times, c.run + 1))
    && (c.count < times[c.run].count ==> Landing(times, target, c.pos))
  }

  /** A cursor that stops inside a run is at its sample; one that stops at the end of a run is late from there on. */
  lemma Landed(t: Tables, target: nat, c: TimeCursor)
    requires PositiveRuns(t.times) && Divided(t.times, target, c) && c.run == StopRun(t.times, target)
    ensures Sought(t, target, c)
  {
    var end := EndOf(t, target);
    EndIs(t, target, c);
    if end.Some? {
      LandedLate(t.times, c);
    } else {
      assert TimeOk(t.times, c, c.pos);
    }
    SoughtIs(t, target, c, end);
  }

  lemma EndIs(t: Tables, target: nat, c: TimeCursor)
    requires Divided(t.times, target, c) && c.run == StopRun(t.times, target)
    ensures EndOf(t, target) == if c.count == t.times[c.run].count then Some(c.pos) else None
    ensures c.count == t.times[c.run].count ==> TimeAt(t.times, c.pos) == target
  {
    BeforeStep(t.times, c.run);
  }

  lemma SoughtIs(t: Tables, target: nat, c: TimeCursor, end: Option<nat>)
    requires end == EndOf(t, target) && c.pos <= Samples(t) && OnTime(t.times, c, c.pos, end)
    requires if end.Some? then c.pos == end.value && TimeAt(t.times, c.pos) == target
             else Landing(t.times, target, c.pos)
    ensures Sought(t, target, c)
  {
  }

  lemma LandedLate(times: seq<Run>, c: TimeCursor)
    requires PositiveRuns(times) && c.run < |times| && c.count == times[c.run].count
    requires c.pos == Before(times, c.run) + c.count <= |Expand(times)| && c.timestamp == TimeAt(times, c.pos)
    ensures LateTime(times, c, c.pos, c.pos)
  {
    SmallMod(c.timestamp);
  }

  lemma ThreeSamples(t: Tables, a: uint32, b: uint32)
    requires t.times == [Run(1, a), Run(2, b)]
    ensures Expand(t.times) == [a, b, b] && Before(t.times, 1) == 1
    ensures RunTime(t.times, 1) == a && TimeAt(t.times, 1) == a && TimeAt(t.times, 2) == a + b
            && Duration(t) == a + b + b
  {
    var times := t.times;
    assert times[..0] == [] && times[..2] == times;
    BeforeStep(times, 0);
    BeforeStep(times, 1);
    assert Repeat(a, 1) == [a] && Repeat(b, 2) == [b, b];
    assert Expand(times)[..0] == [];
    TimeStep(times, 0);
    TimeStep(times, 1);
    TimeStep(times, 2);
  }

  /** A track of three samples, at the times 0, a and a + b, in one chunk. */
  function ThreeTrack(a: uint32, b: uint32, offset: nat, size: uint32): Tables {
    Tables([Run(1, a), Run(2, b)], None, None, [ChunkRun(1, 3)], Fixed(size), [offset])
  }

  lemma ThreeTrackOk(t: Tables, a: uint32, b: uint32, offset: nat, size: uint32)
    requires t == ThreeTrack(a, b, offset, size) && 0 < a && a + b + b < TWO32 && size > 0
    ensures TablesOk(t) && Samples(t) == 3 && Expand(t.times) == [a, b, b] && EndOf(t, a) == Some(1) && Found(t, a)
  {
    ThreeSamples(t, a, b);
    RunTimeStart(t.times);
    StopRunIs(t.times, a, 0);
    assert PerChunk(t.chunks, 1) == 3 && Cells(t.chunks, 1) == [];
    assert Cells(t.chunks, 2) == Cells(t.chunks, 1) + Row(1, 3);
  }

  /** A seek to a shows that sample, but the step from it shows 2a for the sample at a + b. */
  method RunEndGoesWrong(a: uint32, b: uint32, offset: nat, size: uint32) returns (t: Tables, shown: seq<Sample>)
    requires 0 < a && a + a < TWO32 && a + b + b < TWO32 && size > 0
    ensures t == ThreeTrack(a, b, offset, size) && TablesOk(t) && Samples(t) == 3
    ensures |shown| == 2 && shown[0] == SampleAt(t, 1)
    ensures SampleAt(t, 2).time == a + b && shown[1].time == a + a
  {
    t := ThreeTrack(a, b, offset, size);
    ThreeTrackOk(t, a, b, offset, size);
    ThreeSamples(t, a, b);
    var track := new Track(t);
    var ok;
    ghost var start;
    ok, start, shown := track.Play(a);
    assert start == 1 && shown[0] == ShownAt(t, 1, Some(1)) && shown[1] == ShownAt(t, 2, Some(1));
    ThreeShown(t, a, b);
  }

  lemma ThreeShown(t: Tables, a: uint32, b: uint32)
    requires TablesOk(t) && Samples(t) == 3 && Expand(t.times) == [a, b, b] && a + a < TWO32
    requires TimeAt(t.times, 1) == a && TimeAt(t.times, 2) == a + b
    ensures ShownAt(t, 1, Some(1)) == SampleAt(t, 1)
    ensures SampleAt(t, 2).time == a + b && ShownAt(t, 2, Some(1)).time == a + a
  {
    ShownIsRight(t, 1, Some(1));
    SmallMod(a + a);
  }

  /** A chunk that exists holds samples that exist, and no others. */
  lemma ChunkExists(t: Tables, c: ChunkCursor, k: nat)
    requires TablesOk(t) && ChunkOk(t.chunks, c, k)
    ensures 1 <= c.chunk && c.count <= k && (c.chunk <= |t.offsets| <==> k < Samples(t))
  {
    ChunkWithin(t.chunks, |t.offsets|, c, k);
    FirstIsLeast(t.chunks, c.run);
    if c.chunk <= |t.offsets| {
      PerChunkIs(t.chunks, c.run, c.chunk);
      CellAt(t.chunks, c.chunk, c.count, |t.offsets| + 1);
    }
  }

  lemma LastIsGreatest(chunks: seq<ChunkRun>, i: nat)
    requires ChunksOk(chunks) && i < |chunks|
    ensures chunks[i].first <= chunks[|chunks| - 1].first
  {
    if i < |chunks| - 1 {
      assert chunks[i].first < chunks[|chunks| - 1].first;
    }
  }

  /** Dividing by the samples per chunk does not leave the entry. */
  lemma DivisionStaysInRun(chunks: seq<ChunkRun>, i: nat, k: nat, d: nat)
    requires ChunksOk(chunks) && i < |chunks| && ChunkStart(chunks, chunks[i].first) <= k
    requires i + 1 < |chunks| ==> k < ChunkStart(chunks, chunks[i + 1].first)
    requires d * chunks[i].perChunk <= k - ChunkStart(chunks, chunks[i].first) < (d + 1) * chunks[i].perChunk
    ensures i + 1 < |chunks| ==> chunks[i].first + d < chunks[i + 1].first
    ensures ChunkStart(chunks, chunks[i].first + d) == ChunkStart(chunks, chunks[i].first) + d * chunks[i].perChunk
    ensures k - ChunkStart(chunks, chunks[i].first) - d * chunks[i].perChunk < chunks[i].perChunk
  {
    assert (d + 1) * chunks[i].perChunk == d * chunks[i].perChunk + chunks[i].perChunk;
    if i + 1 < |chunks| {
      var n := chunks[i + 1].first - chunks[i].first;
      StartInRun(chunks, i, n);
      MulOrder(n, d, chunks[i].perChunk);
    }
    StartInRun(chunks, i, d);
  }

  /** The chunk of a sample that exists is a chunk that exists. */
  lemma ChunkWithin(chunks: seq<ChunkRun>, n: nat, c: ChunkCursor, k: nat)
    requires ChunksOk(chunks) && ChunkOk(chunks, c, k)
    ensures 1 <= c.chunk && (k < ChunkStart(chunks, n + 1) ==> c.chunk <= n)
  {
    FirstIsLeast(chunks, c.run);
    if c.chunk > n {
      CellsPrefix(chunks, n + 1, c.chunk);
    }
  }
}
