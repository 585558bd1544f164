/**
  * ngx_rtmp_recv: the resumable receive loop over recycled, fixed-size buffers.  It is proved to compute
  * ChunkFormat.Feed of the bytes the socket returned, whatever pieces the socket returned them in.
  */
module ChunkReceiver {
  import opened Bytes
  import opened ChunkFormat
  import opened ChunkBuffers

  datatype Outcome = Again | Ready | Killed

  /** Leftover bytes of the buffer just finished: `size` bytes at `pos` of buffer `id`. */
  datatype Leftover = Nothing | Left(id: nat, pos: nat, size: nat)

  /** A header that is still arriving may already have overwritten the fields it carries, and no others. */
  ghost predicate Overlaid(st: InStream, st0: InStream, bh: Basic) {
    && st.dtime == st0.dtime && st.len == st0.len && st.ext == st0.ext
    && st.hdr.timestamp == st0.hdr.timestamp && st.hdr.csid == bh.csid
    && (bh.fmt > 1 ==> st.hdr.mlen == st0.hdr.mlen && st.hdr.kind == st0.hdr.kind)
    && (bh.fmt > 0 ==> st.hdr.msid == st0.hdr.msid)
  }

  /**
    * The message header and extended timestamp of a chunk whose basic header took `p0` bytes.  Fields are
    * written into the stream as they are met, so a header that stops short leaves some of them behind.
    */
  method ReadFields(cfg: Config, data: seq<byte>, ghost st0: InStream, bh: Basic, stream: InStream)
    returns (got: bool, st: InStream, p: nat)
    requires ParseBasic(data) == Some(bh) && Overlaid(stream, st0, bh)
    ensures got ==> ParseHeader(cfg, st0, bh, data) == Done(st, p)
    ensures !got ==> ParseHeader(cfg, st0, bh, data).NeedMore? && Overlaid(st, st0, bh)
  {
    got, st, p := false, stream, bh.size;
    var fmt := bh.fmt;
    var ext, timestamp := st.ext, st.dtime;
    if fmt <= 2 {
      if |data| - p < 3 { return; }
      timestamp := OfBe24(data[p], data[p + 1], data[p + 2]);
      p := p + 3;
      ext := timestamp == EXTENDED;
      if fmt <= 1 {
        if |data| - p < 4 { return; }
        st := st.(hdr := st.hdr.(mlen := OfBe24(data[p], data[p + 1], data[p + 2]), kind := data[p + 3]));
        p := p + 4;
        if fmt == 0 {
          if |data| - p < 4 { return; }
          st := st.(hdr := st.hdr.(msid := OfBe32(data[p + 3], data[p + 2], data[p + 1], data[p])));
          p := p + 4;
        }
      }
    }
    if ext {
      if |data| - p < 4 { return; }
      timestamp := OfBe32(data[p], data[p + 1], data[p + 2], data[p + 3]);
      p := p + 4;
    }
    got := true;
    if st.len == 0 {
      st := st.(ext := ext && cfg.timeFix);
      if fmt != 0 {
        st := st.(dtime := timestamp);
      } else {
        st := st.(dtime := 0, hdr := st.hdr.(timestamp := timestamp));
      }
    }
  }

  /** `r` is on its way to what feeding `a` to `r0` gives. */
  ghost predicate Leads(cfg: Config, r: Receiver, r0: Receiver, a: seq<byte>)
    requires WellFormed(cfg, r) && WellFormed(cfg, r0)
  {
    forall k: int {:trigger Unfold(k)} :: Unfold(k) ==> Drain(cfg, r) == Feed(cfg, r0, a)
  }

  lemma LeadsStart(cfg: Config, r: Receiver)
    requires WellFormed(cfg, r) && Quiet(cfg, r)
    ensures Leads(cfg, r, r, [])
  {
    assert r.pending + [] == r.pending;
  }

  /** A receiver that cannot go on has arrived. */
  lemma LeadsEnd(cfg: Config, r: Receiver, r0: Receiver, a: seq<byte>)
    requires WellFormed(cfg, r) && WellFormed(cfg, r0) && Leads(cfg, r, r0, a) && Quiet(cfg, r)
    ensures Fed(cfg, r0, a, r)
  {
    assert Unfold(0);
  }

  lemma LeadsMore(cfg: Config, r: Receiver, r0: Receiver, a: seq<byte>, b: seq<byte>)
    requires WellFormed(cfg, r) && WellFormed(cfg, r0) && Leads(cfg, r, r0, a) && Quiet(cfg, r) && !r.dead
    ensures Leads(cfg, r.(pending := r.pending + b), r0, a + b)
  {
    assert Unfold(0);
    FeedOn(cfg, r0, r, a, b);
  }

  lemma LeadsRead(cfg: Config, r: Receiver, r': Receiver, r0: Receiver, avail: seq<byte>, taken0: nat, taken: nat)
    requires WellFormed(cfg, r) && WellFormed(cfg, r0) && Quiet(cfg, r) && !r.dead
    requires taken0 <= taken <= |avail| && Leads(cfg, r, r0, avail[..taken0])
    requires r' == r.(pending := r.pending + avail[taken0..][..taken - taken0])
    ensures WellFormed(cfg, r') && Leads(cfg, r', r0, avail[..taken])
  {
    LeadsMore(cfg, r, r0, avail[..taken0], avail[taken0..][..taken - taken0]);
    assert avail[..taken0] + avail[taken0..][..taken - taken0] == avail[..taken];
  }

  lemma LeadsStep(cfg: Config, r: Receiver, r': Receiver, r0: Receiver, a: seq<byte>)
    requires WellFormed(cfg, r) && WellFormed(cfg, r') && WellFormed(cfg, r0) && Leads(cfg, r, r0, a) && !r.dead
    requires || (NextChunk(cfg, r).Fail? && r' == Dead(r))
             || (NextChunk(cfg, r).Chunk? && r' == TakeChunk(cfg, r, NextChunk(cfg, r)))
    ensures Leads(cfg, r', r0, a)
  {
    assert Unfold(0);
  }

  /** The basic header of one, two or three bytes. */
  method ReadBasic(data: seq<byte>) returns (got: bool, bh: Basic)
    requires data != []
    ensures got == ParseBasic(data).Some?
    ensures got ==> ParseBasic(data) == Some(bh)
  {
    var p, fmt := 1, data[0] / 64;
    var csid: uint32 := data[0] % 64;
    got, bh := false, Basic(fmt, csid, p);
    if csid == 0 {
      if |data| - p < 1 { return; }
      csid := 64 + data[p] as int;
      p := p + 1;
    } else if csid == 1 {
      if |data| - p < 2 { return; }
      csid := 64 + data[p] as int + 256 * (data[p + 1] as int);
      p := p + 2;
    }
    got, bh := true, Basic(fmt, csid, p);
  }

  lemma HeaderDecides(cfg: Config, r: Receiver, bh: Basic)
    requires WellFormed(cfg, r) && ParseBasic(r.pending) == Some(bh) && bh.csid < cfg.maxStreams
    ensures var h := ParseHeader(cfg, r.streams[bh.csid].stream, bh, r.pending);
            && (h.NeedMore? ==> NextChunk(cfg, r).Wait?)
            && (h.Done? && h.stream.hdr.mlen > cfg.maxMessage ==> NextChunk(cfg, r).Fail?)
  {
  }

  /** The listed buffers hold `bytes`. */
  ghost predicate Holds(bufs: seq<Buf>, ids: seq<nat>, bytes: seq<byte>) {
    Gather(bufs, ids) == bytes
  }

  lemma GatherLast(bufs: seq<Buf>, ids: seq<nat>)
    requires ids != [] && ids[|ids| - 1] < |bufs|
    ensures Gather(bufs, ids) == Gather(bufs, ids[..|ids| - 1]) + bufs[ids[|ids| - 1]].Live()
  {
    assert ids == ids[..|ids| - 1] + [ids[|ids| - 1]];
    GatherSnoc(bufs, ids[..|ids| - 1], ids[|ids| - 1]);
  }

  class Session {
    const cfg: Config
    var bufs: seq<Buf>
    var chains: seq<seq<nat>>
    var streams: seq<InStream>
    var inCsid: nat
    var destroyed: bool
    var delivered: seq<Message>
    ghost var home: seq<Home>
    ghost var model: Receiver

    ghost function Capacity(): nat {
      cfg.chunkSize + MAX_CHUNK_HEADER
    }

    ghost predicate Shape()
      reads this
    {
      && WellFormed(cfg, model)
      && |streams| == |chains| == cfg.maxStreams
      && Owned(Capacity(), bufs, chains, home)
      && inCsid < cfg.maxStreams
      && (inCsid > 0 ==> chains[inCsid] != [])
      && !destroyed && !model.dead && delivered == model.delivered
    }

    /** The buffers that hold collected payload of stream `c`; the newest one may still be filling. */
    ghost function Collected(c: nat): seq<nat>
      requires c < |chains|
      reads this
    {
      if c == inCsid && chains[c] != [] then chains[c][..|chains[c]| - 1] else chains[c]
    }

    ghost predicate StreamOk(c: int)
      requires |model.streams| == |streams| == |chains| == cfg.maxStreams
      reads this
    {
      0 < c < cfg.maxStreams ==>
        && model.streams[c].data == Gather(bufs, Collected(c))
        && (c != inCsid ==> streams[c] == model.streams[c].stream)
    }

    ghost predicate Agree()
      reads this
    {
      && |model.streams| == |streams| == |chains| == cfg.maxStreams
      && forall c: int {:trigger Known(c)} :: Known(c) ==> StreamOk(c)
    }

    /** The buffer being filled: the head of the free list, or the newest of the current stream's list. */
    function Current(): nat
      requires inCsid < |chains| && chains[inCsid] != []
      reads this
    {
      if inCsid == 0 then chains[0][0] else chains[inCsid][|chains[inCsid]| - 1]
    }

    /** How far the header of the current chunk has been read, when `pos` bytes of it are done with. */
    ghost predicate Progress(pending: seq<byte>, pos: nat)
      reads this
    {
      && inCsid < |streams| == |model.streams|
      && (inCsid == 0 ==> pos == 0)
      && (inCsid > 0 ==>
            && ParseBasic(pending).Some? && ParseBasic(pending).value.csid == inCsid
            && (if pos == 0 then Overlaid(streams[inCsid], model.streams[inCsid].stream, ParseBasic(pending).value)
                else ParseHeader(cfg, model.streams[inCsid].stream, ParseBasic(pending).value, pending)
                     == Done(streams[inCsid], pos)))
    }

    ghost predicate HasCurrent()
      reads this
    {
      inCsid < |chains| && chains[inCsid] != [] && Current() < |bufs| && bufs[Current()].Valid(Capacity())
    }

    lemma CurrentValid()
      requires Shape() && chains[inCsid] != []
      ensures HasCurrent()
    {
      InStore(Capacity(), bufs, chains, home, inCsid, if inCsid == 0 then 0 else |chains[inCsid]| - 1);
    }

    /** The current buffer holds exactly the pending bytes. */
    ghost predicate Front()
      reads this
    {
      && HasCurrent()
      && bufs[Current()].data[..bufs[Current()].last] == model.pending
      && Progress(model.pending, bufs[Current()].pos)
    }

    /** The header of the current chunk has not been read to its end. */
    ghost predicate HeaderOpen()
      reads this
    {
      Front() && bufs[Current()].pos == 0
    }

    /** The header of the current chunk has been read. */
    ghost predicate HeaderRead()
      reads this
    {
      Front() && bufs[Current()].pos > 0
    }

    /** A header that has been read announces a message of acceptable size. */
    ghost predicate Fits()
      reads this
    {
      HeaderRead() ==> streams[inCsid].hdr.mlen <= cfg.maxMessage
    }

    /** A buffer is open for more bytes, or there is none and nothing is pending. */
    ghost predicate Filling()
      reads this
    {
      && |chains| > inCsid
      && (if chains[inCsid] == [] then inCsid == 0 && model.pending == [] else Front() && Fits())
    }

    /** `left` names the bytes that are still pending, in a buffer that is already done with. */
    ghost predicate LeftoverIs(left: Leftover)
      reads this
    {
      && left.Left? && left.id < |bufs| && left.pos + left.size <= |bufs[left.id].data| == Capacity()
      && model.pending == bufs[left.id].data[left.pos..left.pos + left.size]
    }

    /** Between two calls of Recv. */
    ghost predicate Valid()
      reads this
    {
      && WellFormed(cfg, model)
      && destroyed == model.dead && delivered == model.delivered
      && Quiet(cfg, model)
      && (!destroyed ==>
            Shape() && Agree() && Filling())
    }

    constructor (cfg: Config)
      requires cfg.Valid()
      ensures Valid() && this.cfg == cfg
      ensures model == Receiver(seq(cfg.maxStreams, i => Partial(EMPTY_STREAM, [])), [], [], false)
    {
      this.cfg := cfg;
      bufs, home := [], [];
      chains := seq(cfg.maxStreams, i => []);
      streams := seq(cfg.maxStreams, i => EMPTY_STREAM);
      inCsid, destroyed, delivered := 0, false, [];
      model := Receiver(seq(cfg.maxStreams, i => Partial(EMPTY_STREAM, [])), [], [], false);
    }

    /** Makes sure the current list has a buffer to read into (ngx_rtmp_alloc_in_buf). */
    method EnsureBuffer()
      requires Shape() && Agree()
      modifies this`bufs, this`chains, this`home
      ensures Shape() && Agree() && HasCurrent()
      ensures old(chains[inCsid]) != [] ==> chains == old(chains) && bufs == old(bufs)
      ensures |bufs| >= |old(bufs)| && bufs[..|old(bufs)|] == old(bufs)
      ensures old(chains[inCsid]) == [] ==> inCsid == 0 && bufs[Current()].pos == bufs[Current()].last == 0
    {
      if chains[inCsid] == [] {
        var b := Buf(0, 0, seq(cfg.chunkSize + MAX_CHUNK_HEADER, i => 0));
        AllocKeepsOwned(Capacity(), bufs, chains, home, b);
        ghost var before := bufs;
        forall c: int | Known(c) && 0 < c < cfg.maxStreams
          ensures Gather(before + [b], chains[c]) == Gather(before, chains[c])
        {
          ListedInStore(c);
          GatherFrame(before, before + [b], chains[c]);
        }
        bufs, chains, home := bufs + [b], chains[0 := [|bufs|]], home + [Home(0, 0)];
      } else {
        CurrentValid();
      }
    }

    lemma ListedInStore(c: nat)
      requires Shape() && c < cfg.maxStreams
      ensures forall i :: 0 <= i < |chains[c]| ==> chains[c][i] < |bufs|
    {
      forall i | 0 <= i < |chains[c]| ensures chains[c][i] < |bufs| {
        InStore(Capacity(), bufs, chains, home, c, i);
      }
    }

    /** Puts new contents into the current buffer, leaving every other buffer alone. */
    method Store(b: Buf)
      requires Shape() && Agree() && HasCurrent()
      requires b.Valid(Capacity())
      modifies this`bufs
      ensures Shape() && Agree() && HasCurrent()
      ensures bufs == old(bufs)[Current() := b]
    {
      var id := Current();
      StoreKeepsOwned(Capacity(), bufs, chains, home, id, b);
      forall c: int | Known(c) ensures 0 < c < cfg.maxStreams ==>
            model.streams[c].data == Gather(bufs[id := b], Collected(c)) {
        if 0 < c < cfg.maxStreams {
          StoreKeepsData(c, b);
        }
      }
      bufs := bufs[id := b];
    }

    /** The current buffer holds none of the collected payload. */
    lemma StoreKeepsData(c: nat, b: Buf)
      requires Shape() && 0 < c < cfg.maxStreams && chains[inCsid] != [] && StreamOk(c) && Current() < |bufs|
      ensures model.streams[c].data == Gather(bufs[Current() := b], Collected(c))
    {
      CurrentNotCollected(c);
      ListedInStore(c);
      GatherFrame(bufs, bufs[Current() := b], Collected(c));
    }

    lemma CurrentNotCollected(c: nat)
      requires Shape() && 0 < c < cfg.maxStreams && chains[inCsid] != []
      ensures Current() !in Collected(c)
    {
      var k := if inCsid == 0 then 0 else |chains[inCsid]| - 1;
      forall i | 0 <= i < |Collected(c)| ensures Collected(c)[i] != Current() {
        OnePlace(Capacity(), bufs, chains, home, c, i, inCsid, k);
      }
    }

    method SetStream(st: InStream)
      requires Shape() && Agree() && inCsid > 0
      modifies this`streams
      ensures Shape() && Agree() && streams == old(streams)[inCsid := st]
    {
      streams := streams[inCsid := st];
    }

    /** Moves the current (orphan) buffer from the free list to the end of list `csid`. */
    method LinkOrphan(csid: uint32)
      requires Shape() && Agree() && HeaderOpen() && inCsid == 0
      requires 2 <= csid < cfg.maxStreams
      requires ParseBasic(model.pending).Some? && ParseBasic(model.pending).value.csid == csid
      modifies this`chains, this`home, this`inCsid, this`streams
      ensures Shape() && Agree() && HeaderOpen() && inCsid == csid
      ensures streams == old(streams)[csid := old(streams)[csid].(hdr := old(streams)[csid].hdr.(csid := csid))]
    {
      assert Known(csid);
      LinkKeepsOwned(Capacity(), bufs, chains, home, csid);
      LinkedLists(chains, csid);
      chains, home := Linked(chains, csid), LinkedHomes(chains, home, csid);
      inCsid := csid;
      streams := streams[csid := streams[csid].(hdr := streams[csid].hdr.(csid := csid))];
      CurrentValid();
    }

    method Kill()
      requires Shape()
      modifies this`destroyed, this`model
      ensures destroyed && model == Dead(old(model))
    {
      destroyed, model := true, Dead(model);
    }

    /** Parses the chunk header at the start of the current buffer, as far as it has arrived. */
    method ReadHeader() returns (o: Outcome)
      requires Shape() && Agree() && HeaderOpen()
      requires model.pending != []
      modifies this
      ensures o.Killed? ==>
                && destroyed && NextChunk(cfg, old(model)).Fail? && model == Dead(old(model))
                && delivered == old(delivered)
      ensures !o.Killed? ==> Shape() && Agree() && model == old(model)
      ensures o.Again? ==> HeaderOpen() && NextChunk(cfg, model).Wait?
      ensures o.Ready? ==> HeaderRead() && Fits()
    {
      var b := bufs[Current()];
      var got, bh := ReadBasic(b.data[..b.last]);
      if !got { return Again; }
      if bh.csid >= cfg.maxStreams {
        Kill();
        return Killed;
      }
      if inCsid == 0 {
        LinkOrphan(bh.csid);
      }
      o := ReadRest(bh);
    }

    /** The rest of the header, now that its buffer is on the list of its stream. */
    method ReadRest(bh: Basic) returns (o: Outcome)
      requires Shape() && Agree() && HeaderOpen() && inCsid > 0
      requires ParseBasic(model.pending) == Some(bh)
      modifies this`streams, this`bufs, this`destroyed, this`model
      ensures o.Killed? ==> destroyed && NextChunk(cfg, old(model)).Fail? && model == Dead(old(model))
      ensures !o.Killed? ==> Shape() && Agree() && model == old(model)
      ensures o.Again? ==> HeaderOpen() && NextChunk(cfg, model).Wait?
      ensures o.Ready? ==> HeaderRead() && Fits()
    {
      HeaderDecides(cfg, model, bh);
      var got := SettleHeader(bh);
      if !got { return Again; }
      if streams[inCsid].hdr.mlen > cfg.maxMessage {
        Kill();
        return Killed;
      }
      return Ready;
    }

    method SettleHeader(bh: Basic) returns (got: bool)
      requires Shape() && Agree() && HeaderOpen() && inCsid > 0
      requires ParseBasic(model.pending) == Some(bh)
      modifies this`streams, this`bufs
      ensures Shape() && Agree()
      ensures got == ParseHeader(cfg, model.streams[inCsid].stream, bh, model.pending).Done?
      ensures if got then HeaderRead() else HeaderOpen()
    {
      var b := bufs[Current()];
      var st, p;
      got, st, p := ReadFields(cfg, b.data[..b.last], model.streams[inCsid].stream, bh, streams[inCsid]);
      if !got {
        p := 0;
      }
      SetStream(st);
      assert Progress(model.pending, p);
      Store(b.(pos := p));
      assert bufs[Current()] == b.(pos := p);
    }

    /** Acts on the current chunk once its whole body is in the buffer. */
    method FinishChunk() returns (o: Outcome, left: Leftover)
      requires Shape() && Agree() && HeaderRead() && Fits()
      modifies this
      ensures o.Again? ==>
                && left.Nothing? && Shape() && Agree() && HeaderRead() && Fits()
                && model == old(model) && NextChunk(cfg, model).Wait?
      ensures !o.Again? ==>
                NextChunk(cfg, old(model)).Chunk? && model == TakeChunk(cfg, old(model), NextChunk(cfg, old(model)))
      ensures delivered == model.delivered && destroyed == model.dead == o.Killed?
      ensures o.Ready? ==> Shape() && Agree() && inCsid == 0 && LeftoverIs(left)
      ensures o.Ready? ==> left.size < |old(model).pending|
    {
      var id := Current();
      var b := bufs[id];
      var st := streams[inCsid];
      var size := b.last - b.pos;
      var fsize := Sub32(st.hdr.mlen, st.len);
      HeaderDoneMeans();
      if size < Min(fsize, cfg.chunkSize) {
        return Again, Nothing;
      }
      o, left := TakeBody(Min(fsize, cfg.chunkSize), NextChunk(cfg, model));
    }

    /** Takes the chunk `c`, whose body is in the current buffer, and finds what is left behind it. */
    method TakeBody(take: nat, ghost c: ChunkStep) returns (o: Outcome, left: Leftover)
      requires Shape() && Agree() && inCsid > 0 && HasCurrent()
      requires 0 < bufs[Current()].pos <= bufs[Current()].pos + take <= bufs[Current()].last <= |model.pending|
      requires take == BodySize(cfg, streams[inCsid])
      requires var b := bufs[Current()];
               && c == Chunk(inCsid, streams[inCsid], b.data[b.pos..b.pos + take], b.pos + take)
               && model.pending[b.pos + take..] == b.data[b.pos + take..b.last]
      modifies this
      ensures !o.Again? && model == TakeChunk(cfg, old(model), c)
      ensures delivered == model.delivered && destroyed == model.dead == o.Killed?
      ensures o.Ready? ==> Shape() && Agree() && inCsid == 0 && LeftoverIs(left)
      ensures o.Ready? ==> left.size < |old(model).pending|
    {
      var b := bufs[Current()];
      left := Left(Current(), b.pos + take, b.last - b.pos - take);
      o := Consume(take, c);
    }

    /** Cuts the body off and acts on the chunk; buffers keep their contents. */
    method Consume(take: nat, ghost c: ChunkStep) returns (o: Outcome)
      requires Shape() && Agree() && inCsid > 0 && HasCurrent()
      requires bufs[Current()].pos + take <= bufs[Current()].last <= |model.pending|
      requires var b := bufs[Current()];
               c == Chunk(inCsid, streams[inCsid], b.data[b.pos..b.pos + take], b.pos + take)
      modifies this
      ensures !o.Again? && model == TakeChunk(cfg, old(model), c)
      ensures delivered == model.delivered && destroyed == model.dead == o.Killed?
      ensures o.Ready? ==> Shape() && Agree() && inCsid == 0 && model.pending == old(model).pending[c.used..]
      ensures |bufs| == |old(bufs)| && bufs[old(Current())].data == old(bufs[Current()].data)
    {
      CutBody(take, c.body);
      o := Settle(c);
    }

    /** Collects the chunk or, if it is the last one, hands the message over. */
    method Settle(ghost c: ChunkStep) returns (o: Outcome)
      requires Shape() && Agree() && inCsid > 0
      requires c.Chunk? && c.used <= |model.pending| && c.csid == inCsid && c.stream == streams[inCsid]
      requires Holds(bufs, chains[inCsid], model.streams[inCsid].data + c.body)
      modifies this`streams, this`model, this`inCsid, this`chains, this`home, this`delivered, this`destroyed
      ensures !o.Again? && model == TakeChunk(cfg, old(model), c)
      ensures delivered == model.delivered && destroyed == model.dead == o.Killed?
      ensures o.Ready? ==> Shape() && Agree() && inCsid == 0 && model.pending == old(model).pending[c.used..]
    {
      if Missing(streams[inCsid]) > cfg.chunkSize {
        Collect(c);
        o := Ready;
      } else {
        o := Deliver(c);
      }
    }

    /** With the header read, the next step depends only on how much of the body is in the buffer. */
    lemma HeaderDoneMeans()
      requires Shape() && HeaderRead() && Fits()
      ensures var b, st := bufs[Current()], streams[inCsid];
              var take := BodySize(cfg, st);
              if b.last - b.pos < take then NextChunk(cfg, model).Wait?
              else
                && NextChunk(cfg, model) == Chunk(inCsid, st, b.data[b.pos..b.pos + take], b.pos + take)
                && model.pending[b.pos + take..] == b.data[b.pos + take..b.last]
    {
      var b, st := bufs[Current()], streams[inCsid];
      var take := BodySize(cfg, st);
      if b.last - b.pos >= take {
        SliceOfPrefix(b.data, b.last, b.pos, b.pos + take);
        SliceOfPrefix(b.data, b.last, b.pos + take, b.last);
      }
    }

    /** Cuts the current buffer after `take` bytes of body, which then belong to the collected payload. */
    method CutBody(take: nat, ghost body: seq<byte>)
      requires Shape() && Agree() && inCsid > 0 && HasCurrent()
      requires bufs[Current()].pos + take <= bufs[Current()].last
      requires body == bufs[Current()].data[bufs[Current()].pos..bufs[Current()].pos + take]
      modifies this`bufs
      ensures Shape() && Agree() && HasCurrent() && |bufs| == |old(bufs)|
      ensures bufs[Current()].data == old(bufs[Current()].data)
      ensures Holds(bufs, chains[inCsid], model.streams[inCsid].data + body)
    {
      var id := Current();
      var b := bufs[id];
      Store(b.(last := b.pos + take));
      assert model.streams[inCsid].data == Gather(bufs, Collected(inCsid)) by {
        assert Known(inCsid);
      }
      GatherLast(bufs, chains[inCsid]);
    }

    /** The chunk is not the last of its message: its buffer stays on the stream's list. */
    method Collect(ghost c: ChunkStep)
      requires Shape() && Agree() && inCsid > 0
      requires c.Chunk? && c.used <= |model.pending| && c.csid == inCsid && c.stream == streams[inCsid]
      requires Holds(bufs, chains[inCsid], model.streams[inCsid].data + c.body)
      requires Missing(c.stream) > cfg.chunkSize
      modifies this`streams, this`model, this`inCsid
      ensures Shape() && Agree() && inCsid == 0
      ensures model == TakeChunk(cfg, old(model), c)
    {
      var st := streams[inCsid];
      model := TakeChunk(cfg, model, c);
      streams := streams[inCsid := st.(len := Add32(st.len, cfg.chunkSize))];
      inCsid := 0;
    }

    /** The message is complete: it is handed over and its buffers go to the front of the free list. */
    method Deliver(ghost c: ChunkStep) returns (o: Outcome)
      requires Shape() && Agree() && inCsid > 0
      requires c.Chunk? && c.used <= |model.pending| && c.csid == inCsid && c.stream == streams[inCsid]
      requires Holds(bufs, chains[inCsid], model.streams[inCsid].data + c.body)
      requires Missing(c.stream) <= cfg.chunkSize
      modifies this`streams, this`model, this`inCsid, this`chains, this`home, this`delivered, this`destroyed
      ensures model == TakeChunk(cfg, old(model), c)
      ensures delivered == model.delivered && destroyed == model.dead == o.Killed? && !o.Again?
      ensures o.Ready? ==> Shape() && Agree() && inCsid == 0
    {
      ghost var before := model;
      var st := Completed(streams[inCsid]);
      streams := streams[inCsid := st];
      ListedInStore(inCsid);
      var payload := Assemble(bufs, chains[inCsid]);
      var m := Message(st.hdr, payload);
      delivered := delivered + [m];
      model := TakeChunk(cfg, model, c);
      if !cfg.accepts(m) {
        destroyed := true;
        return Killed;
      }
      Recycle();
      return Ready;
    }

    /** Used buffers are added to stream 0, in front of the ones already there. */
    method Recycle()
      requires Shape() && inCsid > 0
      requires model.streams[inCsid] == Partial(streams[inCsid], [])
      requires forall c: int {:trigger Known(c)} :: Known(c) && c != inCsid ==> StreamOk(c)
      modifies this`inCsid, this`chains, this`home
      ensures Shape() && Agree() && inCsid == 0
    {
      RecycleKeepsOwned(Capacity(), bufs, chains, home, inCsid);
      chains, home := Recycled(chains, inCsid), RecycledHomes(chains, home, inCsid);
      inCsid := 0;
      forall c: int | Known(c) ensures StreamOk(c) {
      }
    }

    /** What a handler sees when it walks the chain it is given. */
    static method Assemble(bufs: seq<Buf>, ids: seq<nat>) returns (bytes: seq<byte>)
      requires forall i :: 0 <= i < |ids| ==> ids[i] < |bufs|
      ensures bytes == Gather(bufs, ids)
    {
      bytes := [];
      var i := 0;
      while i < |ids|
        invariant 0 <= i <= |ids|
        invariant bytes == Gather(bufs, ids[..i])
      {
        assert ids[..i + 1] == ids[..i] + [ids[i]];
        GatherSnoc(bufs, ids[..i], ids[i]);
        bytes := bytes + bufs[ids[i]].Live();
        i := i + 1;
      }
      assert ids[..i] == ids;
    }

    /** Formerly read data moves to the start of the next buffer. */
    method Reuse(left: Leftover)
      requires Shape() && Agree() && inCsid == 0 && HasCurrent() && LeftoverIs(left)
      modifies this`bufs
      ensures Shape() && Agree() && HeaderOpen()
    {
      var src := bufs[left.id].data[left.pos..left.pos + left.size];
      var b := bufs[Current()];
      var data := src + b.data[left.size..];
      Store(Buf(0, left.size, data));
      assert data[..left.size] == src;
    }

    lemma ProgressStable(pending: seq<byte>, more: seq<byte>, pos: nat)
      requires Progress(pending, pos)
      ensures Progress(pending + more, pos)
    {
      if inCsid > 0 {
        var bh := ParseBasic(pending).value;
        ParseBasicStable(pending, more);
        if pos > 0 {
          ParseHeaderStable(cfg, model.streams[inCsid].stream, bh, pending, more);
        }
      }
    }

    /** Bytes from the socket land behind the ones already in the buffer. */
    method Append(bytes: seq<byte>)
      requires Shape() && Agree() && Front() && Fits()
      requires bufs[Current()].last + |bytes| <= Capacity()
      modifies this`bufs, this`model
      ensures Shape() && Agree() && Front() && Fits()
      ensures model == old(model).(pending := old(model).pending + bytes)
    {
      var b := bufs[Current()];
      ProgressStable(model.pending, bytes, b.pos);
      var data := b.data[..b.last] + bytes + b.data[b.last + |bytes|..];
      assert data[..b.last + |bytes|] == model.pending + bytes;
      Store(Buf(b.pos, b.last + |bytes|, data));
      Grow(bytes);
    }

    ghost method Grow(bytes: seq<byte>)
      requires Shape() && Agree() && HasCurrent()
      requires Progress(model.pending + bytes, bufs[Current()].pos)
      requires bufs[Current()].pos > 0 ==> streams[inCsid].hdr.mlen <= cfg.maxMessage
      requires bufs[Current()].data[..bufs[Current()].last] == model.pending + bytes
      modifies this`model
      ensures Shape() && Agree() && Front() && Fits()
      ensures model == old(model).(pending := old(model).pending + bytes)
    {
      model := model.(pending := model.pending + bytes);
    }

    /** Parses and acts on whatever the current buffer now holds. */
    method Advance(ghost r0: Receiver, ghost a: seq<byte>) returns (o: Outcome, left: Leftover)
      requires Shape() && Agree() && Front() && Fits()
      requires model.pending != []
      requires WellFormed(cfg, r0) && Leads(cfg, model, r0, a)
      modifies this
      ensures WellFormed(cfg, model) && Leads(cfg, model, r0, a)
      ensures delivered == model.delivered && destroyed == model.dead == o.Killed?
      ensures o.Again? ==> left.Nothing? && Shape() && Agree() && Filling() && Quiet(cfg, model)
      ensures o.Ready? ==> Shape() && Agree() && inCsid == 0 && LeftoverIs(left) && left.size < |old(model).pending|
    {
      left := Nothing;
      if bufs[Current()].pos == 0 {
        o := ReadHeader();
        if o.Killed? {
          LeadsStep(cfg, old(model), model, r0, a);
          return;
        }
        if o.Again? { return; }
      }
      o, left := FinishChunk();
      if !o.Again? {
        LeadsStep(cfg, old(model), model, r0, a);
      }
    }

    /**
      * One call of the receive loop.  `avail` is what the peer has sent; the k-th read of the socket is
      * offered `sizes[k]` of it and returns no more than the buffer has room for, 0 meaning that the peer
      * closed.  The loop ends when the session is destroyed or the socket has nothing more to give.
      */
    method Recv(avail: seq<byte>, sizes: seq<nat>) returns (taken: nat, calls: nat, eof: bool)
      requires Valid()
      modifies this
      ensures Valid()
      ensures taken <= |avail| && calls <= |sizes|
      ensures !eof ==> model == Feed(cfg, old(model), avail[..taken])
      ensures eof ==> model == Dead(Feed(cfg, old(model), avail[..taken]))
      ensures destroyed || taken == |avail| || calls == |sizes|
      ensures old(destroyed) ==> taken == 0 && !eof
    {
      taken, calls, eof := 0, 0, false;
      assert avail[..0] == [];
      if destroyed { return; }
      LeadsStart(cfg, model);
      var left := Nothing;
      while true
        invariant taken <= |avail| && calls <= |sizes| && !eof
        invariant Resting(left)
        invariant Leads(cfg, model, old(model), avail[..taken])
        decreases |sizes| - calls, if left.Left? then left.size else 0
      {
        var o;
        o, taken, calls := Fetch(left, avail, taken, sizes, calls, old(model));
        if !o.Ready? {
          eof := o.Killed?;
          assert Unfold(0);
          return;
        }
        o, left := Advance(old(model), avail[..taken]);
        if o.Killed? {
          LeadsEnd(cfg, model, old(model), avail[..taken]);
          assert Unfold(0);
          return;
        }
      }
    }

    /** Load, as part of a run that started in `r0`. */
    method Fetch(left: Leftover, avail: seq<byte>, taken0: nat, sizes: seq<nat>, calls0: nat, ghost r0: Receiver)
      returns (o: Outcome, taken: nat, calls: nat)
      requires Resting(left) && taken0 <= |avail| && calls0 <= |sizes|
      requires WellFormed(cfg, r0) && Leads(cfg, model, r0, avail[..taken0])
      modifies this
      ensures taken0 <= taken <= |avail| && calls0 <= calls <= |sizes|
      ensures o.Ready? ==> Shape() && Agree() && Front() && Fits() && model.pending != []
      ensures o.Ready? ==> Leads(cfg, model, r0, avail[..taken])
      ensures o.Ready? && calls == calls0 ==> left.Left? && |model.pending| == left.size
      ensures !o.Ready? ==> Valid() && (destroyed || taken == |avail| || calls == |sizes|)
      ensures o.Again? ==> Fed(cfg, r0, avail[..taken], model)
      ensures o.Killed? ==> exists r :: Fed(cfg, r0, avail[..taken], r) && model == Dead(r)
    {
      ghost var before := model;
      var n;
      o, n := Load(left, avail[taken0..], sizes[calls0..]);
      if n > 0 {
        taken, calls := taken0 + n, calls0 + 1;
        LeadsRead(cfg, before, model, r0, avail, taken0, taken);
        return;
      }
      taken, calls := taken0, calls0;
      if !o.Ready? {
        LeadsEnd(cfg, before, r0, avail[..taken0]);
      }
    }

    /** Between two rounds of the loop. */
    ghost predicate Resting(left: Leftover)
      reads this
    {
      && Shape() && Agree()
      && (left.Nothing? ==> Filling() && Quiet(cfg, model))
      && (left.Left? ==> inCsid == 0 && LeftoverIs(left))
    }

    /** Fills the current buffer: from the leftover if there is one, otherwise from the socket. */
    method Load(left: Leftover, avail: seq<byte>, sizes: seq<nat>) returns (o: Outcome, n: nat)
      requires Resting(left)
      modifies this
      ensures n <= |avail| && (n > 0 <==> o.Ready? && !(left.Left? && left.size > 0))
      ensures n > 0 ==>
                && |sizes| > 0 && Quiet(cfg, old(model))
                && model == old(model).(pending := old(model).pending + avail[..n])
      ensures n == 0 && !o.Killed? ==> model == old(model)
      ensures o.Ready? ==> Shape() && Agree() && Front() && Fits() && model.pending != []
      ensures o.Ready? && n == 0 ==> left.Left? && |model.pending| == left.size
      ensures o.Again? ==> Shape() && Agree() && Filling() && Quiet(cfg, model) && (avail == [] || sizes == [])
      ensures o.Killed? ==>
                destroyed && model == Dead(old(model)) && Quiet(cfg, old(model)) && delivered == model.delivered
    {
      n := 0;
      if left.Left? && left.size > 0 {
        Next(left);
        Reuse(left);
        return Ready, 0;
      }
      Prepare(left);
      if sizes == [] { return Again, 0; }
      if sizes[0] == 0 {
        Kill();
        return Killed, 0;
      }
      if avail == [] { return Again, 0; }
      n := ReadMore(avail, sizes[0]);
      return Ready, n;
    }

    /** Some of the available bytes, as many as the socket offers and the buffer holds. */
    method ReadMore(avail: seq<byte>, size: nat) returns (n: nat)
      requires Shape() && Agree() && Front() && Fits() && NextChunk(cfg, model).Wait?
      requires avail != [] && size > 0
      modifies this`bufs, this`model
      ensures 0 < n <= |avail| && model == old(model).(pending := old(model).pending + avail[..n])
      ensures Shape() && Agree() && Front() && Fits()
    {
      WaitIsShort(cfg, model);
      n := SocketRead(cfg.chunkSize + MAX_CHUNK_HEADER - bufs[Current()].last, Min(size, |avail|));
      Append(avail[..n]);
    }

    /** A read of the socket.  It is never asked for into a full buffer. */
    static method SocketRead(room: nat, offered: nat) returns (n: nat)
      requires 0 < room && 0 < offered
      ensures 0 < n <= room && n <= offered
    {
      n := Min(room, offered);
    }

    /** Makes the current buffer ready for a read. */
    method Prepare(left: Leftover)
      requires Shape() && Agree()
      requires left.Nothing? ==> Filling()
      requires left.Left? ==> inCsid == 0 && LeftoverIs(left) && left.size == 0
      modifies this
      ensures Shape() && Agree() && Front() && Fits()
      ensures unchanged(`model, `delivered, `destroyed)
    {
      EnsureBuffer();
      if left.Left? {
        var b := bufs[Current()];
        Store(b.(pos := 0, last := 0));
      }
    }

    method Next(left: Leftover)
      requires Shape() && Agree() && inCsid == 0 && LeftoverIs(left)
      modifies this
      ensures Shape() && Agree() && inCsid == 0 && LeftoverIs(left) && HasCurrent()
      ensures unchanged(`model, `delivered, `destroyed)
    {
      EnsureBuffer();
    }
  }
}
