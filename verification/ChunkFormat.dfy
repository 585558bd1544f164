/**
  * The chunk format of section 5.3 of the RTMP Specification 1.0, read as ngx_rtmp_recv reads it:
  * a basic header, a message header of 11, 7, 3 or 0 bytes, an optional extended timestamp and at most
  * one chunk size of payload.  Everything here is a function of the bytes; the resumable, buffer-recycling
  * receiver that has to compute the same thing is in ChunkReceiver.
  */
module ChunkFormat {
  import opened Bytes

  const MAX_CHUNK_HEADER: nat := 18
  const EXTENDED: nat := 0xff_ffff

  datatype Header = Header(csid: uint32, timestamp: uint32, mlen: uint32, kind: byte, msid: uint32)

  /** A message as it is handed to the handlers. */
  datatype Message = Message(hdr: Header, payload: seq<byte>)

  /** What the receiver remembers of one chunk stream between chunks. */
  datatype InStream = InStream(hdr: Header, dtime: uint32, len: uint32, ext: bool)

  const EMPTY_HEADER := Header(0, 0, 0, 0, 0)
  const EMPTY_STREAM := InStream(EMPTY_HEADER, 0, 0, false)

  /** `accepts` stands for the message handlers: false is a handler that fails. */
  datatype Config = Config(chunkSize: nat, maxStreams: nat, maxMessage: nat, timeFix: bool, accepts: Message -> bool)
  {
    ghost predicate Valid() {
      0 < chunkSize < TWO32 && 2 < maxStreams
    }
  }

  datatype Basic = Basic(fmt: nat, csid: uint32, size: nat)

  /** The basic header (section 5.3.1.1), or None when the bytes end inside it. */
  function ParseBasic(b: seq<byte>): (r: Option<Basic>)
    ensures r.Some? ==> 1 <= r.value.size <= 3 && r.value.size <= |b|
    ensures r.Some? ==> r.value.fmt <= 3 && 2 <= r.value.csid < 65600
  {
    if |b| == 0 then None
    else if b[0] % 64 == 0 then
      if |b| < 2 then None else Some(Basic(b[0] / 64, 64 + b[1] as int, 2))
    else if b[0] % 64 == 1 then
      if |b| < 3 then None else Some(Basic(b[0] / 64, 64 + b[1] as int + 256 * (b[2] as int), 3))
    else
      Some(Basic(b[0] / 64, b[0] % 64, 1))
  }

  /** Bytes of the message header proper (section 5.3.1.2). */
  function FieldsSize(fmt: nat): nat {
    if fmt == 0 then 11 else if fmt == 1 then 7 else if fmt == 2 then 3 else 0
  }

  /** Whether an extended timestamp follows the fields, which end at `m`. */
  predicate HasExtended(st: InStream, fmt: nat, n: nat, b: seq<byte>)
    requires n + FieldsSize(fmt) <= |b|
  {
    if fmt <= 2 then OfBe24(b[n], b[n + 1], b[n + 2]) == EXTENDED else st.ext
  }

  datatype Parsed = NeedMore | Done(stream: InStream, size: nat)

  /** The stream state after the header at `n` of a chunk in format `fmt` has been read. */
  function Settled(cfg: Config, st: InStream, bh: Basic, b: seq<byte>, ext: bool): InStream
    requires bh.size + FieldsSize(bh.fmt) + (if ext then 4 else 0) <= |b|
  {
    var n := bh.size;
    var m := n + FieldsSize(bh.fmt);
    var timestamp: uint32 :=
      if ext then OfBe32(b[m], b[m + 1], b[m + 2], b[m + 3])
      else if bh.fmt <= 2 then OfBe24(b[n], b[n + 1], b[n + 2])
      else st.dtime;
    var h0 := st.hdr.(csid := bh.csid);
    var h1 := if bh.fmt <= 1 then h0.(mlen := OfBe24(b[n + 3], b[n + 4], b[n + 5]), kind := b[n + 6]) else h0;
    var h2 := if bh.fmt == 0 then h1.(msid := OfBe32(b[n + 10], b[n + 9], b[n + 8], b[n + 7])) else h1;
    if st.len != 0 then st.(hdr := h2)
    else if bh.fmt == 0 then
      InStream(h2.(timestamp := timestamp), 0, 0, ext && cfg.timeFix)
    else
      InStream(h2, timestamp, 0, ext && cfg.timeFix)
  }

  /** The whole chunk header; `bh` is its basic header. */
  function ParseHeader(cfg: Config, st: InStream, bh: Basic, b: seq<byte>): (r: Parsed)
    requires ParseBasic(b) == Some(bh)
    ensures r.Done? ==> 1 <= r.size <= MAX_CHUNK_HEADER && r.size <= |b|
    ensures r.Done? ==> r.stream.hdr.csid == bh.csid && r.stream.len == st.len
  {
    var m := bh.size + FieldsSize(bh.fmt);
    if |b| < m then NeedMore
    else
      var ext := HasExtended(st, bh.fmt, bh.size, b);
      if ext && |b| < m + 4 then NeedMore
      else Done(Settled(cfg, st, bh, b, ext), if ext then m + 4 else m)
  }

  // ----- The bytes of a header, by their positions

  /** The `n` bytes of a basic header say `fmt` and `csid`. */
  ghost predicate BasicOnWire(b: seq<byte>, n: nat, fmt: nat, csid: nat) {
    && |b| >= n >= 1 && b[0] / 64 == fmt
    && (n == 1 ==> b[0] % 64 >= 2 && csid == b[0] % 64)
    && (n == 2 ==> b[0] % 64 == 0 && csid == 64 + b[1] as int)
    && (n >= 3 ==> n == 3 && b[0] % 64 == 1 && csid == 64 + Weigh(0, 0, b[2], b[1]))
  }

  /** Three bytes at `n` hold the time; or they are all 255, and it is in the four bytes at `m`. */
  ghost predicate TimeOnWire(b: seq<byte>, n: nat, m: nat, time: nat) {
    && |b| >= m >= n + 3
    && if b[n] == b[n + 1] == b[n + 2] == 255 then FourOnWire(b, m, time)
       else time == Weigh(0, b[n], b[n + 1], b[n + 2])
  }

  ghost predicate FourOnWire(b: seq<byte>, m: nat, time: nat) {
    |b| >= m + 4 && time == Weigh(b[m], b[m + 1], b[m + 2], b[m + 3])
  }

  /** The fields at `n` that format `fmt` has besides the time. */
  ghost predicate FieldsOnWire(b: seq<byte>, n: nat, fmt: nat, mlen: nat, kind: nat, msid: nat) {
    && (fmt <= 1 ==> |b| >= n + 7 && mlen == Weigh(0, b[n + 3], b[n + 4], b[n + 5]) && kind == b[n + 6])
    && (fmt == 0 ==> |b| >= n + 11 && msid == Weigh(b[n + 10], b[n + 9], b[n + 8], b[n + 7]))
  }

  /** What a basic header is read as is what its bytes say. */
  lemma BasicMeans(b: seq<byte>)
    ensures ParseBasic(b).Some? ==>
              BasicOnWire(b, ParseBasic(b).value.size, ParseBasic(b).value.fmt, ParseBasic(b).value.csid)
    ensures ParseBasic(b).None? ==> |b| < (if b == [] then 1 else if b[0] % 64 == 0 then 2 else 3)
  {
  }

  /**
    * What a header is read as is what its bytes say. In formats 0 to 2 the time is in three bytes, or in four behind
    * the fields if those are 255; in format 3 it is in four bytes if the stream expects them, or the last difference.
    */
  lemma HeaderMeans(cfg: Config, st: InStream, bh: Basic, b: seq<byte>)
    requires ParseBasic(b) == Some(bh) && ParseHeader(cfg, st, bh, b).Done? && st.len == 0
    ensures var r, n := ParseHeader(cfg, st, bh, b), bh.size;
            var m := n + (if bh.fmt == 0 then 11 else if bh.fmt == 1 then 7 else if bh.fmt == 2 then 3 else 0);
            var time := if bh.fmt == 0 then r.stream.hdr.timestamp else r.stream.dtime;
            var far := if bh.fmt <= 2 then b[n] == b[n + 1] == b[n + 2] == 255 else st.ext;
            && r.size == (if far then m + 4 else m) <= |b|
            && (bh.fmt <= 2 ==> TimeOnWire(b, n, m, time))
            && (bh.fmt == 3 ==> if far then FourOnWire(b, m, time) else time == st.dtime)
            && FieldsOnWire(b, n, bh.fmt, r.stream.hdr.mlen, r.stream.hdr.kind, r.stream.hdr.msid)
            && (bh.fmt == 0 ==> r.stream.dtime == 0)
            && (bh.fmt > 0 ==> r.stream.hdr.timestamp == st.hdr.timestamp && r.stream.hdr.msid == st.hdr.msid)
            && (bh.fmt > 1 ==> r.stream.hdr.mlen == st.hdr.mlen && r.stream.hdr.kind == st.hdr.kind)
  {
    var n := bh.size;
    if bh.fmt <= 2 {
      Far(b[n], b[n + 1], b[n + 2]);
    }
  }

  lemma Far(b0: byte, b1: byte, b2: byte)
    ensures OfBe24(b0, b1, b2) == EXTENDED <==> b0 == b1 == b2 == 255
  {
  }

  /** Payload bytes the message still lacks; the C code subtracts in 32 bits. */
  function Missing(st: InStream): uint32 {
    Sub32(st.hdr.mlen, st.len)
  }

  function BodySize(cfg: Config, st: InStream): nat {
    Min(Missing(st), cfg.chunkSize)
  }

  /** A chunk stream and the payload collected for its unfinished message. */
  datatype Partial = Partial(stream: InStream, data: seq<byte>)

  /** The receiver seen from outside: no buffers, only streams, unparsed bytes and what was delivered. */
  datatype Receiver = Receiver(streams: seq<Partial>, pending: seq<byte>, delivered: seq<Message>, dead: bool)

  ghost predicate WellFormed(cfg: Config, r: Receiver) {
    cfg.Valid() && |r.streams| == cfg.maxStreams
  }

  datatype ChunkStep =
    | Wait
    | Fail
    | Chunk(csid: nat, stream: InStream, body: seq<byte>, used: nat)

  /** Reads the first chunk of `r.pending`. */
  function NextChunk(cfg: Config, r: Receiver): (c: ChunkStep)
    requires WellFormed(cfg, r)
    ensures c.Chunk? ==> 0 < c.used <= |r.pending| && 2 <= c.csid < |r.streams|
  {
    var b := r.pending;
    var basic := ParseBasic(b);
    if basic.None? then Wait
    else
      var bh := basic.value;
      if bh.csid >= cfg.maxStreams then Fail
      else
        match ParseHeader(cfg, r.streams[bh.csid].stream, bh, b)
        case NeedMore => Wait
        case Done(st, n) =>
          if st.hdr.mlen > cfg.maxMessage then Fail
          else if |b| < n + BodySize(cfg, st) then Wait
          else Chunk(bh.csid, st, b[n..n + BodySize(cfg, st)], n + BodySize(cfg, st))
  }

  /** The effect of one complete chunk: it is collected, or it completes its message. */
  function TakeChunk(cfg: Config, r: Receiver, c: ChunkStep): (r': Receiver)
    requires WellFormed(cfg, r) && c.Chunk? && c.csid < |r.streams| && c.used <= |r.pending|
    ensures WellFormed(cfg, r')
    ensures r'.dead || |r'.pending| == |r.pending| - c.used
  {
    var data := r.streams[c.csid].data + c.body;
    if Missing(c.stream) > cfg.chunkSize then
      r.(streams := r.streams[c.csid := Partial(c.stream.(len := Add32(c.stream.len, cfg.chunkSize)), data)],
         pending := r.pending[c.used..])
    else
      var st := Completed(c.stream);
      var m := Message(st.hdr, data);
      if cfg.accepts(m) then
        r.(streams := r.streams[c.csid := Partial(st, [])],
           pending := r.pending[c.used..], delivered := r.delivered + [m])
      else
        Dead(r.(delivered := r.delivered + [m]))
  }

  function Completed(st: InStream): InStream {
    st.(len := 0, hdr := st.hdr.(timestamp := Add32(st.hdr.timestamp, st.dtime)))
  }

  function Dead(r: Receiver): Receiver {
    r.(pending := [], dead := true)
  }

  /** Takes chunks off `pending` for as long as a whole one is there. */
  function Drain(cfg: Config, r: Receiver): (r': Receiver)
    requires WellFormed(cfg, r)
    ensures WellFormed(cfg, r')
    decreases |r.pending|
  {
    if r.dead then r
    else
      var c := NextChunk(cfg, r);
      match c
      case Wait => r
      case Fail => Dead(r)
      case Chunk(_, _, _, _) =>
        var r1 := TakeChunk(cfg, r, c);
        if r1.dead then r1 else Drain(cfg, r1)
  }

  /** More bytes arrive.  A dead session reads nothing. */
  function Feed(cfg: Config, r: Receiver, bytes: seq<byte>): (r': Receiver)
    requires WellFormed(cfg, r)
    ensures WellFormed(cfg, r')
  {
    if r.dead then r else Drain(cfg, r.(pending := r.pending + bytes))
  }

  function FeedAll(cfg: Config, r: Receiver, frags: seq<seq<byte>>): (r': Receiver)
    requires WellFormed(cfg, r)
    ensures WellFormed(cfg, r')
    decreases |frags|
  {
    if frags == [] then r else FeedAll(cfg, Feed(cfg, r, frags[0]), frags[1..])
  }

  /** A receiver holding no bytes that could still be parsed. */
  ghost predicate Quiet(cfg: Config, r: Receiver)
    requires WellFormed(cfg, r)
  {
    r.dead || NextChunk(cfg, r).Wait?
  }

  // ----- What is ever delivered

  /** The payload collected is as long as the stream says, in 32 bits. */
  ghost predicate CountsUp(p: Partial) {
    |p.data| % TWO32 == p.stream.len
  }

  /** A message that was delivered is of a stream there is, within the limit, and as long as its header says. */
  ghost predicate Deliverable(cfg: Config, m: Message) {
    2 <= m.hdr.csid < cfg.maxStreams && m.hdr.mlen <= cfg.maxMessage && |m.payload| % TWO32 == m.hdr.mlen
  }

  ghost predicate Bounded(cfg: Config, r: Receiver) {
    && (forall i :: 0 <= i < |r.streams| ==> CountsUp(r.streams[i]))
    && (forall i :: 0 <= i < |r.delivered| ==> Deliverable(cfg, r.delivered[i]))
  }

  lemma CountsOn(n: nat, len: uint32, k: nat)
    requires n % TWO32 == len
    ensures (n + k) % TWO32 == (len + k) % TWO32
  {
    SumWraps(n, k);
  }

  lemma TakeBounded(cfg: Config, r: Receiver)
    requires WellFormed(cfg, r) && Bounded(cfg, r) && NextChunk(cfg, r).Chunk?
    ensures Bounded(cfg, TakeChunk(cfg, r, NextChunk(cfg, r)))
  {
    var c := NextChunk(cfg, r);
    var p := r.streams[c.csid];
    assert c.stream.len == p.stream.len && c.stream.hdr.csid == c.csid && |c.body| == BodySize(cfg, c.stream);
    assert CountsUp(p);
    CountsOn(|p.data|, p.stream.len, |c.body|);
    SubThenAdd32(c.stream.hdr.mlen, c.stream.len);
  }

  lemma {:induction false} DrainBounded(cfg: Config, r: Receiver)
    requires WellFormed(cfg, r) && Bounded(cfg, r)
    ensures Bounded(cfg, Drain(cfg, r))
    decreases |r.pending|
  {
    if !r.dead && NextChunk(cfg, r).Chunk? {
      TakeBounded(cfg, r);
      var r1 := TakeChunk(cfg, r, NextChunk(cfg, r));
      if !r1.dead {
        DrainBounded(cfg, r1);
      }
    }
  }

  /** Whatever arrives, in whatever pieces, only such messages are ever delivered. */
  lemma {:induction false} OnlyBounded(cfg: Config, r: Receiver, frags: seq<seq<byte>>)
    requires WellFormed(cfg, r) && Bounded(cfg, r)
    ensures Bounded(cfg, FeedAll(cfg, r, frags))
    decreases |frags|
  {
    if frags != [] {
      if !r.dead {
        DrainBounded(cfg, r.(pending := r.pending + frags[0]));
      }
      OnlyBounded(cfg, Feed(cfg, r, frags[0]), frags[1..]);
    }
  }

  // ----- Bytes that arrive later never change a decision already taken

  lemma ParseBasicStable(b: seq<byte>, more: seq<byte>)
    requires ParseBasic(b).Some?
    ensures ParseBasic(b + more) == ParseBasic(b)
  {
  }

  lemma ParseHeaderStable(cfg: Config, st: InStream, bh: Basic, b: seq<byte>, more: seq<byte>)
    requires ParseBasic(b) == Some(bh)
    requires ParseHeader(cfg, st, bh, b).Done?
    ensures ParseBasic(b + more) == Some(bh)
    ensures ParseHeader(cfg, st, bh, b + more) == ParseHeader(cfg, st, bh, b)
  {
    ParseBasicStable(b, more);
  }

  lemma NextChunkStable(cfg: Config, r: Receiver, more: seq<byte>)
    requires WellFormed(cfg, r) && !NextChunk(cfg, r).Wait?
    ensures NextChunk(cfg, r.(pending := r.pending + more)) == NextChunk(cfg, r)
  {
    var b := r.pending;
    ParseBasicStable(b, more);
    var bh := ParseBasic(b).value;
    if bh.csid < cfg.maxStreams {
      var st := r.streams[bh.csid].stream;
      ParseHeaderStable(cfg, st, bh, b, more);
      var p := ParseHeader(cfg, st, bh, b);
      if p.stream.hdr.mlen <= cfg.maxMessage {
        var n, k := p.size, BodySize(cfg, p.stream);
        assert (b + more)[n..n + k] == b[n..n + k];
      }
    }
  }

  /** Feeding in two parts is feeding the whole. */
  lemma {:induction false} FeedCompose(cfg: Config, r: Receiver, a: seq<byte>, b: seq<byte>)
    requires WellFormed(cfg, r)
    ensures Feed(cfg, Feed(cfg, r, a), b) == Feed(cfg, r, a + b)
    decreases |r.pending| + |a|
  {
    if !r.dead {
      var ra := r.(pending := r.pending + a);
      assert r.pending + (a + b) == ra.pending + b;
      DrainThenMore(cfg, ra, b);
    }
  }

  lemma {:induction false} DrainThenMore(cfg: Config, r: Receiver, b: seq<byte>)
    requires WellFormed(cfg, r) && !r.dead
    ensures Feed(cfg, Drain(cfg, r), b) == Drain(cfg, r.(pending := r.pending + b))
    decreases |r.pending|
  {
    var c := NextChunk(cfg, r);
    if c.Wait? {
    } else {
      NextChunkStable(cfg, r, b);
      if c.Chunk? {
        var r1 := TakeChunk(cfg, r, c);
        var rb := r.(pending := r.pending + b);
        assert rb.pending[c.used..] == r.pending[c.used..] + b;
        if r1.dead {
          assert TakeChunk(cfg, rb, c) == r1;
        } else {
          assert TakeChunk(cfg, rb, c) == r1.(pending := r1.pending + b);
          DrainThenMore(cfg, r1, b);
        }
      }
    }
  }

  /** Fragmentation independence: only the concatenation of the fragments matters. */
  lemma {:induction false} FragmentationIndependent(cfg: Config, r: Receiver, frags: seq<seq<byte>>)
    requires WellFormed(cfg, r) && Quiet(cfg, r)
    ensures FeedAll(cfg, r, frags) == Feed(cfg, r, Concat(frags))
    decreases |frags|
  {
    if frags == [] {
      assert r.pending + [] == r.pending;
    } else {
      FeedQuiet(cfg, r, frags[0]);
      FragmentationIndependent(cfg, Feed(cfg, r, frags[0]), frags[1..]);
      FeedCompose(cfg, r, frags[0], Concat(frags[1..]));
    }
  }

  /** Whatever is left after feeding is less than a chunk. */
  lemma FeedQuiet(cfg: Config, r: Receiver, a: seq<byte>)
    requires WellFormed(cfg, r)
    ensures Quiet(cfg, Feed(cfg, r, a))
  {
    if !r.dead {
      DrainQuiet(cfg, r.(pending := r.pending + a));
    }
  }

  lemma {:induction false} DrainQuiet(cfg: Config, r: Receiver)
    requires WellFormed(cfg, r)
    ensures Quiet(cfg, Drain(cfg, r))
    decreases |r.pending|
  {
    if !r.dead {
      var c := NextChunk(cfg, r);
      if c.Chunk? {
        var r1 := TakeChunk(cfg, r, c);
        if !r1.dead {
          DrainQuiet(cfg, r1);
        }
      }
    }
  }

  /** What has been delivered stays delivered. */
  lemma {:induction false} DrainGrows(cfg: Config, r: Receiver)
    requires WellFormed(cfg, r)
    ensures r.delivered <= Drain(cfg, r).delivered
    decreases |r.pending|
  {
    if !r.dead {
      var c := NextChunk(cfg, r);
      if c.Chunk? {
        var r1 := TakeChunk(cfg, r, c);
        if !r1.dead {
          DrainGrows(cfg, r1);
        }
      }
    }
  }

  lemma FeedGrows(cfg: Config, r: Receiver, bytes: seq<byte>)
    requires WellFormed(cfg, r)
    ensures r.delivered <= Feed(cfg, r, bytes).delivered
  {
    if !r.dead {
      DrainGrows(cfg, r.(pending := r.pending + bytes));
    }
  }

  /** A receiver that waits always has fewer bytes pending than one buffer holds. */
  lemma WaitIsShort(cfg: Config, r: Receiver)
    requires WellFormed(cfg, r) && NextChunk(cfg, r).Wait?
    ensures |r.pending| < cfg.chunkSize + MAX_CHUNK_HEADER
  {
  }

  /** Feeding a quiet receiver continues the run that led to it. */
  lemma FeedOn(cfg: Config, r0: Receiver, r: Receiver, a: seq<byte>, b: seq<byte>)
    requires WellFormed(cfg, r0) && WellFormed(cfg, r) && Quiet(cfg, r) && !r.dead
    requires Drain(cfg, r) == Feed(cfg, r0, a)
    ensures Drain(cfg, r.(pending := r.pending + b)) == Feed(cfg, r0, a + b)
  {
    FeedCompose(cfg, r0, a, b);
    assert Drain(cfg, r) == r;
  }

  /** `r'` is what feeding `a` to `r` gives. */
  ghost predicate Fed(cfg: Config, r: Receiver, a: seq<byte>, r': Receiver)
    requires WellFormed(cfg, r)
  {
    forall k: int {:trigger Unfold(k)} :: Unfold(k) ==> r' == Feed(cfg, r, a)
  }

  lemma FedTwice(cfg: Config, r: Receiver, a: seq<byte>, r1: Receiver, b: seq<byte>, r2: Receiver)
    requires WellFormed(cfg, r) && WellFormed(cfg, r1) && Fed(cfg, r, a, r1) && Fed(cfg, r1, b, r2)
    ensures Fed(cfg, r, a + b, r2)
  {
    assert Unfold(0);
    FeedCompose(cfg, r, a, b);
  }
}
