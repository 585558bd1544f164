/**
  * What ChunkSender writes, ChunkFormat reads back: the wire round trip over whole sequences of messages,
  * and the independence of interleaved chunk streams.
  */
module ChunkRoundTrip {
  import opened Bytes
  import opened ChunkFormat
  import opened ChunkBuffers
  import opened ChunkSender

  /** A payload cut into chunks: all full but the last. */
  function Pieces(payload: seq<byte>, n: nat): (ps: seq<seq<byte>>)
    requires n > 0
    ensures ps != []
    decreases |payload|
  {
    if |payload| <= n then [payload] else [payload[..n]] + Pieces(payload[n..], n)
  }

  /** The chunks after the first one, each behind the header `th`. */
  function TailWire(th: seq<byte>, pieces: seq<seq<byte>>): seq<byte> {
    if pieces == [] then [] else th + pieces[0] + TailWire(th, pieces[1..])
  }

  /** A prepared message on the wire. */
  function Wire(timeFix: bool, h: Header, lh: Option<Header>, payload: seq<byte>, n: nat): seq<byte>
    requires n > 0 && |payload| < TWO32
  {
    var ps := Pieces(payload, n);
    FirstHeader(h, lh, |payload|) + ps[0] + TailWire(NextHeader(timeFix, h, lh), ps[1..])
  }

  /** The bytes of a chain of buffers are its live parts. */
  function ChainBytes(out: seq<Buf>): seq<byte> {
    if out == [] then [] else out[0].Live() + ChainBytes(out[1..])
  }

  lemma {:induction false} TailChain(th: seq<byte>, chain: seq<Buf>, out: seq<Buf>, pieces: seq<seq<byte>>)
    requires |out| == |chain| == |pieces|
    requires forall i :: 0 <= i < |out| ==> chain[i].Live() == pieces[i] && out[i].Live() == th + chain[i].Live()
    ensures ChainBytes(out) == TailWire(th, pieces)
  {
    if out != [] {
      TailChain(th, chain[1..], out[1..], pieces[1..]);
    }
  }

  /** Preparing a chain that holds the pieces of `payload` puts `Wire` of it on the wire. */
  lemma PreparedIsWire(timeFix: bool, h: Header, lh: Option<Header>, payload: seq<byte>, n: nat, ps: seq<seq<byte>>,
                       chain: seq<Buf>, out: seq<Buf>)
    requires n > 0 && |payload| < TWO32 && h.csid >= 2
    requires ps == Pieces(payload, n) && |out| == |chain| == |ps|
    requires forall i :: 0 <= i < |chain| ==> chain[i].Live() == ps[i]
    requires var head, room := FirstHeader(h, lh, |payload|), Reserved(h, lh, |payload|);
             room <= |head| && out[0].Live() == Headed(head, room, chain[0].Live())
    requires forall i :: 1 <= i < |out| ==> out[i].Live() == NextHeader(timeFix, h, lh) + chain[i].Live()
    ensures ChainBytes(out) == Wire(timeFix, h, lh, payload, n)
  {
    HeaderFits(h, lh, |payload|);
    HeadedFits(FirstHeader(h, lh, |payload|), chain[0].Live());
    TailChain(NextHeader(timeFix, h, lh), chain[1..], out[1..], ps[1..]);
  }

  // ----- One chunk

  /** The stream state after a first chunk header written for `h`. */
  ghost function Announced(cfg: Config, st: InStream, h: Header, lh: Option<Header>, mlen: uint32): InStream {
    var fmt := Fmt(h, lh, mlen);
    var hdr := Header(h.csid, if fmt == 0 then h.timestamp else st.hdr.timestamp, mlen, h.kind, h.msid);
    InStream(hdr, if fmt == 0 then 0 else if fmt == 3 then st.dtime else Stamp(h, lh), 0,
             Stamp(h, lh) >= EXTENDED && cfg.timeFix)
  }

  /** The receiver's stream knows what a header relative to `lh` leaves out. */
  ghost predicate Synced(st: InStream, h: Header, lh: Option<Header>, mlen: uint32) {
    && st.len == 0
    && (Fmt(h, lh, mlen) >= 1 ==> st.hdr.msid == h.msid && st.hdr.timestamp == lh.value.timestamp)
    && (Fmt(h, lh, mlen) >= 2 ==> st.hdr.mlen == mlen && st.hdr.kind == h.kind)
  }

  /** Where the fields and the extended timestamp of a first header lie. */
  lemma FirstHeaderLayout(h: Header, lh: Option<Header>, mlen: uint32, rest: seq<byte>)
    requires 2 <= h.csid < 65600
    ensures var b := FirstHeader(h, lh, mlen) + rest;
            var fmt := Fmt(h, lh, mlen);
            var fb, eb := FieldBytes(fmt, Stamp(h, lh), mlen, h.kind, h.msid), ExtendedBytes(Stamp(h, lh));
            var n, m := BasicRoom(h.csid), BasicRoom(h.csid) + FieldsSize(fmt);
            && ParseBasic(b) == Some(Basic(fmt, h.csid, n))
            && |FirstHeader(h, lh, mlen)| == m + |eb|
            && b[n..m] == fb && b[m..m + |eb|] == eb
  {
    var fmt := Fmt(h, lh, mlen);
    var bb := BasicBytes(fmt, h.csid);
    var fb, eb := FieldBytes(fmt, Stamp(h, lh), mlen, h.kind, h.msid), ExtendedBytes(Stamp(h, lh));
    BasicHeaderExact(fmt, h.csid);
    ThreeParts(bb, fb, eb, rest);
    ParseBasicStable(bb, fb + eb + rest);
  }

  lemma ThreeParts(x: seq<byte>, y: seq<byte>, z: seq<byte>, rest: seq<byte>)
    ensures x + y + z + rest == x + (y + z + rest)
    ensures (x + y + z + rest)[|x|..|x| + |y|] == y
    ensures (x + y + z + rest)[|x| + |y|..|x| + |y| + |z|] == z
  {
  }

  /** The first header is read as it was meant, unless a format 3 one meets a stream that expects an extended time. */
  lemma FirstHeaderParses(cfg: Config, st: InStream, h: Header, lh: Option<Header>, mlen: uint32, rest: seq<byte>)
    requires 2 <= h.csid < 65600 && mlen < TWO24
    requires Synced(st, h, lh, mlen)
    ensures var b := FirstHeader(h, lh, mlen) + rest;
            var bh := Basic(Fmt(h, lh, mlen), h.csid, BasicRoom(h.csid));
            && ParseBasic(b) == Some(bh)
            && (ParseHeader(cfg, st, bh, b) == Done(Announced(cfg, st, h, lh, mlen), |FirstHeader(h, lh, mlen)|)
                <==> !(Fmt(h, lh, mlen) == 3 && st.ext))
  {
    var b := FirstHeader(h, lh, mlen) + rest;
    var bh := Basic(Fmt(h, lh, mlen), h.csid, BasicRoom(h.csid));
    FirstHeaderLayout(h, lh, mlen, rest);
    if bh.fmt == 3 && st.ext {
      RepeatedHeader(h, lh, mlen);
    } else {
      FieldsSettle(cfg, st, h, lh, mlen, bh, b);
    }
  }

  /** A format 3 message consists of basic headers and payload alone. */
  lemma RepeatedHeader(h: Header, lh: Option<Header>, mlen: uint32)
    requires Fmt(h, lh, mlen) == 3
    ensures Stamp(h, lh) == 0 && FirstHeader(h, lh, mlen) == BasicBytes(3, h.csid)
    ensures forall timeFix :: NextHeader(timeFix, h, lh) == BasicBytes(3, h.csid)
  {
  }

  lemma FieldsSettle(cfg: Config, st: InStream, h: Header, lh: Option<Header>, mlen: uint32, bh: Basic, b: seq<byte>)
    requires mlen < TWO24 && Synced(st, h, lh, mlen)
    requires bh.fmt == Fmt(h, lh, mlen) && bh.csid == h.csid && ParseBasic(b) == Some(bh)
    requires bh.fmt == 3 ==> !st.ext
    requires var eb, m := ExtendedBytes(Stamp(h, lh)), bh.size + FieldsSize(bh.fmt);
             && m + |eb| <= |b|
             && b[bh.size..m] == FieldBytes(bh.fmt, Stamp(h, lh), mlen, h.kind, h.msid) && b[m..m + |eb|] == eb
    ensures ParseHeader(cfg, st, bh, b)
            == Done(Announced(cfg, st, h, lh, mlen), bh.size + FieldsSize(bh.fmt) + |ExtendedBytes(Stamp(h, lh))|)
  {
    var stamp := Stamp(h, lh);
    var n, m := bh.size, bh.size + FieldsSize(bh.fmt);
    FieldsParse(bh.fmt, stamp, mlen, h.kind, h.msid);
    FieldsInPlace(b, n, FieldBytes(bh.fmt, stamp, mlen, h.kind, h.msid));
    if stamp >= EXTENDED {
      Be32RoundTrip(stamp);
      FieldsInPlace(b, m, Be32(stamp));
    }
    ValuesSettle(cfg, st, h, lh, mlen, bh, b);
  }

  lemma FieldsInPlace(b: seq<byte>, n: nat, f: seq<byte>)
    requires n + |f| <= |b| && b[n..n + |f|] == f
    ensures forall i :: 0 <= i < |f| ==> f[i] == b[n + i]
  {
    forall i | 0 <= i < |f| ensures f[i] == b[n + i] {
      assert b[n..n + |f|][i] == b[n + i];
    }
  }

  /** Fields with the right values settle the stream as announced. */
  lemma ValuesSettle(cfg: Config, st: InStream, h: Header, lh: Option<Header>, mlen: uint32, bh: Basic, b: seq<byte>)
    requires Synced(st, h, lh, mlen)
    requires bh.fmt == Fmt(h, lh, mlen) && bh.csid == h.csid && ParseBasic(b) == Some(bh)
    requires bh.fmt == 3 ==> !st.ext
    requires var stamp, n, m := Stamp(h, lh), bh.size, bh.size + FieldsSize(bh.fmt);
             && m + |ExtendedBytes(stamp)| <= |b|
             && (bh.fmt <= 2 ==> OfBe24(b[n], b[n + 1], b[n + 2]) == TimeField(stamp))
             && (bh.fmt <= 1 ==> OfBe24(b[n + 3], b[n + 4], b[n + 5]) == mlen && b[n + 6] == h.kind)
             && (bh.fmt == 0 ==> OfBe32(b[n + 10], b[n + 9], b[n + 8], b[n + 7]) == h.msid)
             && (stamp >= EXTENDED ==> OfBe32(b[m], b[m + 1], b[m + 2], b[m + 3]) == stamp)
    ensures ParseHeader(cfg, st, bh, b)
            == Done(Announced(cfg, st, h, lh, mlen), bh.size + FieldsSize(bh.fmt) + |ExtendedBytes(Stamp(h, lh))|)
  {
    if bh.fmt == 3 {
      assert Stamp(h, lh) == 0;
    }
    assert HasExtended(st, bh.fmt, bh.size, b) == (Stamp(h, lh) >= EXTENDED);
  }

  lemma FieldsParse(fmt: nat, stamp: uint32, mlen: uint32, kind: byte, msid: uint32)
    requires mlen < TWO24
    ensures var b := FieldBytes(fmt, stamp, mlen, kind, msid);
            && (fmt <= 2 ==> OfBe24(b[0], b[1], b[2]) == TimeField(stamp))
            && (fmt <= 1 ==> OfBe24(b[3], b[4], b[5]) == mlen && b[6] == kind)
            && (fmt == 0 ==> OfBe32(b[10], b[9], b[8], b[7]) == msid)
  {
    Be24RoundTrip(TimeField(stamp));
    assert mlen % TWO24 == mlen;
    Be24RoundTrip(mlen);
    Le32RoundTrip(msid);
    FieldIndices(Be24(TimeField(stamp)), Be24(mlen), kind, Le32(msid));
  }

  lemma FieldIndices(t: seq<byte>, l: seq<byte>, kind: byte, m: seq<byte>)
    requires |t| == |l| == 3 && |m| == 4
    ensures t + l + [kind] + m == [t[0], t[1], t[2], l[0], l[1], l[2], kind, m[0], m[1], m[2], m[3]]
    ensures t + l + [kind] == [t[0], t[1], t[2], l[0], l[1], l[2], kind]
  {
  }

  lemma NextHeaderParses(cfg: Config, st: InStream, h: Header, lh: Option<Header>, rest: seq<byte>)
    requires 2 <= h.csid < 65600
    requires st.len != 0 && st.hdr.csid == h.csid && st.ext == (cfg.timeFix && Stamp(h, lh) >= EXTENDED)
    ensures var th := NextHeader(cfg.timeFix, h, lh);
            var bh := Basic(3, h.csid, BasicRoom(h.csid));
            && ParseBasic(th + rest) == Some(bh)
            && ParseHeader(cfg, st, bh, th + rest) == Done(st, |th|)
  {
    var th := NextHeader(cfg.timeFix, h, lh);
    var bb := BasicBytes(3, h.csid);
    BasicHeaderExact(3, h.csid);
    assert th + rest == bb + (th[|bb|..] + rest);
    ParseBasicStable(bb, th[|bb|..] + rest);
  }

  /** A chunk that fills the pending bytes is taken whole. */
  lemma FeedOneChunk(cfg: Config, r: Receiver, head: seq<byte>, body: seq<byte>, bh: Basic, st: InStream)
    requires WellFormed(cfg, r) && !r.dead && r.pending == []
    requires bh.csid < cfg.maxStreams && ParseBasic(head + body) == Some(bh)
    requires ParseHeader(cfg, r.streams[bh.csid].stream, bh, head + body) == Done(st, |head|)
    requires st.hdr.mlen <= cfg.maxMessage && |body| == BodySize(cfg, st)
    ensures Feed(cfg, r, head + body)
            == TakeChunk(cfg, r.(pending := head + body), Chunk(bh.csid, st, body, |head + body|))
  {
    var b := head + body;
    assert r.pending + b == b;
    OneChunk(cfg, r.(pending := b), head, body, bh, st);
    DrainOne(cfg, r.(pending := b), Chunk(bh.csid, st, body, |b|));
  }

  lemma OneChunk(cfg: Config, r: Receiver, head: seq<byte>, body: seq<byte>, bh: Basic, st: InStream)
    requires WellFormed(cfg, r) && r.pending == head + body
    requires bh.csid < cfg.maxStreams && ParseBasic(r.pending) == Some(bh)
    requires ParseHeader(cfg, r.streams[bh.csid].stream, bh, r.pending) == Done(st, |head|)
    requires st.hdr.mlen <= cfg.maxMessage && |body| == BodySize(cfg, st)
    ensures NextChunk(cfg, r) == Chunk(bh.csid, st, body, |r.pending|)
  {
    assert r.pending[|head|..|head| + |body|] == body;
  }

  lemma DrainOne(cfg: Config, r: Receiver, c: ChunkStep)
    requires WellFormed(cfg, r) && !r.dead && NextChunk(cfg, r) == c && c.Chunk? && c.used == |r.pending|
    ensures Drain(cfg, r) == TakeChunk(cfg, r, c)
  {
    var r1 := TakeChunk(cfg, r, c);
    if !r1.dead {
      assert NextChunk(cfg, r1).Wait?;
    }
  }

  // ----- One message

  /** The receiver after it has been handed a complete message. */
  ghost function After(cfg: Config, r: Receiver, csid: nat, st: InStream, m: Message): Receiver
    requires csid < |r.streams|
  {
    if cfg.accepts(m) then
      r.(streams := r.streams[csid := Partial(st, [])], pending := [], delivered := r.delivered + [m])
    else Dead(r.(delivered := r.delivered + [m]))
  }

  /** The receiver after the piece at `off` of `payload`, read behind a header that left the stream at `st`. */
  ghost function AfterPiece(cfg: Config, r: Receiver, csid: nat, st: InStream, payload: seq<byte>, off: nat): Receiver
    requires csid < |r.streams| && cfg.chunkSize > 0 && off <= |payload| && |payload| < TWO24
  {
    if |payload| - off <= cfg.chunkSize then After(cfg, r, csid, Completed(st), Message(Completed(st).hdr, payload))
    else r.(streams := r.streams[csid := Partial(st.(len := off + cfg.chunkSize), payload[..off + cfg.chunkSize])])
  }

  /** The part of a payload that goes into the chunk at `off`. */
  function PieceAt(payload: seq<byte>, off: nat, n: nat): seq<byte>
    requires off <= |payload|
  {
    if |payload| - off <= n then payload[off..] else payload[off..off + n]
  }

  lemma PieceArrives(cfg: Config, r: Receiver, head: seq<byte>, bh: Basic, st: InStream, payload: seq<byte>, off: nat)
    requires WellFormed(cfg, r) && !r.dead && r.pending == []
    requires off <= |payload| < TWO24 && |payload| <= cfg.maxMessage
    requires bh.csid < cfg.maxStreams && r.streams[bh.csid].data == payload[..off]
    requires st.len == off && st.hdr.mlen == |payload|
    requires var b := head + PieceAt(payload, off, cfg.chunkSize);
             ParseBasic(b) == Some(bh) && ParseHeader(cfg, r.streams[bh.csid].stream, bh, b) == Done(st, |head|)
    ensures Fed(cfg, r, head + PieceAt(payload, off, cfg.chunkSize), AfterPiece(cfg, r, bh.csid, st, payload, off))
  {
    var body := PieceAt(payload, off, cfg.chunkSize);
    assert Missing(st) == |payload| - off;
    FeedOneChunk(cfg, r, head, body, bh, st);
    TakePiece(cfg, r, bh.csid, st, payload, off, head + body);
  }

  lemma TakePiece(cfg: Config, r: Receiver, csid: nat, st: InStream, payload: seq<byte>, off: nat, b: seq<byte>)
    requires WellFormed(cfg, r) && r.pending == [] && csid < |r.streams|
    requires off <= |payload| < TWO24 && r.streams[csid].data == payload[..off]
    requires st.len == off && st.hdr.mlen == |payload|
    ensures TakeChunk(cfg, r.(pending := b), Chunk(csid, st, PieceAt(payload, off, cfg.chunkSize), |b|))
            == AfterPiece(cfg, r, csid, st, payload, off)
  {
    assert Missing(st) == |payload| - off;
    assert b[|b|..] == [];
    if |payload| - off <= cfg.chunkSize {
      assert payload[..off] + payload[off..] == payload;
    } else {
      assert payload[..off] + payload[off..off + cfg.chunkSize] == payload[..off + cfg.chunkSize];
    }
  }

  /** The message has been handed over; an accepted one leaves the receiver ready for more. */
  ghost predicate Handed(cfg: Config, r: Receiver, csid: nat, st: InStream, payload: seq<byte>, r': Receiver) {
    && csid < |r.streams| && r'.delivered == r.delivered + [Message(st.hdr, payload)]
    && (cfg.accepts(Message(st.hdr, payload)) ==> r' == After(cfg, r, csid, st, Message(st.hdr, payload)))
  }

  /** Collecting a piece leaves nothing behind once the message is complete. */
  lemma HandedTwice(cfg: Config, r: Receiver, r1: Receiver, csid: nat, st: InStream, payload: seq<byte>, r2: Receiver)
    requires csid < |r.streams| == |r1.streams| && r1 == r.(streams := r.streams[csid := r1.streams[csid]])
    requires Handed(cfg, r1, csid, st, payload, r2)
    ensures Handed(cfg, r, csid, st, payload, r2)
  {
    assert r1.streams[csid := Partial(st, [])] == r.streams[csid := Partial(st, [])];
  }

  /** The middle of a message on stream `h.csid`: its first `off` bytes have been collected. */
  ghost predicate MidMessage(cfg: Config, r: Receiver, h: Header, lh: Option<Header>, payload: seq<byte>, off: nat) {
    && WellFormed(cfg, r) && !r.dead && r.pending == []
    && 2 <= h.csid < 65600 && h.csid < cfg.maxStreams && |payload| < TWO24 && |payload| <= cfg.maxMessage
    && 0 < off < |payload|
    && var st := r.streams[h.csid].stream;
    && st.len == off && st.hdr.mlen == |payload| && st.hdr.csid == h.csid
    && st.ext == (cfg.timeFix && Stamp(h, lh) >= EXTENDED)
    && r.streams[h.csid].data == payload[..off]
  }

  /** The chunks from `off` on, each behind the header `th`. */
  ghost function RestWire(th: seq<byte>, payload: seq<byte>, off: nat, n: nat): seq<byte>
    requires n > 0 && off <= |payload|
    decreases |payload| - off
  {
    if |payload| - off <= n then th + PieceAt(payload, off, n)
    else th + PieceAt(payload, off, n) + RestWire(th, payload, off + n, n)
  }

  lemma {:induction false} RestIsTail(th: seq<byte>, payload: seq<byte>, off: nat, n: nat)
    requires n > 0 && off <= |payload|
    ensures RestWire(th, payload, off, n) == TailWire(th, Pieces(payload[off..], n))
    decreases |payload| - off
  {
    PiecesFrom(payload, off, n);
    TailWireCons(th, Pieces(payload[off..], n));
    if |payload| - off > n {
      RestIsTail(th, payload, off + n, n);
    }
  }

  lemma TailWireCons(th: seq<byte>, ps: seq<seq<byte>>)
    requires ps != []
    ensures TailWire(th, ps) == if |ps| == 1 then th + ps[0] else th + ps[0] + TailWire(th, ps[1..])
  {
    if |ps| == 1 {
      assert TailWire(th, ps[1..]) == [];
    }
  }

  lemma PiecesFrom(payload: seq<byte>, off: nat, n: nat)
    requires n > 0 && off <= |payload|
    ensures var ps := Pieces(payload[off..], n);
            && ps[0] == PieceAt(payload, off, n)
            && (if |payload| - off <= n then ps == [payload[off..]] else ps[1..] == Pieces(payload[off + n..], n))
  {
    if |payload| - off > n {
      assert payload[off..][n..] == payload[off + n..] && payload[off..][..n] == payload[off..off + n];
    }
  }

  /** The rest `w` of the message arrives. */
  lemma {:induction false} TailArrives(cfg: Config, r: Receiver, h: Header, lh: Option<Header>, th: seq<byte>,
                                       payload: seq<byte>, off: nat)
    returns (w: seq<byte>, r': Receiver)
    requires MidMessage(cfg, r, h, lh, payload, off) && th == NextHeader(cfg.timeFix, h, lh)
    ensures w == RestWire(th, payload, off, cfg.chunkSize) && Fed(cfg, r, w, r')
    ensures Handed(cfg, r, h.csid, Completed(r.streams[h.csid].stream), payload, r')
    decreases |payload| - off
  {
    w := th + PieceAt(payload, off, cfg.chunkSize);
    r' := NextPieceArrives(cfg, r, h, lh, th, payload, off, w);
    if |payload| - off > cfg.chunkSize {
      var r1, rest := r', [];
      rest, r' := TailArrives(cfg, r1, h, lh, th, payload, off + cfg.chunkSize);
      HandedTwice(cfg, r, r1, h.csid, Completed(r.streams[h.csid].stream), payload, r');
      FedTwice(cfg, r, w, r1, rest, r');
      w := w + rest;
    }
  }

  /** The piece at `off` has arrived on a stream that its header left at `st`. */
  ghost predicate Advanced(cfg: Config, r: Receiver, h: Header, lh: Option<Header>, payload: seq<byte>, off: nat,
                           st: InStream, r1: Receiver)
    requires h.csid < |r.streams|
  {
    if |payload| - off <= cfg.chunkSize then Handed(cfg, r, h.csid, Completed(st), payload, r1)
    else
      && MidMessage(cfg, r1, h, lh, payload, off + cfg.chunkSize) && |r1.streams| == |r.streams|
      && Completed(r1.streams[h.csid].stream) == Completed(st)
      && r1 == r.(streams := r.streams[h.csid := r1.streams[h.csid]])
  }

  lemma NextPieceArrives(cfg: Config, r: Receiver, h: Header, lh: Option<Header>, th: seq<byte>, payload: seq<byte>,
                         off: nat, w: seq<byte>)
    returns (r1: Receiver)
    requires MidMessage(cfg, r, h, lh, payload, off) && th == NextHeader(cfg.timeFix, h, lh)
    requires w == th + PieceAt(payload, off, cfg.chunkSize)
    ensures Fed(cfg, r, w, r1)
    ensures Advanced(cfg, r, h, lh, payload, off, r.streams[h.csid].stream, r1)
  {
    var st := r.streams[h.csid].stream;
    NextHeaderParses(cfg, st, h, lh, PieceAt(payload, off, cfg.chunkSize));
    PieceArrives(cfg, r, th, Basic(3, h.csid, BasicRoom(h.csid)), st, payload, off);
    r1 := AfterPiece(cfg, r, h.csid, st, payload, off);
  }

  lemma FeedNothing(cfg: Config, r: Receiver)
    requires WellFormed(cfg, r) && !r.dead && r.pending == []
    ensures Feed(cfg, r, []) == r
  {
    assert r.pending + [] == [];
    assert NextChunk(cfg, r).Wait?;
  }

  /** What the receiver's stream looks like once the message has been delivered. */
  ghost function Final(cfg: Config, st: InStream, h: Header, lh: Option<Header>, mlen: uint32): InStream {
    Completed(Announced(cfg, st, h, lh, mlen))
  }

  /** The receiver can take a message for `h`: nothing is half read, and its size is within the limits. */
  ghost predicate Ready(cfg: Config, r: Receiver, h: Header, lh: Option<Header>, payload: seq<byte>) {
    && WellFormed(cfg, r) && !r.dead && r.pending == []
    && 2 <= h.csid < 65600 && h.csid < cfg.maxStreams && |payload| < TWO24 && |payload| <= cfg.maxMessage
    && r.streams[h.csid].data == [] && Synced(r.streams[h.csid].stream, h, lh, |payload|)
  }

  /** A whole message arrives; the header delivered is the one announced, advanced by its time difference. */
  lemma MessageArrives(cfg: Config, r: Receiver, h: Header, lh: Option<Header>, payload: seq<byte>)
    returns (r': Receiver)
    requires Ready(cfg, r, h, lh, payload)
    requires !(Fmt(h, lh, |payload|) == 3 && r.streams[h.csid].stream.ext)
    ensures Fed(cfg, r, Wire(cfg.timeFix, h, lh, payload, cfg.chunkSize), r')
    ensures Handed(cfg, r, h.csid, Final(cfg, r.streams[h.csid].stream, h, lh, |payload|), payload, r')
  {
    var st := Announced(cfg, r.streams[h.csid].stream, h, lh, |payload|);
    WireSplits(cfg.timeFix, h, lh, payload, cfg.chunkSize);
    r' := FirstPieceArrives(cfg, r, h, lh, payload, st);
    if |payload| > cfg.chunkSize {
      var r1, rest := r', [];
      rest, r' := TailArrives(cfg, r1, h, lh, NextHeader(cfg.timeFix, h, lh), payload, cfg.chunkSize);
      HandedTwice(cfg, r, r1, h.csid, Completed(st), payload, r');
      FedTwice(cfg, r, FirstHeader(h, lh, |payload|) + PieceAt(payload, 0, cfg.chunkSize), r1, rest, r');
    }
  }

  lemma WireSplits(timeFix: bool, h: Header, lh: Option<Header>, payload: seq<byte>, n: nat)
    requires n > 0 && |payload| < TWO32
    ensures var first := FirstHeader(h, lh, |payload|) + PieceAt(payload, 0, n);
            Wire(timeFix, h, lh, payload, n)
            == if |payload| <= n then first else first + RestWire(NextHeader(timeFix, h, lh), payload, n, n)
  {
    var ps := Pieces(payload, n);
    if |payload| <= n {
      assert payload[0..] == payload && ps == [payload];
      assert TailWire(NextHeader(timeFix, h, lh), ps[1..]) == [];
    } else {
      assert payload[0..n] == payload[..n] && ps[1..] == Pieces(payload[n..], n);
      RestIsTail(NextHeader(timeFix, h, lh), payload, n, n);
    }
  }

  lemma FirstPieceArrives(cfg: Config, r: Receiver, h: Header, lh: Option<Header>, payload: seq<byte>, st: InStream)
    returns (r1: Receiver)
    requires Ready(cfg, r, h, lh, payload) && st == Announced(cfg, r.streams[h.csid].stream, h, lh, |payload|)
    requires !(Fmt(h, lh, |payload|) == 3 && r.streams[h.csid].stream.ext)
    ensures Fed(cfg, r, FirstHeader(h, lh, |payload|) + PieceAt(payload, 0, cfg.chunkSize), r1)
    ensures Advanced(cfg, r, h, lh, payload, 0, st, r1)
  {
    assert payload[..0] == [];
    FirstHeaderParses(cfg, r.streams[h.csid].stream, h, lh, |payload|, PieceAt(payload, 0, cfg.chunkSize));
    PieceArrives(cfg, r, FirstHeader(h, lh, |payload|), Basic(Fmt(h, lh, |payload|), h.csid, BasicRoom(h.csid)), st,
                 payload, 0);
    r1 := AfterPiece(cfg, r, h.csid, st, payload, 0);
  }

  /** The header that arrives is the one sent, unless a format 3 header repeats a stale time difference. */
  lemma HeaderArrives(cfg: Config, st: InStream, h: Header, lh: Option<Header>, mlen: uint32)
    requires Synced(st, h, lh, mlen)
    ensures Final(cfg, st, h, lh, mlen).hdr == h.(mlen := mlen) <==> !(Fmt(h, lh, mlen) == 3 && st.dtime != 0)
  {
    var fmt := Fmt(h, lh, mlen);
    if 1 <= fmt <= 2 {
      SubThenAdd32(h.timestamp, lh.value.timestamp);
    } else if fmt == 3 {
      assert Add32(st.hdr.timestamp, st.dtime) == h.timestamp <==> st.dtime == 0;
    }
  }

  // ----- A stream that expects an extended timestamp swallows four bytes of a format 3 message

  /** Bytes that a message of `x` bytes takes, in chunks with headers of `room` bytes. */
  ghost function Need(room: nat, n: nat, x: nat): nat
    requires n > 0
    decreases x
  {
    if x <= n then room + x else room + n + Need(room, n, x - n)
  }

  lemma {:induction false} NeedGrows(room: nat, n: nat, x: nat, y: nat)
    requires n > 0 && x <= y
    ensures Need(room, n, x) <= Need(room, n, y)
    decreases y
  {
    if x > n {
      NeedGrows(room, n, x - n, y - n);
    } else if y > n {
      NeedGrows(room, n, 0, y - n);
    }
  }

  lemma {:induction false} RestNeeds(th: seq<byte>, payload: seq<byte>, off: nat, n: nat)
    requires n > 0 && off <= |payload|
    ensures |RestWire(th, payload, off, n)| == Need(|th|, n, |payload| - off)
    decreases |payload| - off
  {
    if |payload| - off > n {
      RestNeeds(th, payload, off + n, n);
    }
  }

  /** There are too few bytes for a message of `size` bytes on stream `csid`. */
  ghost predicate Starved(cfg: Config, r: Receiver, csid: nat, size: nat) {
    && WellFormed(cfg, r) && csid < |r.streams| && csid < TWO32
    && |r.pending| < Need(BasicRoom(csid), cfg.chunkSize, size)
    && (|r.streams[csid].data| <= size ==>
          |r.pending| < Need(BasicRoom(csid), cfg.chunkSize, size - |r.streams[csid].data|))
  }

  /** `late` continues `early` without a message of `size` bytes on stream `csid`. */
  ghost predicate Misses(early: seq<Message>, late: seq<Message>, csid: nat, size: nat) {
    early <= late && forall i :: |early| <= i < |late| ==> !(late[i].hdr.csid == csid && |late[i].payload| == size)
  }

  /** Every chunk takes at least the shortest basic header of its stream. */
  lemma ChunkTakes(cfg: Config, r: Receiver)
    requires WellFormed(cfg, r) && NextChunk(cfg, r).Chunk?
    ensures var c := NextChunk(cfg, r);
            && c.csid < TWO32 && c.stream.hdr.csid == c.csid
            && c.used >= BasicRoom(c.csid) + |c.body| && |c.body| == BodySize(cfg, c.stream)
  {
    var bh := ParseBasic(r.pending).value;
    assert bh.size >= BasicRoom(bh.csid);
  }

  lemma NeedStep(room: nat, n: nat, x: int)
    requires n > 0
    ensures 0 <= x <= n ==> Need(room, n, x) == room + x
    ensures x > n ==> Need(room, n, x) == room + n + Need(room, n, x - n)
  {
  }

  lemma StarvedStep(cfg: Config, r: Receiver, csid: nat, size: nat)
    requires Starved(cfg, r, csid, size) && NextChunk(cfg, r).Chunk?
    ensures var r1 := TakeChunk(cfg, r, NextChunk(cfg, r));
            && Misses(r.delivered, r1.delivered, csid, size)
            && (!r1.dead ==> Starved(cfg, r1, csid, size))
  {
    ChunkTakes(cfg, r);
    StarvedTake(cfg, r, NextChunk(cfg, r), csid, size);
  }

  /** A chunk with a body of `take` bytes does not complete a message for which the bytes are too few. */
  lemma NeedTaken(room: nat, n: nat, size: nat, have: nat, take: nat, pending: nat, used: nat)
    requires n > 0 && take <= n && room + take <= used <= pending
    requires have <= size ==> pending < Need(room, n, size - have)
    ensures have <= size ==> have + take != size
    ensures have + n <= size && take == n ==> pending - used < Need(room, n, size - have - n)
  {
    NeedStep(room, n, size - have);
  }

  lemma StarvedTake(cfg: Config, r: Receiver, c: ChunkStep, csid: nat, size: nat)
    requires Starved(cfg, r, csid, size) && c.Chunk? && c.csid < |r.streams| && c.csid < TWO32 && c.used <= |r.pending|
    requires c.stream.hdr.csid == c.csid
    requires c.used >= BasicRoom(c.csid) + |c.body| && |c.body| == BodySize(cfg, c.stream)
    ensures var r1 := TakeChunk(cfg, r, c);
            && Misses(r.delivered, r1.delivered, csid, size)
            && (!r1.dead ==> Starved(cfg, r1, csid, size))
  {
    if c.csid == csid {
      StarvedOwn(cfg, r, c, size);
    }
  }

  /** The same for a chunk of the stream itself. */
  lemma StarvedOwn(cfg: Config, r: Receiver, c: ChunkStep, size: nat)
    requires c.Chunk? && Starved(cfg, r, c.csid, size) && c.used <= |r.pending|
    requires c.used >= BasicRoom(c.csid) + |c.body| && |c.body| == BodySize(cfg, c.stream)
    ensures var r1 := TakeChunk(cfg, r, c);
            && Misses(r.delivered, r1.delivered, c.csid, size)
            && (!r1.dead ==> Starved(cfg, r1, c.csid, size))
  {
    var data := r.streams[c.csid].data;
    NeedTaken(BasicRoom(c.csid), cfg.chunkSize, size, |data|, |c.body|, |r.pending|, c.used);
    assert |data + c.body| == |data| + |c.body|;
  }

  lemma {:induction false} StarvedDrain(cfg: Config, r: Receiver, csid: nat, size: nat)
    requires Starved(cfg, r, csid, size)
    ensures Misses(r.delivered, Drain(cfg, r).delivered, csid, size)
    decreases |r.pending|
  {
    if !r.dead && NextChunk(cfg, r).Chunk? {
      StarvedStep(cfg, r, csid, size);
      var r1 := TakeChunk(cfg, r, NextChunk(cfg, r));
      if !r1.dead {
        StarvedDrain(cfg, r1, csid, size);
        MissesTwice(r.delivered, r1.delivered, Drain(cfg, r1).delivered, csid, size);
      }
    }
  }

  lemma MissesTwice(a: seq<Message>, b: seq<Message>, c: seq<Message>, csid: nat, size: nat)
    requires Misses(a, b, csid, size) && Misses(b, c, csid, size)
    ensures Misses(a, c, csid, size)
  {
    forall i | |a| <= i < |b| ensures c[i] == b[i] {
    }
  }

  /** A format 3 message read with an extended timestamp never arrives; in one chunk, nothing does. */
  lemma ExtendedStarves(cfg: Config, r: Receiver, h: Header, lh: Option<Header>, payload: seq<byte>)
    requires Ready(cfg, r, h, lh, payload)
    requires Fmt(h, lh, |payload|) == 3 && r.streams[h.csid].stream.ext
    ensures var r' := Feed(cfg, r, Wire(cfg.timeFix, h, lh, payload, cfg.chunkSize));
            && Misses(r.delivered, r'.delivered, h.csid, |payload|)
            && (|payload| <= cfg.chunkSize ==> r'.delivered == r.delivered)
  {
    RepeatedWire(cfg.timeFix, h, lh, payload, cfg.chunkSize);
    ExtendedFirst(cfg, r, h, payload, Wire(cfg.timeFix, h, lh, payload, cfg.chunkSize));
  }

  lemma RepeatedWire(timeFix: bool, h: Header, lh: Option<Header>, payload: seq<byte>, n: nat)
    requires n > 0 && |payload| < TWO32 && 2 <= h.csid < 65600 && Fmt(h, lh, |payload|) == 3
    ensures var wire := Wire(timeFix, h, lh, payload, n);
            && |wire| == Need(BasicRoom(h.csid), n, |payload|)
            && ParseBasic(wire) == Some(Basic(3, h.csid, BasicRoom(h.csid)))
  {
    var wire, bb := Wire(timeFix, h, lh, payload, n), BasicBytes(3, h.csid);
    RepeatedHeader(h, lh, |payload|);
    WireSplits(timeFix, h, lh, payload, n);
    if |payload| > n {
      RestNeeds(bb, payload, n, n);
    }
    BasicHeaderExact(3, h.csid);
    FrontOf(bb, PieceAt(payload, 0, n), if |payload| > n then RestWire(bb, payload, n, n) else []);
    assert wire == bb + wire[|bb|..];
    ParseBasicStable(bb, wire[|bb|..]);
  }

  lemma FrontOf(a: seq<byte>, b: seq<byte>, c: seq<byte>)
    ensures a + b + c == a + (a + b + c)[|a|..] && a + b == a + (a + b)[|a|..] && a + b + [] == a + b
  {
  }

  lemma ExtendedFirst(cfg: Config, r: Receiver, h: Header, payload: seq<byte>, wire: seq<byte>)
    requires WellFormed(cfg, r) && !r.dead && r.pending == [] && h.csid < cfg.maxStreams && |payload| <= cfg.maxMessage
    requires r.streams[h.csid].data == [] && r.streams[h.csid].stream.len == 0
    requires r.streams[h.csid].stream.ext && r.streams[h.csid].stream.hdr.mlen == |payload| < TWO24
    requires ParseBasic(wire) == Some(Basic(3, h.csid, BasicRoom(h.csid)))
    requires |wire| == Need(BasicRoom(h.csid), cfg.chunkSize, |payload|)
    ensures var r' := Feed(cfg, r, wire);
            && Misses(r.delivered, r'.delivered, h.csid, |payload|)
            && (|payload| <= cfg.chunkSize ==> r'.delivered == r.delivered)
  {
    var n := cfg.chunkSize;
    var r0 := r.(pending := r.pending + wire);
    assert r0.pending == wire;
    ExtendedChunk(cfg, r0, h.csid, |payload|);
    NeedStep(BasicRoom(h.csid), n, |payload|);
    var c := NextChunk(cfg, r0);
    if c.Chunk? {
      StarvedStart(cfg, r0, c, |payload|);
      StarvedDrain(cfg, TakeChunk(cfg, r0, c), h.csid, |payload|);
    }
  }

  lemma StarvedStart(cfg: Config, r: Receiver, c: ChunkStep, size: nat)
    requires WellFormed(cfg, r) && !r.dead && c.Chunk? && c.csid < |r.streams| && c.csid < TWO32
             && r.streams[c.csid].data == []
    requires |r.pending| == Need(BasicRoom(c.csid), cfg.chunkSize, size) && cfg.chunkSize < size
    requires c.used == BasicRoom(c.csid) + 4 + cfg.chunkSize <= |r.pending|
    requires |c.body| == cfg.chunkSize && Missing(c.stream) == size
    ensures var r1 := TakeChunk(cfg, r, c); Starved(cfg, r1, c.csid, size) && !r1.dead && r1.delivered == r.delivered
  {
    NeedStep(BasicRoom(c.csid), cfg.chunkSize, size);
    NeedGrows(BasicRoom(c.csid), cfg.chunkSize, size - cfg.chunkSize, size);
  }

  /** The first chunk as the receiver reads it: four bytes longer than it is. */
  lemma ExtendedChunk(cfg: Config, r: Receiver, csid: uint32, size: nat)
    requires WellFormed(cfg, r) && csid < cfg.maxStreams && size <= cfg.maxMessage
    requires var st := r.streams[csid].stream; st.len == 0 && st.ext && st.hdr.mlen == size
    requires ParseBasic(r.pending) == Some(Basic(3, csid, BasicRoom(csid)))
    ensures var c := NextChunk(cfg, r);
            && !c.Fail?
            && (c.Chunk? ==>
                  && c.csid == csid && c.used == BasicRoom(csid) + 4 + Min(size, cfg.chunkSize) <= |r.pending|
                  && |c.body| == Min(size, cfg.chunkSize) && Missing(c.stream) == size)
  {
    var st, bh := r.streams[csid].stream, Basic(3, csid, BasicRoom(csid));
    var p := ParseHeader(cfg, st, bh, r.pending);
    Sub32Cases(size, 0);
    assert p.Done? ==> p.size == BasicRoom(csid) + 4 && p.stream.hdr.mlen == size && Missing(p.stream) == size;
  }

  /**
    * A message arrives as it was sent, if and only if its first chunk is not a format 3 one on a stream whose last
    * message left a time difference or an extended timestamp.
    */
  lemma DeliveredExactly(cfg: Config, r: Receiver, h: Header, lh: Option<Header>, payload: seq<byte>)
    requires Ready(cfg, r, h, lh, payload)
    ensures var st := r.streams[h.csid].stream;
            Feed(cfg, r, Wire(cfg.timeFix, h, lh, payload, cfg.chunkSize)).delivered
            == r.delivered + [Delivery(OutMessage(h, lh, payload))]
            <==> !(Fmt(h, lh, |payload|) == 3 && (st.dtime != 0 || st.ext))
  {
    var st, m := r.streams[h.csid].stream, Delivery(OutMessage(h, lh, payload));
    var r' := Feed(cfg, r, Wire(cfg.timeFix, h, lh, payload, cfg.chunkSize));
    if Fmt(h, lh, |payload|) == 3 && st.ext {
      ExtendedStarves(cfg, r, h, lh, payload);
      assert (r.delivered + [m])[|r.delivered|] == m;
    } else {
      HeaderArrives(cfg, st, h, lh, |payload|);
      var r1 := MessageArrives(cfg, r, h, lh, payload);
      assert r1 == r' by {
        assert Unfold(0);
      }
      var got := Message(Final(cfg, st, h, lh, |payload|).hdr, payload);
      assert (r.delivered + [got])[|r.delivered|] == got && (r.delivered + [m])[|r.delivered|] == m;
    }
  }

  // ----- Whole sequences of messages

  datatype OutMessage = OutMessage(h: Header, lh: Option<Header>, payload: seq<byte>)

  function Delivery(m: OutMessage): Message
    requires |m.payload| < TWO32
  {
    Message(m.h.(mlen := |m.payload|), m.payload)
  }

  ghost predicate Sized(msgs: seq<OutMessage>) {
    forall i :: 0 <= i < |msgs| ==> |msgs[i].payload| < TWO32
  }

  /** What a message leaves of its stream; `last` holds what earlier messages left of each stream. */
  ghost function Leaves(cfg: Config, last: map<uint32, InStream>, m: OutMessage): InStream
    requires |m.payload| < TWO32
  {
    Final(cfg, if m.h.csid in last then last[m.h.csid] else EMPTY_STREAM, m.h, m.lh, |m.payload|)
  }

  /** A message the sender may send: its `lh` is the last header sent on the stream, perhaps without its length. */
  ghost predicate Sendable(cfg: Config, last: map<uint32, InStream>, m: OutMessage) {
    && 2 <= m.h.csid < 65600 && m.h.csid < cfg.maxStreams
    && |m.payload| < TWO24 && |m.payload| <= cfg.maxMessage && cfg.accepts(Delivery(m))
    && (m.lh.Some? ==>
          && m.h.csid in last
          && (m.lh.value == last[m.h.csid].hdr || m.lh.value == last[m.h.csid].hdr.(mlen := 0)))
    && (Fmt(m.h, m.lh, |m.payload|) == 3 ==> last[m.h.csid].dtime == 0 && !last[m.h.csid].ext)
  }

  ghost predicate Disciplined(cfg: Config, last: map<uint32, InStream>, msgs: seq<OutMessage>)
    decreases |msgs|
  {
    msgs == [] ||
    (Sendable(cfg, last, msgs[0]) && Disciplined(cfg, last[msgs[0].h.csid := Leaves(cfg, last, msgs[0])], msgs[1..]))
  }

  ghost function WireAll(cfg: Config, msgs: seq<OutMessage>): seq<byte>
    requires cfg.Valid() && Sized(msgs)
  {
    if msgs == [] then []
    else Wire(cfg.timeFix, msgs[0].h, msgs[0].lh, msgs[0].payload, cfg.chunkSize) + WireAll(cfg, msgs[1..])
  }

  ghost function Deliveries(msgs: seq<OutMessage>): seq<Message>
    requires Sized(msgs)
  {
    if msgs == [] then [] else [Delivery(msgs[0])] + Deliveries(msgs[1..])
  }

  lemma {:induction false} DisciplinedSizes(cfg: Config, last: map<uint32, InStream>, msgs: seq<OutMessage>)
    requires Disciplined(cfg, last, msgs)
    ensures Sized(msgs)
    decreases |msgs|
  {
    if msgs != [] {
      DisciplinedSizes(cfg, last[msgs[0].h.csid := Leaves(cfg, last, msgs[0])], msgs[1..]);
      forall i | 0 <= i < |msgs| ensures |msgs[i].payload| < TWO32 {
        if i > 0 {
          assert msgs[i] == msgs[1..][i - 1];
        }
      }
    }
  }

  /** Nothing half received, and every stream is as the messages sent on it left it. */
  ghost predicate Tracks(cfg: Config, r: Receiver, last: map<uint32, InStream>) {
    && WellFormed(cfg, r) && !r.dead && r.pending == []
    && (forall c: int {:trigger Known(c)} :: Known(c) ==>
          && (0 <= c < |r.streams| ==> r.streams[c].data == [] && r.streams[c].stream.len == 0)
          && (c in last ==> c < |r.streams| && r.streams[c].stream == last[c]))
  }

  lemma OneRoundTrip(cfg: Config, r: Receiver, last: map<uint32, InStream>, m: OutMessage) returns (r1: Receiver)
    requires Tracks(cfg, r, last) && Sendable(cfg, last, m)
    ensures Fed(cfg, r, Wire(cfg.timeFix, m.h, m.lh, m.payload, cfg.chunkSize), r1)
    ensures Tracks(cfg, r1, last[m.h.csid := Leaves(cfg, last, m)]) && r1.delivered == r.delivered + [Delivery(m)]
  {
    var st := r.streams[m.h.csid].stream;
    assert Known(m.h.csid);
    assert Ready(cfg, r, m.h, m.lh, m.payload);
    HeaderArrives(cfg, st, m.h, m.lh, |m.payload|);
    r1 := MessageArrives(cfg, r, m.h, m.lh, m.payload);
    assert Leaves(cfg, last, m) == Final(cfg, st, m.h, m.lh, |m.payload|);
  }

  lemma {:induction false} RoundTripRun(cfg: Config, r: Receiver, last: map<uint32, InStream>, msgs: seq<OutMessage>)
    returns (r': Receiver)
    requires Tracks(cfg, r, last) && Disciplined(cfg, last, msgs)
    requires Sized(msgs)
    ensures Fed(cfg, r, WireAll(cfg, msgs), r')
    ensures r'.delivered == r.delivered + Deliveries(msgs) && r'.pending == [] && !r'.dead
    decreases |msgs|
  {
    if msgs == [] {
      FeedNothing(cfg, r);
      return r;
    }
    var m := msgs[0];
    var r1 := OneRoundTrip(cfg, r, last, m);
    r' := RoundTripRun(cfg, r1, last[m.h.csid := Leaves(cfg, last, m)], msgs[1..]);
    FedTwice(cfg, r, Wire(cfg.timeFix, m.h, m.lh, m.payload, cfg.chunkSize), r1, WireAll(cfg, msgs[1..]), r');
    Assoc(r.delivered, [Delivery(m)], Deliveries(msgs[1..]));
  }

  /** Everything sent is delivered: same streams, types, times and payloads, in order, and nothing else. */
  lemma WireRoundTrip(cfg: Config, r: Receiver, last: map<uint32, InStream>, msgs: seq<OutMessage>)
    requires Tracks(cfg, r, last) && Disciplined(cfg, last, msgs)
    ensures Sized(msgs)
    ensures var r' := Feed(cfg, r, WireAll(cfg, msgs));
            r'.delivered == r.delivered + Deliveries(msgs) && r'.pending == [] && !r'.dead
  {
    DisciplinedSizes(cfg, last, msgs);
    var r' := RoundTripRun(cfg, r, last, msgs);
    assert Unfold(0);
  }

  /** The same, however the network cuts the bytes up. */
  lemma FragmentedRoundTrip(cfg: Config, r: Receiver, last: map<uint32, InStream>, msgs: seq<OutMessage>,
                            frags: seq<seq<byte>>)
    requires Tracks(cfg, r, last) && Disciplined(cfg, last, msgs)
    requires Sized(msgs)
    requires Concat(frags) == WireAll(cfg, msgs)
    ensures FeedAll(cfg, r, frags).delivered == r.delivered + Deliveries(msgs)
  {
    WireRoundTrip(cfg, r, last, msgs);
    FragmentationIndependent(cfg, r, frags);
  }

  // ----- The two ways a format 3 message goes wrong, from a new connection

  function NewReceiver(cfg: Config): (r: Receiver)
    requires cfg.Valid()
    ensures WellFormed(cfg, r)
  {
    Receiver(seq(cfg.maxStreams, i => Partial(EMPTY_STREAM, [])), [], [], false)
  }

  /** A video message on chunk stream 4, written relative to `before`. */
  function Video(time: uint32, before: Option<uint32>, payload: seq<byte>): OutMessage
    requires |payload| < TWO32
  {
    OutMessage(Header(4, time, 0, 9, 1),
               if before.Some? then Some(Header(4, before.value, |payload|, 9, 1)) else None, payload)
  }

  function StaleRun(payload: seq<byte>): (msgs: seq<OutMessage>)
    requires |payload| < TWO32
    ensures Sized(msgs)
  {
    [Video(60, None, payload), Video(100, Some(60), payload), Video(100, Some(100), payload)]
  }

  /** Messages at 60, 100 and 100 are delivered with the times 60, 100 and 140. */
  lemma StaleDifference(cfg: Config, payload: seq<byte>)
    requires cfg.Valid() && cfg.maxStreams > 4 && 0 < |payload| < TWO24 && |payload| <= cfg.maxMessage
    requires forall m :: cfg.accepts(m)
    ensures Deliveries(StaleRun(payload))
            == [Message(Header(4, 60, |payload|, 9, 1), payload), Message(Header(4, 100, |payload|, 9, 1), payload),
                Message(Header(4, 100, |payload|, 9, 1), payload)]
    ensures Feed(cfg, NewReceiver(cfg), WireAll(cfg, StaleRun(payload))).delivered
            == [Message(Header(4, 60, |payload|, 9, 1), payload), Message(Header(4, 100, |payload|, 9, 1), payload),
                Message(Header(4, 140, |payload|, 9, 1), payload)]
  {
    var m := StaleRun(payload);
    var r1, r2 := StaleState(cfg, payload);
    var r3 := MessageArrives(cfg, r2, m[2].h, m[2].lh, payload);
    assert Final(cfg, r2.streams[4].stream, m[2].h, m[2].lh, |payload|).hdr == Header(4, 140, |payload|, 9, 1);
    ThreeFed(cfg, NewReceiver(cfg), WireOf(cfg, m[0]), r1, WireOf(cfg, m[1]), r2, WireOf(cfg, m[2]), r3);
    ThreeWires(cfg, m[0], m[1], m[2]);
    assert m == [m[0], m[1], m[2]];
  }

  ghost function WireOf(cfg: Config, m: OutMessage): seq<byte>
    requires cfg.Valid() && |m.payload| < TWO32
  {
    Wire(cfg.timeFix, m.h, m.lh, m.payload, cfg.chunkSize)
  }

  /** The first two messages leave a time difference of 40. */
  lemma StaleState(cfg: Config, payload: seq<byte>) returns (r1: Receiver, r2: Receiver)
    requires cfg.Valid() && cfg.maxStreams > 4 && 0 < |payload| < TWO24 && |payload| <= cfg.maxMessage
    requires forall m :: cfg.accepts(m)
    ensures var m := StaleRun(payload);
            && WellFormed(cfg, r1) && Fed(cfg, NewReceiver(cfg), WireOf(cfg, m[0]), r1)
                && Fed(cfg, r1, WireOf(cfg, m[1]), r2)
            && Ready(cfg, r2, m[2].h, m[2].lh, payload) && r2.delivered == [Delivery(m[0]), Delivery(m[1])]
            && r2.streams[4].stream == InStream(Header(4, 100, |payload|, 9, 1), 40, 0, false)
  {
    var m := StaleRun(payload);
    r1 := OneRoundTrip(cfg, NewReceiver(cfg), map[], m[0]);
    var last1: map<uint32, InStream> := map[4 := InStream(Header(4, 60, |payload|, 9, 1), 0, 0, false)];
    assert map[][4 := Leaves(cfg, map[], m[0])] == last1;
    r2 := OneRoundTrip(cfg, r1, last1, m[1]);
    assert Leaves(cfg, last1, m[1]) == InStream(Header(4, 100, |payload|, 9, 1), 40, 0, false);
    assert Known(4);
  }

  lemma ThreeFed(cfg: Config, r0: Receiver, w1: seq<byte>, r1: Receiver, w2: seq<byte>, r2: Receiver, w3: seq<byte>,
                 r3: Receiver)
    requires WellFormed(cfg, r0) && WellFormed(cfg, r1) && WellFormed(cfg, r2)
    requires Fed(cfg, r0, w1, r1) && Fed(cfg, r1, w2, r2) && Fed(cfg, r2, w3, r3)
    ensures r3 == Feed(cfg, r0, w1 + (w2 + w3))
  {
    FedTwice(cfg, r1, w2, r2, w3, r3);
    FedTwice(cfg, r0, w1, r1, w2 + w3, r3);
    assert Unfold(0);
  }

  lemma ThreeWires(cfg: Config, m1: OutMessage, m2: OutMessage, m3: OutMessage)
    requires cfg.Valid() && |m1.payload| < TWO32 && |m2.payload| < TWO32 && |m3.payload| < TWO32
    ensures Sized([m1, m2, m3]) && WireAll(cfg, [m1, m2, m3]) == WireOf(cfg, m1) + (WireOf(cfg, m2) + WireOf(cfg, m3))
    ensures Deliveries([m1, m2, m3]) == [Delivery(m1), Delivery(m2), Delivery(m3)]
  {
    TwoWires(cfg, m2, m3);
    assert [m1, m2, m3][1..] == [m2, m3];
  }

  lemma TwoWires(cfg: Config, m1: OutMessage, m2: OutMessage)
    requires cfg.Valid() && |m1.payload| < TWO32 && |m2.payload| < TWO32
    ensures Sized([m1, m2]) && WireAll(cfg, [m1, m2]) == WireOf(cfg, m1) + WireOf(cfg, m2)
    ensures Deliveries([m1, m2]) == [Delivery(m1), Delivery(m2)]
  {
    assert [m1, m2][1..] == [m2] && [m2][1..] == [];
    assert WireAll(cfg, [m2]) == WireOf(cfg, m2) + WireAll(cfg, []);
    assert Deliveries([m2]) == [Delivery(m2)] + Deliveries([]);
  }

  function RepeatRun(payload: seq<byte>): (msgs: seq<OutMessage>)
    requires |payload| < TWO32
    ensures Sized(msgs)
  {
    [Video(0x100_0000, None, payload), Video(0x100_0000, Some(0x100_0000), payload)]
  }

  /** With extended timestamps, a second message at the same time is lost. */
  lemma ExtendedIsLost(cfg: Config, payload: seq<byte>)
    requires cfg.Valid() && cfg.timeFix && cfg.maxStreams > 4 && 0 < |payload| <= cfg.chunkSize
    requires |payload| < TWO24 && |payload| <= cfg.maxMessage && forall m :: cfg.accepts(m)
    ensures |Deliveries(RepeatRun(payload))| == 2
    ensures Feed(cfg, NewReceiver(cfg), WireAll(cfg, RepeatRun(payload))).delivered
            == Deliveries(RepeatRun(payload))[..1]
  {
    var m := RepeatRun(payload);
    var r1 := OneRoundTrip(cfg, NewReceiver(cfg), map[], m[0]);
    assert Leaves(cfg, map[], m[0]) == InStream(Header(4, 0x100_0000, |payload|, 9, 1), 0, 0, true);
    assert Known(4);
    ExtendedStarves(cfg, r1, m[1].h, m[1].lh, payload);
    assert r1 == Feed(cfg, NewReceiver(cfg), WireOf(cfg, m[0])) by {
      assert Unfold(0);
    }
    FeedCompose(cfg, NewReceiver(cfg), WireOf(cfg, m[0]), WireOf(cfg, m[1]));
    TwoWires(cfg, m[0], m[1]);
    assert m == [m[0], m[1]];
  }

  // ----- Interleaved chunk streams

  /** The receiver after one whole chunk. */
  ghost function Take(cfg: Config, r: Receiver, chunk: seq<byte>): Receiver
    requires WellFormed(cfg, r) && NextChunk(cfg, r.(pending := chunk)).Chunk?
  {
    TakeChunk(cfg, r.(pending := chunk), NextChunk(cfg, r.(pending := chunk)))
  }

  /** Each element of `chunks` is exactly one chunk, for a receiver that has read the ones before it. */
  ghost predicate Chunked(cfg: Config, r: Receiver, chunks: seq<seq<byte>>)
    decreases |chunks|
  {
    && WellFormed(cfg, r) && !r.dead && r.pending == []
    && (chunks != [] ==>
          && NextChunk(cfg, r.(pending := chunks[0])).Chunk?
          && NextChunk(cfg, r.(pending := chunks[0])).used == |chunks[0]|
          && Chunked(cfg, Take(cfg, r, chunks[0]), chunks[1..]))
  }

  predicate On(chunk: seq<byte>, c: nat) {
    ParseBasic(chunk).Some? && ParseBasic(chunk).value.csid == c
  }

  /** The chunks of stream `c`, in order. */
  function OfStream(chunks: seq<seq<byte>>, c: nat): seq<seq<byte>> {
    if chunks == [] then []
    else if On(chunks[0], c) then [chunks[0]] + OfStream(chunks[1..], c)
    else OfStream(chunks[1..], c)
  }

  function Only(ms: seq<Message>, c: nat): seq<Message> {
    if ms == [] then []
    else if ms[0].hdr.csid == c then [ms[0]] + Only(ms[1..], c)
    else Only(ms[1..], c)
  }

  lemma {:induction false} OnlyAppend(a: seq<Message>, b: seq<Message>, c: nat)
    ensures Only(a + b, c) == Only(a, c) + Only(b, c)
  {
    if a == [] {
      assert a + b == b;
    } else {
      assert (a + b)[1..] == a[1..] + b;
      OnlyAppend(a[1..], b, c);
    }
  }

  lemma TakeIsFeed(cfg: Config, r: Receiver, chunk: seq<byte>)
    requires WellFormed(cfg, r) && !r.dead && r.pending == []
    requires NextChunk(cfg, r.(pending := chunk)).Chunk? && NextChunk(cfg, r.(pending := chunk)).used == |chunk|
    ensures Feed(cfg, r, chunk) == Take(cfg, r, chunk)
  {
    assert r.pending + chunk == chunk;
    var r1 := Take(cfg, r, chunk);
    if !r1.dead {
      assert r1.pending == [];
      assert Drain(cfg, r1) == r1;
    }
  }

  /** A chunk changes its own stream only, and what it does there depends on that stream only. */
  lemma ChunkIsLocal(cfg: Config, r: Receiver, s: Receiver, chunk: seq<byte>, c: nat)
    requires WellFormed(cfg, r) && !r.dead && r.pending == [] && c < cfg.maxStreams
    requires NextChunk(cfg, r.(pending := chunk)).Chunk? && NextChunk(cfg, r.(pending := chunk)).used == |chunk|
    requires !Take(cfg, r, chunk).dead
    requires WellFormed(cfg, s) && !s.dead && s.pending == [] && s.streams[c] == r.streams[c]
    ensures !On(chunk, c) ==> Take(cfg, r, chunk).streams[c] == r.streams[c]
    ensures !On(chunk, c) ==> Only(Take(cfg, r, chunk).delivered, c) == Only(r.delivered, c)
    ensures On(chunk, c) ==>
              && NextChunk(cfg, s.(pending := chunk)) == NextChunk(cfg, r.(pending := chunk))
              && Take(cfg, s, chunk).streams[c] == Take(cfg, r, chunk).streams[c] && !Take(cfg, s, chunk).dead
    ensures On(chunk, c) && Only(s.delivered, c) == Only(r.delivered, c) ==>
              Only(Take(cfg, s, chunk).delivered, c) == Only(Take(cfg, r, chunk).delivered, c)
  {
    var k := NextChunk(cfg, r.(pending := chunk));
    var r1 := Take(cfg, r, chunk);
    assert k.csid == ParseBasic(chunk).value.csid && k.stream.hdr.csid == k.csid;
    if r1.delivered != r.delivered {
      var m := r1.delivered[|r.delivered|];
      assert r1.delivered == r.delivered + [m] && m.hdr.csid == k.csid;
      OnlyAppend(r.delivered, [m], c);
      OnlyAppend(s.delivered, [m], c);
      assert Only([m], c) == if m.hdr.csid == c then [m] + Only([], c) else Only([], c);
    }
  }

  /**
    * Interleaving independence: what a run delivers on stream `c` is what the chunks of stream `c`
    * deliver on their own, whatever chunks of other streams lie between them.
    */
  lemma {:induction false} InterleavingIndependent(cfg: Config, r: Receiver, s: Receiver, chunks: seq<seq<byte>>,
                                                   c: nat)
    requires Chunked(cfg, r, chunks) && c < cfg.maxStreams
    requires WellFormed(cfg, s) && !s.dead && s.pending == []
    requires s.streams[c] == r.streams[c] && Only(s.delivered, c) == Only(r.delivered, c)
    ensures FeedAll(cfg, s, OfStream(chunks, c)).streams[c] == FeedAll(cfg, r, chunks).streams[c]
    ensures Only(FeedAll(cfg, s, OfStream(chunks, c)).delivered, c) == Only(FeedAll(cfg, r, chunks).delivered, c)
    decreases |chunks|
  {
    if chunks != [] {
      var chunk := chunks[0];
      ChunkIsLocal(cfg, r, s, chunk, c);
      TakeIsFeed(cfg, r, chunk);
      if On(chunk, c) {
        TakeIsFeed(cfg, s, chunk);
        InterleavingIndependent(cfg, Take(cfg, r, chunk), Take(cfg, s, chunk), chunks[1..], c);
        assert OfStream(chunks, c)[1..] == OfStream(chunks[1..], c);
      } else {
        InterleavingIndependent(cfg, Take(cfg, r, chunk), s, chunks[1..], c);
      }
    }
  }
}
