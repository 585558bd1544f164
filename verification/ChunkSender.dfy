/**
  * ngx_rtmp_prepare_message: chunk headers are written in front of the payload of each buffer of a chain,
  * in the 18 bytes of headroom every shared buffer starts with.
  */
module ChunkSender {
  import opened Bytes
  import opened ChunkFormat
  import opened ChunkBuffers

  /** The format of the first chunk; `lh` is the header of the previous message on the stream, if any. */
  function Fmt(h: Header, lh: Option<Header>, mlen: uint32): nat {
    if lh.Some? && lh.value.csid != 0 && h.msid == lh.value.msid then
      if h.kind == lh.value.kind && mlen != 0 && mlen == lh.value.mlen then
        if h.timestamp == lh.value.timestamp then 3 else 2
      else 1
    else 0
  }

  /** The time carried by the header: absolute in format 0, a difference otherwise. */
  function Stamp(h: Header, lh: Option<Header>): uint32 {
    if lh.Some? && lh.value.csid != 0 && h.msid == lh.value.msid then Sub32(h.timestamp, lh.value.timestamp)
    else h.timestamp
  }

  /** The bytes the code writes as basic header, for any csid. */
  function BasicBytes(fmt: nat, csid: uint32): seq<byte>
    requires fmt <= 3
  {
    if 2 <= csid <= 63 then [fmt * 64 + csid]
    else if 64 <= csid < 320 then [fmt * 64, csid - 64]
    else [fmt * 64 + 1, Sub32(csid, 64) % 256, Sub32(csid, 64) / 256 % 256]
  }

  /** The bytes the code sets aside for the basic header. */
  function BasicRoom(csid: uint32): nat {
    if csid >= 320 then 3 else if csid >= 64 then 2 else 1
  }

  /** The basic header fills its room, and names its stream, for exactly the ids the format can express. */
  lemma BasicHeaderExact(fmt: nat, csid: uint32)
    requires fmt <= 3
    ensures |BasicBytes(fmt, csid)| == BasicRoom(csid) + if csid >= 2 then 0 else 2
    ensures ParseBasic(BasicBytes(fmt, csid)) == Some(Basic(fmt, csid, BasicRoom(csid))) <==> 2 <= csid < 65600
  {
    if csid >= 320 {
      var d := csid - 64;
      assert Sub32(csid, 64) == d;
      var low: int, high: int := d % 256, d / 256 % 256;
      assert ParseBasic(BasicBytes(fmt, csid)) == Some(Basic(fmt, 64 + low + 256 * high, 3));
      if csid < 65600 {
        assert d == 256 * (d / 256) + d % 256;
      }
    } else if csid < 2 {
      assert Sub32(csid, 64) == csid - 64 + TWO32;
    }
  }

  function TimeField(stamp: uint32): nat {
    if stamp >= EXTENDED then EXTENDED else stamp
  }

  function FieldBytes(fmt: nat, stamp: uint32, mlen: uint32, kind: byte, msid: uint32): (b: seq<byte>)
    ensures |b| == FieldsSize(fmt)
  {
    if fmt >= 3 then []
    else if fmt == 2 then Be24(TimeField(stamp))
    else if fmt == 1 then Be24(TimeField(stamp)) + Be24(mlen % TWO24) + [kind]
    else Be24(TimeField(stamp)) + Be24(mlen % TWO24) + [kind] + Le32(msid)
  }

  function ExtendedBytes(stamp: uint32): seq<byte> {
    if stamp >= EXTENDED then Be32(stamp) else []
  }

  /** The header of the first chunk of a message. */
  function FirstHeader(h: Header, lh: Option<Header>, mlen: uint32): seq<byte> {
    var fmt := Fmt(h, lh, mlen);
    BasicBytes(fmt, h.csid) + FieldBytes(fmt, Stamp(h, lh), mlen, h.kind, h.msid) + ExtendedBytes(Stamp(h, lh))
  }

  /** The header of every further chunk. */
  function NextHeader(timeFix: bool, h: Header, lh: Option<Header>): seq<byte> {
    BasicBytes(3, h.csid) + if timeFix then ExtendedBytes(Stamp(h, lh)) else []
  }

  /** `hsize`: what the code reserves in front of the first payload byte. */
  function Reserved(h: Header, lh: Option<Header>, mlen: uint32): nat {
    var fmt := Fmt(h, lh, mlen);
    (if fmt == 0 then 12 else if fmt == 1 then 8 else if fmt == 2 then 4 else 1)
    + (if Stamp(h, lh) >= EXTENDED then 4 else 0)
    + (if h.csid >= 64 then if h.csid >= 320 then 2 else 1 else 0)
  }

  /** The first header fills exactly the space reserved for it iff csid >= 2, and that space is always there. */
  lemma HeaderFits(h: Header, lh: Option<Header>, mlen: uint32)
    ensures |FirstHeader(h, lh, mlen)| == Reserved(h, lh, mlen) + if h.csid >= 2 then 0 else 2
    ensures Reserved(h, lh, mlen) <= MAX_CHUNK_HEADER
  {
    BasicHeaderExact(Fmt(h, lh, mlen), h.csid);
  }

  /** The longest header, of a far stream id and a late time in format 0, takes 18 bytes. */
  lemma LongestHeader()
    ensures Reserved(Header(320, 0xff_ffff, 0, 0, 0), None, 0) == MAX_CHUNK_HEADER == 18
  {
  }

  /** A header with its fields at `n` and perhaps a time in four bytes at `m`. */
  ghost predicate Joined(b: seq<byte>, n: nat, m: nat, fmt: nat, csid: nat, stamp: uint32, mlen: nat, kind: nat,
                         msid: nat)
    requires fmt <= 3 && 1 <= n && m == n + if fmt == 0 then 11 else if fmt == 1 then 7 else if fmt == 2 then 3 else 0
  {
    && |b| == (if stamp >= 16777215 then m + 4 else m)
    && BasicOnWire(b, n, fmt, csid) && FieldsOnWire(b, n, fmt, mlen, kind, msid)
    && (fmt <= 2 ==> TimeOnWire(b, n, m, stamp))
    && (fmt <= 2 ==> (b[n] == b[n + 1] == b[n + 2] == 255 <==> stamp >= 16777215))
    && (stamp >= 16777215 ==> FourOnWire(b, m, stamp))
  }

  /** The bytes of the header of a message's first chunk, by their positions. */
  ghost predicate FirstOnWire(b: seq<byte>, h: Header, lh: Option<Header>, mlen: uint32) {
    var fmt, stamp, n := Fmt(h, lh, mlen), Stamp(h, lh), if h.csid < 64 then 1 else if h.csid < 320 then 2 else 3;
    var m := n + (if fmt == 0 then 11 else if fmt == 1 then 7 else if fmt == 2 then 3 else 0);
    Joined(b, n, m, fmt, h.csid, stamp, mlen % TWO24, h.kind, h.msid)
  }

  /** The header of a further chunk. */
  ghost predicate NextOnWire(b: seq<byte>, timeFix: bool, csid: nat, stamp: uint32) {
    var n := if csid < 64 then 1 else if csid < 320 then 2 else 3;
    && BasicOnWire(b, n, 3, csid) && |b| == (if timeFix && stamp >= 16777215 then n + 4 else n)
    && (timeFix && stamp >= 16777215 ==> FourOnWire(b, n, stamp))
  }

  lemma BasicSpelled(fmt: nat, csid: uint32)
    requires fmt <= 3 && 2 <= csid < 65600
    ensures BasicOnWire(BasicBytes(fmt, csid), BasicRoom(csid), fmt, csid) && |BasicBytes(fmt, csid)| == BasicRoom(csid)
  {
    BasicHeaderExact(fmt, csid);
    BasicMeans(BasicBytes(fmt, csid));
  }

  lemma TimeSpelled(stamp: uint32)
    ensures var t := Be24(TimeField(stamp));
            && (t[0] == t[1] == t[2] == 255 <==> stamp >= 16777215)
            && (stamp < 16777215 ==> Weigh(0, t[0], t[1], t[2]) == stamp)
  {
    Be24RoundTrip(TimeField(stamp));
  }

  lemma FieldsSpelled(fmt: nat, stamp: uint32, mlen: uint32, kind: byte, msid: uint32)
    ensures var f := FieldBytes(fmt, stamp, mlen, kind, msid);
            && (fmt <= 2 ==> |f| >= 3 && f[..3] == Be24(TimeField(stamp)))
            && FieldsOnWire(f, 0, fmt, mlen % TWO24, kind, msid)
  {
    Be24RoundTrip(mlen % TWO24);
    Le32RoundTrip(msid);
  }

  lemma FourSpelled(stamp: uint32)
    ensures FourOnWire(Be32(stamp), 0, stamp) && |Be32(stamp)| == 4
  {
    Be32RoundTrip(stamp);
  }

  lemma FrontSpelled(fmt: nat, stamp: uint32, mlen: uint32, kind: byte, msid: uint32)
    requires fmt <= 2
    ensures var f := FieldBytes(fmt, stamp, mlen, kind, msid);
            && (f[0] == f[1] == f[2] == 255 <==> stamp >= 16777215)
            && (stamp < 16777215 ==> Weigh(0, f[0], f[1], f[2]) == stamp)
  {
    var f := FieldBytes(fmt, stamp, mlen, kind, msid);
    TimeSpelled(stamp);
    FieldsSpelled(fmt, stamp, mlen, kind, msid);
    assert f[0] == f[..3][0] && f[1] == f[..3][1] && f[2] == f[..3][2];
  }

  lemma PartsOnWire(fmt: nat, csid: uint32, stamp: uint32, mlen: uint32, kind: byte, msid: uint32)
    requires fmt <= 3 && 2 <= csid < 65600
    ensures var p, f, e := BasicBytes(fmt, csid), FieldBytes(fmt, stamp, mlen, kind, msid), ExtendedBytes(stamp);
            Joined(p + f + e, |p|, |p| + |f|, fmt, csid, stamp, mlen % TWO24, kind, msid)
  {
    var p, f, e := BasicBytes(fmt, csid), FieldBytes(fmt, stamp, mlen, kind, msid), ExtendedBytes(stamp);
    BasicSpelled(fmt, csid);
    FieldsSpelled(fmt, stamp, mlen, kind, msid);
    FourSpelled(stamp);
    if fmt <= 2 {
      FrontSpelled(fmt, stamp, mlen, kind, msid);
    }
    JoinedOnWire(p, f, e, fmt, csid, stamp, mlen % TWO24, kind, msid);
  }

  /** For every stream id that can be expressed, the first header says on the wire what it should. */
  lemma FirstHeaderOnWire(h: Header, lh: Option<Header>, mlen: uint32)
    requires 2 <= h.csid < 65600
    ensures FirstOnWire(FirstHeader(h, lh, mlen), h, lh, mlen)
  {
    BasicSpelled(Fmt(h, lh, mlen), h.csid);
    PartsOnWire(Fmt(h, lh, mlen), h.csid, Stamp(h, lh), mlen, h.kind, h.msid);
  }

  lemma FieldsMoved(p: seq<byte>, f: seq<byte>, e: seq<byte>, fmt: nat, mlen: nat, kind: nat, msid: nat)
    requires FieldsOnWire(f, 0, fmt, mlen, kind, msid)
    ensures FieldsOnWire(p + f + e, |p|, fmt, mlen, kind, msid)
  {
    assert forall k :: 0 <= k < |f| ==> (p + f + e)[|p| + k] == f[k];
  }

  /** A basic header, fields and perhaps four bytes, put together. */
  lemma JoinedOnWire(p: seq<byte>, f: seq<byte>, e: seq<byte>, fmt: nat, csid: nat, stamp: uint32, mlen: nat, kind: nat,
                     msid: nat)
    requires fmt <= 3 && 1 <= |p| <= 3
    requires |f| == if fmt == 0 then 11 else if fmt == 1 then 7 else if fmt == 2 then 3 else 0
    requires BasicOnWire(p, |p|, fmt, csid) && FieldsOnWire(f, 0, fmt, mlen, kind, msid)
    requires if stamp >= 16777215 then |e| == 4 && FourOnWire(e, 0, stamp) else e == []
    requires fmt <= 2 ==> (f[0] == f[1] == f[2] == 255 <==> stamp >= 16777215)
    requires fmt <= 2 && stamp < 16777215 ==> Weigh(0, f[0], f[1], f[2]) == stamp
    ensures Joined(p + f + e, |p|, |p| + |f|, fmt, csid, stamp, mlen, kind, msid)
  {
    var b := p + f + e;
    FieldsMoved(p, f, e, fmt, mlen, kind, msid);
    assert forall k :: 0 <= k < |p| ==> b[k] == p[k];
    assert forall k :: 0 <= k < |e| ==> b[|p| + |f| + k] == e[k];
    if fmt <= 2 {
      assert b[|p|] == f[0] && b[|p| + 1] == f[1] && b[|p| + 2] == f[2];
    }
  }

  lemma NextHeaderOnWire(timeFix: bool, h: Header, lh: Option<Header>)
    requires 2 <= h.csid < 65600
    ensures NextOnWire(NextHeader(timeFix, h, lh), timeFix, h.csid, Stamp(h, lh))
  {
    BasicSpelled(3, h.csid);
    FourSpelled(Stamp(h, lh));
  }

  function LiveSize(out: seq<Buf>): nat {
    if out == [] then 0 else |out[0].Live()| + LiveSize(out[1..])
  }

  lemma {:induction false} LiveSizeSnoc(out: seq<Buf>, b: Buf)
    ensures LiveSize(out + [b]) == LiveSize(out) + |b.Live()|
  {
    if out == [] {
      assert out + [b] == [b];
      assert LiveSize([b]) == |b.Live()| + LiveSize([]);
    } else {
      assert (out + [b])[1..] == out[1..] + [b];
      LiveSizeSnoc(out[1..], b);
    }
  }

  /** A shared buffer whose headroom has not been used. */
  ghost predicate Roomy(b: Buf) {
    MAX_CHUNK_HEADER <= b.pos <= b.last <= |b.data|
  }

  /** A live part behind a header for which only `room` bytes were set aside: a longer header covers payload. */
  function Headed(head: seq<byte>, room: nat, live: seq<byte>): seq<byte>
    requires room <= |head|
  {
    var over := |head| - room;
    if over <= |live| then head + live[over..] else head[..room + |live|]
  }

  /** A header that fits its room leaves the payload alone. */
  lemma HeadedFits(head: seq<byte>, live: seq<byte>)
    ensures Headed(head, |head|, live) == head + live
  {
  }

  function Overlay(d: seq<byte>, p: nat, bytes: seq<byte>): (r: seq<byte>)
    requires p + |bytes| <= |d|
    ensures |r| == |d|
  {
    d[..p] + bytes + d[p + |bytes|..]
  }

  lemma Overwritten(d: seq<byte>, pos: nat, last: nat, room: nat, bytes: seq<byte>)
    requires room <= pos <= last <= |d| && room <= |bytes| && pos - room + |bytes| <= |d|
    ensures Overlay(d, pos - room, bytes)[pos - room..last] == Headed(bytes, room, d[pos..last])
  {
    var p, over := pos - room, |bytes| - room;
    var data := Overlay(d, p, bytes);
    if over <= last - pos {
      var z := d[pos + over..];
      assert data == d[..p] + bytes + z;
      assert data[p..last] == bytes + z[..last - pos - over];
      assert z[..last - pos - over] == d[pos..last][over..];
    } else {
      assert data[p..last] == bytes[..last - p];
    }
  }

  /** Moves `pos` back by `room` bytes and writes `bytes` from there on. */
  function Prepend(b: Buf, bytes: seq<byte>, room: nat): (r: Buf)
    requires room <= b.pos <= b.last <= |b.data|
    requires room <= |bytes| && b.pos - room + |bytes| <= |b.data|
    ensures r.Live() == Headed(bytes, room, b.Live())
    ensures r.last == b.last && |r.data| == |b.data| && r.pos == b.pos - room
  {
    Overwritten(b.data, b.pos, b.last, room, bytes);
    Buf(b.pos - room, b.last, Overlay(b.data, b.pos - room, bytes))
  }

  lemma SizeStep(chain: seq<Buf>, i: nat)
    requires i < |chain| && Roomy(chain[i])
    ensures LiveSize(chain[..i + 1]) == LiveSize(chain[..i]) + (chain[i].last - chain[i].pos)
  {
    assert chain[..i + 1] == chain[..i] + [chain[i]];
    LiveSizeSnoc(chain[..i], chain[i]);
  }

  lemma LengthStep(chain: seq<Buf>, i: nat, mlen: uint32)
    requires i < |chain| && Roomy(chain[i]) && mlen == LiveSize(chain[..i]) % TWO32
    ensures (mlen + (chain[i].last - chain[i].pos)) % TWO32 == LiveSize(chain[..i + 1]) % TWO32
  {
    SizeStep(chain, i);
    var before := LiveSize(chain[..i]);
    SumWraps(before, chain[i].last - chain[i].pos);
  }

  /** The payload size of a chain, as the code adds it up. */
  method MessageLength(chain: seq<Buf>) returns (mlen: uint32)
    requires forall i :: 0 <= i < |chain| ==> Roomy(chain[i])
    ensures mlen == LiveSize(chain) % TWO32
  {
    mlen := 0;
    var i := 0;
    while i < |chain|
      invariant i <= |chain| && mlen == LiveSize(chain[..i]) % TWO32
    {
      LengthStep(chain, i, mlen);
      mlen := (mlen + (chain[i].last - chain[i].pos)) % TWO32;
      i := i + 1;
    }
    assert chain[..i] == chain;
  }

  /** The format, the time to send, and the room for the first header. */
  method Plan(h: Header, lh: Option<Header>, mlen: uint32) returns (fmt: nat, stamp: uint32, hsize: nat)
    ensures fmt == Fmt(h, lh, mlen) <= 3 && stamp == Stamp(h, lh) && hsize == Reserved(h, lh, mlen)
  {
    fmt := 0;
    if lh.Some? && lh.value.csid != 0 && h.msid == lh.value.msid {
      fmt := fmt + 1;
      if h.kind == lh.value.kind && mlen != 0 && mlen == lh.value.mlen {
        fmt := fmt + 1;
        if h.timestamp == lh.value.timestamp {
          fmt := fmt + 1;
        }
      }
      stamp := Sub32(h.timestamp, lh.value.timestamp);
    } else {
      stamp := h.timestamp;
    }
    hsize := [12, 8, 4, 1][fmt];
    if stamp >= EXTENDED {
      hsize := hsize + 4;
    }
    if h.csid >= 64 {
      hsize := hsize + 1;
      if h.csid >= 320 {
        hsize := hsize + 1;
      }
    }
  }

  /** Byte `i` of an integer in memory, the lowest one first. */
  function Octet(v: uint32, i: nat): byte {
    if i == 0 then v % 256
    else if i == 1 then v / 256 % 256
    else if i == 2 then v / 65536 % 256
    else v / 16777216 % 256
  }

  lemma OctetsOf24(v: uint32)
    ensures Be24(v % TWO24) == [Octet(v, 2), Octet(v, 1), Octet(v, 0)]
  {
    var w, k := v % TWO24, v / TWO24;
    assert v == 256 * (65536 * k) + w && v == 65536 * (256 * k) + w;
    ModUnique(v, 65536 * k + w / 256, 256, w % 256);
    ModUnique(v / 256, 65536 * k / 256 + w / 256 / 256, 256, w / 256 % 256);
    ModUnique(v, 256 * k + w / 65536, 65536, w % 65536);
    ModUnique(v / 65536, k, 256, w / 65536);
  }

  lemma OctetsOf32(v: uint32)
    ensures Be32(v) == [Octet(v, 3), Octet(v, 2), Octet(v, 1), Octet(v, 0)]
    ensures Le32(v) == [Octet(v, 0), Octet(v, 1), Octet(v, 2), Octet(v, 3)]
  {
  }

  /** The basic header; where the code sets bits, they were clear. */
  method WriteBasic(fmt: nat, csid: uint32) returns (p: seq<byte>, th: seq<byte>)
    requires fmt <= 3
    ensures p == BasicBytes(fmt, csid) && th == BasicBytes(3, csid)
  {
    p := [fmt * 64];
    if 2 <= csid <= 63 {
      p := [p[0] + csid];
    } else if 64 <= csid < 320 {
      p := p + [Octet(csid - 64, 0)];
    } else {
      p := [p[0] + 1];
      p := p + [Octet(Sub32(csid, 64), 0)];
      p := p + [Octet(Sub32(csid, 64), 1)];
    }
    th := p[0 := p[0] % 64 + 192];
  }

  /** The message header, byte by byte. */
  method WriteFields(fmt: nat, stamp: uint32, mlen: uint32, kind: byte, msid: uint32) returns (p: seq<byte>)
    ensures p == FieldBytes(fmt, stamp, mlen, kind, msid)
  {
    p := [];
    if fmt <= 2 {
      var timestamp := if stamp >= EXTENDED then EXTENDED else stamp;
      OctetsOf24(timestamp);
      p := [Octet(timestamp, 2), Octet(timestamp, 1), Octet(timestamp, 0)];
      if fmt <= 1 {
        OctetsOf24(mlen);
        p := p + [Octet(mlen, 2), Octet(mlen, 1), Octet(mlen, 0)] + [kind];
        if fmt == 0 {
          OctetsOf32(msid);
          p := p + [Octet(msid, 0), Octet(msid, 1), Octet(msid, 2), Octet(msid, 3)];
        }
      }
    }
  }

  /** The two headers, and the room the code sets aside for the first one. */
  method BuildHeaders(timeFix: bool, h: Header, lh: Option<Header>, mlen: uint32)
    returns (head: seq<byte>, th: seq<byte>, hsize: nat)
    ensures head == FirstHeader(h, lh, mlen) && th == NextHeader(timeFix, h, lh)
    ensures hsize == Reserved(h, lh, mlen) <= MAX_CHUNK_HEADER && |th| <= 7
    ensures |head| == if h.csid >= 2 then hsize else hsize + 2
    ensures 2 <= h.csid < 65600 ==>
              FirstOnWire(head, h, lh, mlen) && NextOnWire(th, timeFix, h.csid, Stamp(h, lh))
  {
    if 2 <= h.csid < 65600 {
      FirstHeaderOnWire(h, lh, mlen);
      NextHeaderOnWire(timeFix, h, lh);
    }
    var fmt, stamp;
    fmt, stamp, hsize := Plan(h, lh, mlen);
    head, th := WriteBasic(fmt, h.csid);
    var fields := WriteFields(fmt, stamp, mlen, h.kind, h.msid);
    head := head + fields;
    if stamp >= EXTENDED {
      OctetsOf32(stamp);
      var ext := [Octet(stamp, 3), Octet(stamp, 2), Octet(stamp, 1), Octet(stamp, 0)];
      head := head + ext;
      if timeFix {
        th := th + ext;
      }
    }
    HeaderFits(h, lh, mlen);
  }

  /**
    * Puts `head` in front of the first buffer, for which `room` bytes were set aside, and `th` in front of the others.
    */
  method AddHeaders(chain: seq<Buf>, head: seq<byte>, room: nat, th: seq<byte>) returns (out: seq<Buf>)
    requires chain != [] && forall i :: 0 <= i < |chain| ==> Roomy(chain[i])
    requires room <= |head| && room <= MAX_CHUNK_HEADER && chain[0].pos - room + |head| <= |chain[0].data|
    requires |th| <= MAX_CHUNK_HEADER
    ensures |out| == |chain| && out[0].Live() == Headed(head, room, chain[0].Live())
    ensures forall i :: 1 <= i < |out| ==> out[i].Live() == th + chain[i].Live()
    ensures forall i :: 0 <= i < |out| ==>
              out[i].pos <= out[i].last == chain[i].last && |out[i].data| == |chain[i].data|
  {
    out := chain[0 := Prepend(chain[0], head, room)];
    var i := 1;
    while i < |chain|
      invariant 1 <= i <= |chain| == |out|
      invariant out[0].Live() == Headed(head, room, chain[0].Live()) && SameEnd(out[0], chain[0])
      invariant forall j :: 1 <= j < i ==> out[j].Live() == th + chain[j].Live() && SameEnd(out[j], chain[j])
      invariant forall j :: i <= j < |chain| ==> out[j] == chain[j]
    {
      var b := AddHeader(out[i], th);
      out := out[i := b];
      i := i + 1;
    }
  }

  /** Only the start of the live part has moved. */
  ghost predicate SameEnd(b: Buf, b0: Buf) {
    b.pos <= b.last == b0.last && |b.data| == |b0.data|
  }

  method AddHeader(b0: Buf, th: seq<byte>) returns (b: Buf)
    requires Roomy(b0) && |th| <= MAX_CHUNK_HEADER
    ensures b.Live() == th + b0.Live() && SameEnd(b, b0)
  {
    HeadedFits(th, b0.Live());
    b := Prepend(b0, th, |th|);
  }

  /**
    * Adds chunk headers to a chain in place; refused when the stream id is out of range. For the ids 0 and 1 the
    * first header is two bytes longer than its room, and the buffer must have those bytes.
    */
  method PrepareMessage(maxStreams: nat, timeFix: bool, h: Header, lh: Option<Header>, chain: seq<Buf>)
    returns (ok: bool, out: seq<Buf>)
    requires chain != [] && forall i :: 0 <= i < |chain| ==> Roomy(chain[i])
    requires h.csid < 2 ==> chain[0].pos + 2 <= |chain[0].data|
    ensures ok == (h.csid < maxStreams) && |out| == |chain|
    ensures !ok ==> out == chain
    ensures ok ==> var mlen := LiveSize(chain) % TWO32;
                   var head, room := FirstHeader(h, lh, mlen), Reserved(h, lh, mlen);
                   room <= |head| && out[0].Live() == Headed(head, room, chain[0].Live())
    ensures ok ==> forall i :: 1 <= i < |out| ==> out[i].Live() == NextHeader(timeFix, h, lh) + chain[i].Live()
    ensures forall i :: 0 <= i < |out| ==>
              out[i].pos <= out[i].last == chain[i].last && |out[i].data| == |chain[i].data|
  {
    out, ok := chain, false;
    if h.csid >= maxStreams { return; }
    ok := true;
    var mlen := MessageLength(chain);
    var head, th, hsize := BuildHeaders(timeFix, h, lh, mlen);
    out := AddHeaders(chain, head, hsize, th);
  }
}
