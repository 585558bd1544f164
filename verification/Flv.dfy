/**
  * FLV files (section E.4.1 of the Adobe FLV Specification 10.1): the recorder of ngx_rtmp_record_module.c and the
  * player of ngx_rtmp_flv_module.c.
  */
module Flv {
  import opened Bytes
  import opened FlvClock

  const AUDIO: byte := 8
  const VIDEO: byte := 9
  const TAG_HEADER: nat := 11
  const DATA_OFFSET: nat := 13
  const BUFFER: nat := 1024 * 1024

  /** The 13 bytes before the first tag. */
  function FileHeader(): (h: seq<byte>)
    ensures |h| == DATA_OFFSET
  {
    [0x46, 0x4c, 0x56, 1, 5, 0, 0, 0, 9, 0, 0, 0, 0]
  }

  /** The body of a tag; its length has 24 bits. */
  type Body = b: seq<byte> | |b| < TWO24

  datatype Frame = Frame(kind: byte, timestamp: uint32, body: Body)

  predicate Playable(kind: byte) {
    kind == AUDIO || kind == VIDEO
  }

  ghost predicate AllPlayable(fs: seq<Frame>) {
    forall i :: 0 <= i < |fs| ==> Playable(fs[i].kind)
  }

  // ----- Tags

  /** The low three bytes of a time, and the high one behind them. */
  function TimeBytes(t: uint32): seq<byte> {
    [t / 65536 % 256, t / 256 % 256, t % 256, t / 16777216]
  }

  function OfTimeBytes(b0: byte, b1: byte, b2: byte, b3: byte): uint32 {
    OfBe24(b0, b1, b2) + (b3 as int) * 16777216
  }

  lemma TimeRoundTrip(t: uint32)
    ensures var b := TimeBytes(t); OfTimeBytes(b[0], b[1], b[2], b[3]) == t
  {
    Be32RoundTrip(t);
  }

  function Head(kind: byte, n: nat, time: uint32): (h: seq<byte>)
    requires n < TWO24
    ensures |h| == TAG_HEADER
  {
    [kind] + Be24(n) + TimeBytes(time) + [0, 0, 0]
  }

  function Tag(f: Frame): seq<byte> {
    Head(f.kind, |f.body|, f.timestamp) + f.body + Be32(TAG_HEADER + |f.body|)
  }

  function Tags(fs: seq<Frame>): seq<byte> {
    if fs == [] then [] else Tag(fs[0]) + Tags(fs[1..])
  }

  // What the bytes of a tag say when they are read again.

  ghost predicate HeadSays(h: seq<byte>, kind: byte, n: nat, time: uint32) {
    && |h| == TAG_HEADER
    && forall k: int {:trigger Unfold(k)} :: Unfold(k) ==>
         h[0] == kind && OfBe24(h[1], h[2], h[3]) == n && OfTimeBytes(h[4], h[5], h[6], h[7]) == time
  }

  ghost predicate SizeSays(t: seq<byte>, n: nat) {
    |t| == 4 && forall k: int {:trigger Unfold(k)} :: Unfold(k) ==> OfBe32(t[0], t[1], t[2], t[3]) == n
  }

  lemma HeadReads(kind: byte, n: nat, time: uint32)
    requires n < TWO24
    ensures HeadSays(Head(kind, n, time), kind, n, time)
  {
    Be24RoundTrip(n);
    TimeRoundTrip(time);
    var h, t := Head(kind, n, time), TimeBytes(time);
    assert h[1] == Be24(n)[0] && h[2] == Be24(n)[1] && h[3] == Be24(n)[2];
    assert h[4] == t[0] && h[5] == t[1] && h[6] == t[2] && h[7] == t[3];
  }

  lemma SizeReads(n: nat)
    requires n < TWO32
    ensures SizeSays(Be32(n), n)
  {
    Be32RoundTrip(n);
  }

  /** The bytes `t` are a head, the body and a size that say what frame `f` is. */
  ghost predicate Spells(t: seq<byte>, f: Frame) {
    exists h, z :: SpelledBy(t, f, h, z)
  }

  ghost predicate SpelledBy(t: seq<byte>, f: Frame, h: seq<byte>, z: seq<byte>) {
    t == h + f.body + z && HeadSays(h, f.kind, |f.body|, f.timestamp) && SizeSays(z, TAG_HEADER + |f.body|)
  }

  lemma TagSpells(f: Frame)
    ensures Spells(Tag(f), f)
  {
    HeadReads(f.kind, |f.body|, f.timestamp);
    SizeReads(TAG_HEADER + |f.body|);
    assert SpelledBy(Tag(f), f, Head(f.kind, |f.body|, f.timestamp), Be32(TAG_HEADER + |f.body|));
  }

  // ----- The bytes, by their positions

  /** A file of audio and video: the letters FLV, version 1, flags 4 and 1, nine bytes of header, and no tag before. */
  lemma FileHeaderIs()
    ensures var h := FileHeader();
            && h[..3] == [70, 76, 86] && h[3] == 1 && h[4] == 4 + 1
            && Weigh(h[5], h[6], h[7], h[8]) == 9 && Weigh(h[9], h[10], h[11], h[12]) == 0
  {
  }

  lemma PlayableIs(kind: byte)
    ensures Playable(kind) <==> kind == 8 || kind == 9
  {
  }

  ghost predicate HeadOnDisk(h: seq<byte>, kind: byte, n: nat, time: uint32) {
    && |h| == 11
    && forall u: int {:trigger Unfold(u)} :: Unfold(u) ==>
         && h[0] == kind && Weigh(0, h[1], h[2], h[3]) == n && Weigh(h[7], h[4], h[5], h[6]) == time
         && h[8] == h[9] == h[10] == 0
  }

  ghost predicate SizeOnDisk(z: seq<byte>, n: nat) {
    |z| == 4 && forall u: int {:trigger Unfold(u)} :: Unfold(u) ==> Weigh(z[0], z[1], z[2], z[3]) == n
  }

  /** Type, length, time with its heaviest byte last, a zero stream id; the body; and the size of both. */
  ghost predicate OnDisk(t: seq<byte>, f: Frame) {
    var n := |f.body|;
    && |t| == 11 + n + 4 && HeadOnDisk(t[..11], f.kind, n, f.timestamp)
    && t[11..11 + n] == f.body && SizeOnDisk(t[11 + n..], 11 + n)
  }

  lemma HeadIs(kind: byte, n: nat, time: uint32)
    requires n < TWO24
    ensures HeadOnDisk(Head(kind, n, time), kind, n, time)
  {
    var h, t := Head(kind, n, time), TimeBytes(time);
    BytesWeigh(n);
    assert h[1] == Be24(n)[0] && h[2] == Be24(n)[1] && h[3] == Be24(n)[2];
    assert h[4] == t[0] && h[5] == t[1] && h[6] == t[2] && h[7] == t[3];
    TimeWeighs(time);
  }

  lemma TimeWeighs(time: uint32)
    ensures var t := TimeBytes(time); Weigh(t[3], t[0], t[1], t[2]) == time
  {
    Be32RoundTrip(time);
  }

  lemma SizeIs(n: nat)
    requires n < TWO32
    ensures SizeOnDisk(Be32(n), n)
  {
    BytesWeigh(n);
  }

  /** Every frame is written as the tag that the format prescribes. */
  lemma TagIs(f: Frame)
    ensures OnDisk(Tag(f), f)
  {
    HeadIs(f.kind, |f.body|, f.timestamp);
    SizeIs(11 + |f.body|);
    Pieces(Head(f.kind, |f.body|, f.timestamp), f.body, Be32(11 + |f.body|));
  }

  lemma Pieces(h: seq<byte>, b: seq<byte>, z: seq<byte>)
    ensures var t := h + b + z; t[..|h|] == h && t[|h|..|h| + |b|] == b && t[|h| + |b|..] == z
  {
  }

  // ----- Playing

  /** What one step of the player finds in the rest of the file. */
  datatype Found = End | Broken | Tagged(kind: byte, timestamp: uint32, size: nat, body: seq<byte>)

  function TagOf(s: seq<byte>): (t: Found)
    ensures t.Tagged? ==> |s| >= TAG_HEADER && t.size < TWO24 && |t.body| == if Playable(t.kind) then t.size else 0
  {
    if |s| < TAG_HEADER then End
    else
      var size := OfBe24(s[1], s[2], s[3]);
      var time := OfTimeBytes(s[4], s[5], s[6], s[7]);
      if !Playable(s[0]) then Tagged(s[0], time, size, [])
      else if |s| < TAG_HEADER + size then Broken
      else Tagged(s[0], time, size, s[TAG_HEADER..TAG_HEADER + size])
  }

  ghost predicate Finds(s: seq<byte>, t: Found) {
    forall k: int {:trigger Unfold(k)} :: Unfold(k) ==> TagOf(s) == t
  }

  function After(s: seq<byte>, n: nat): (r: seq<byte>)
    ensures |r| <= |s| && (n > 0 && s != [] ==> |r| < |s|)
  {
    if n <= |s| then s[n..] else []
  }

  /** The frame in a tag, if it is one that can be played. */
  function FrameIn(t: Found): (fs: seq<Frame>) {
    if t.Tagged? && Playable(t.kind) && |t.body| < TWO24 then [Frame(t.kind, t.timestamp, t.body)] else []
  }

  /** What follows the tag found in `s`. */
  function Rest(s: seq<byte>, t: Found): (r: seq<byte>)
    requires t.Tagged? ==> s != []
    ensures t.Tagged? ==> |r| < |s|
  {
    if t.Tagged? then After(s, TAG_HEADER + t.size + 4) else []
  }

  /** All audio and video frames in the rest of a file. */
  function Frames(s: seq<byte>): seq<Frame>
    decreases |s|
  {
    var t := TagOf(s);
    if t.Tagged? then FrameIn(t) + Frames(Rest(s, t)) else []
  }

  /** Any bytes: what is found is what they say. */
  lemma TagMeans(s: seq<byte>)
    ensures |s| < 11 ==> TagOf(s) == End
    ensures |s| >= 11 ==>
              var n, time := Weigh(0, s[1], s[2], s[3]), Weigh(s[7], s[4], s[5], s[6]);
              TagOf(s) == if s[0] != 8 && s[0] != 9 then Tagged(s[0], time, n, [])
                          else if |s| < 11 + n then Broken else Tagged(s[0], time, n, s[11..11 + n])
  {
    if |s| >= 11 {
      ReadsWeigh(0, s[1], s[2], s[3]);
      ReadsWeigh(0, s[4], s[5], s[6]);
    }
  }

  lemma SpelledReads(t: seq<byte>, f: Frame, tail: seq<byte>)
    requires Spells(t, f) && Playable(f.kind)
    ensures TagOf(t + tail) == Tagged(f.kind, f.timestamp, |f.body|, f.body)
    ensures After(t + tail, TAG_HEADER + |f.body| + 4) == tail
  {
    var h, z :| SpelledBy(t, f, h, z);
    assert Unfold(0);
    var s := t + tail;
    assert forall k :: 0 <= k < TAG_HEADER ==> s[k] == h[k];
    assert s[TAG_HEADER..TAG_HEADER + |f.body|] == f.body;
  }

  lemma FramesStep(t: seq<byte>, f: Frame, tail: seq<byte>)
    requires Spells(t, f) && Playable(f.kind)
    ensures Frames(t + tail) == [f] + Frames(tail)
  {
    SpelledReads(t, f, tail);
  }

  lemma {:induction false} FramesOfTags(fs: seq<Frame>)
    requires AllPlayable(fs)
    ensures Frames(Tags(fs)) == fs
    decreases |fs|
  {
    if fs != [] {
      TagSpells(fs[0]);
      FramesStep(Tag(fs[0]), fs[0], Tags(fs[1..]));
      FramesOfTags(fs[1..]);
      assert fs == [fs[0]] + fs[1..];
    }
  }

  /** The file of a recording. */
  ghost predicate Recorded(file: seq<byte>, fs: seq<Frame>) {
    forall k: int {:trigger Unfold(k)} :: Unfold(k) ==> file == FileHeader() + Tags(fs)
  }

  /** Reading from offset 13 yields exactly the frames written. */
  lemma WrittenIsRead(file: seq<byte>, fs: seq<Frame>)
    requires Recorded(file, fs) && AllPlayable(fs)
    ensures Frames(After(file, DATA_OFFSET)) == fs
  {
    assert Unfold(0);
    Behind(FileHeader(), Tags(fs));
    FramesOfTags(fs);
  }

  lemma Behind(h: seq<byte>, s: seq<byte>)
    ensures After(h + s, |h|) == s
  {
  }

  // ----- Appending to a file

  /** Where an appended recording goes on, and at what time. */
  datatype Resume = Resume(offset: nat, time: uint32)

  /** The append branch of ngx_rtmp_record_node_open: the last tag is found through its size at the end of the file. */
  function ResumeAt(file: seq<byte>): Resume {
    var n := |file|;
    if n < 4 then Resume(n, 0)
    else
      var size := OfBe32(file[n - 4], file[n - 3], file[n - 2], file[n - 1]);
      if size == 0 || Add32(size, 4) > n then Resume(0, 0)
      else if n < size + 4 || size < 4 then Resume(n, 0)
      else
        var o := n - size - 4;
        if size != OfBe24(file[o + 1], file[o + 2], file[o + 3]) + TAG_HEADER then Resume(n, 0)
        else Resume(n, OfTimeBytes(file[o + 4], file[o + 5], file[o + 6], file[o + 7]))
  }

  /** The last four bytes of any file say `size`. */
  ghost predicate EndsWith(file: seq<byte>, size: nat) {
    |file| >= 4 && SizeOnDisk(file[|file| - 4..], size)
  }

  lemma EndSize(file: seq<byte>, size: nat)
    requires EndsWith(file, size)
    ensures var n := |file|; OfBe32(file[n - 4], file[n - 3], file[n - 2], file[n - 1]) == size
  {
    var n := |file|;
    assert Unfold(0);
    ReadsWeigh(file[n - 4], file[n - 3], file[n - 2], file[n - 1]);
  }

  /** A file whose last size is 0, or more than there is in front of it, is started over. */
  lemma ResumeStartsOver(file: seq<byte>, size: nat)
    requires EndsWith(file, size) && (size == 0 || |file| < size + 4 < 0x1_0000_0000)
    ensures ResumeAt(file) == Resume(0, 0)
  {
    EndSize(file, size);
    Add32Cases(size, 4);
  }

  /**
    * Any other file goes on at its end: at the time of the tag that the last size leads to, if there is one and it has
    * just this size, and else at 0. A size within 4 of 2^32 is not seen to be too big.
    */
  lemma ResumeGoesOn(file: seq<byte>, size: nat)
    requires |file| < 4 || (EndsWith(file, size) && size != 0 && (size + 4 <= |file| || size + 4 >= 0x1_0000_0000))
    ensures |file| < 4 || size < 4 || |file| < size + 4 ==> ResumeAt(file) == Resume(|file|, 0)
    ensures 4 <= size && size + 4 <= |file| ==>
              var o := |file| - size - 4;
              ResumeAt(file) == Resume(|file|, if size == Weigh(0, file[o + 1], file[o + 2], file[o + 3]) + 11
                                               then Weigh(file[o + 7], file[o + 4], file[o + 5], file[o + 6]) else 0)
  {
    if |file| >= 4 {
      EndSize(file, size);
      Add32Cases(size, 4);
      if 4 <= size && size + 4 <= |file| {
        var o := |file| - size - 4;
        ReadsWeigh(0, file[o + 1], file[o + 2], file[o + 3]);
        ReadsWeigh(0, file[o + 4], file[o + 5], file[o + 6]);
        var head := OfBe24(file[o + 1], file[o + 2], file[o + 3]);
        assert ResumeAt(file) == if size != head + TAG_HEADER then Resume(|file|, 0)
                                 else Resume(|file|, OfTimeBytes(file[o + 4], file[o + 5], file[o + 6], file[o + 7]));
      }
    }
  }

  lemma Places(a: seq<byte>, h: seq<byte>, b: seq<byte>, z: seq<byte>)
    requires |z| == 4
    ensures var s, n := a + (h + b + z), |a| + |h| + |b| + 4;
            && |s| == n && s[n - 4] == z[0] && s[n - 3] == z[1] && s[n - 2] == z[2] && s[n - 1] == z[3]
            && forall k :: 0 <= k < |h| ==> s[|a| + k] == h[k]
  {
  }

  lemma SpelledResumes(before: seq<byte>, t: seq<byte>, f: Frame)
    requires Spells(t, f)
    ensures ResumeAt(before + t) == Resume(|before + t|, f.timestamp)
  {
    var h, z :| SpelledBy(t, f, h, z);
    Places(before, h, f.body, z);
    Add32Cases(TAG_HEADER + |f.body|, 4);
    assert Unfold(0);
  }

  lemma {:induction false} TagsAppend(a: seq<Frame>, f: Frame)
    ensures Tags(a + [f]) == Tags(a) + Tag(f)
  {
    if a == [] {
      assert a + [f] == [f];
      assert Tags([f]) == Tag(f) + Tags([]);
    } else {
      assert (a + [f])[1..] == a[1..] + [f];
      TagsAppend(a[1..], f);
    }
  }

  /** Behind a recording, an appended one goes on at the end of the file and at the last frame's time. */
  lemma RecordingResumes(file: seq<byte>, fs: seq<Frame>)
    requires Recorded(file, fs)
    ensures ResumeAt(file) == if fs == [] then Resume(0, 0) else Resume(|file|, fs[|fs| - 1].timestamp)
  {
    assert Unfold(0);
    if fs == [] {
      assert file == FileHeader();
    } else {
      var n := |fs| - 1;
      assert fs == fs[..n] + [fs[n]];
      TagsAppend(fs[..n], fs[n]);
      TagSpells(fs[n]);
      Assoc(FileHeader(), Tags(fs[..n]), Tag(fs[n]));
      SpelledResumes(FileHeader() + Tags(fs[..n]), Tag(fs[n]), fs[n]);
    }
  }

  // ----- Recording

  function WriteAt(file: seq<byte>, offset: nat, bytes: seq<byte>): seq<byte>
    requires offset <= |file|
  {
    file[..offset] + bytes + After(file, offset + |bytes|)
  }

  const HALF: int := 0x8000_0000

  /** The time of a frame in the file: never before its start. */
  function FileTime(time: uint32, epoch: uint32): (t: uint32)
    ensures t < HALF
  {
    var t := Sub32(time, epoch);
    if t >= HALF then 0 else t
  }

  /** The time of a frame in a file that goes on at `shift`, when the first frame appended to it came at `first`. */
  function AppendTime(shift: uint32, first: uint32, time: uint32): (t: uint32)
    ensures t < HALF
  {
    FileTime(time, Sub32(first, shift))
  }

  /** Appended times go on from the last one, by what has passed since the first appended frame, up to 2^31. */
  lemma AppendTimeIs(shift: uint32, first: uint32, time: uint32)
    requires shift < HALF
    ensures var t := (shift + time - first) % TWO32; AppendTime(shift, first, time) == if t < HALF then t else 0
    ensures 0 <= shift + time - first < HALF ==> AppendTime(shift, first, time) == shift + time - first
    ensures 0 <= shift + time - first + TWO32 < HALF ==> AppendTime(shift, first, time) == shift + time - first + TWO32
    ensures HALF <= shift + time - first < TWO32 ==> AppendTime(shift, first, time) == 0
    ensures -HALF <= shift + time - first < 0 ==> AppendTime(shift, first, time) == 0
  {
    Sub32Cases(first, shift);
    Sub32Cases(time, Sub32(first, shift));
  }

  ghost predicate Timed(fs: seq<Frame>) {
    forall i :: 0 <= i < |fs| ==> fs[i].timestamp < HALF
  }

  ghost function LastTime(fs: seq<Frame>): uint32 {
    if fs == [] then 0 else fs[|fs| - 1].timestamp
  }

  /** A frame as it comes to the recorder. */
  datatype Input = Input(kind: byte, time: uint32, chain: seq<seq<byte>>) {
    ghost function Bytes(): seq<byte> {
      Concat(chain)
    }

    ghost predicate Valid() {
      Playable(kind) && |Bytes()| < TWO24
    }
  }

  /** The frame an input becomes in a file that goes on at `shift`, when the first frame came at `first`. */
  ghost function AppendedFrame(shift: uint32, first: uint32, x: Input): Frame
    requires x.Valid()
  {
    Frame(x.kind, AppendTime(shift, first, x.time), x.Bytes())
  }

  /** The frames that a run of inputs adds to a file that goes on at `shift`; the first frame came at `first`. */
  ghost function Appended(shift: uint32, first: uint32, ins: seq<Input>): (fs: seq<Frame>)
    requires forall i :: 0 <= i < |ins| ==> ins[i].Valid()
    ensures |fs| == |ins|
    ensures forall i :: 0 <= i < |ins| ==> fs[i] == AppendedFrame(shift, first, ins[i])
  {
    if ins == [] then []
    else
      var n := |ins| - 1;
      Appended(shift, first, ins[..n]) + [AppendedFrame(shift, first, ins[n])]
  }

  /**
    * While they stay below 2^31, appended times are the last old time plus what has passed since the first new frame.
    */
  lemma AppendedTimes(shift: uint32, ins: seq<Input>)
    requires shift < HALF && ins != [] && forall i :: 0 <= i < |ins| ==> ins[i].Valid()
    requires forall i :: 0 <= i < |ins| ==> ins[0].time <= ins[i].time && shift + ins[i].time - ins[0].time < HALF
    ensures forall i :: 0 <= i < |ins| ==>
              Appended(shift, ins[0].time, ins)[i].timestamp == shift + (ins[i].time - ins[0].time)
  {
    forall i | 0 <= i < |ins|
      ensures Appended(shift, ins[0].time, ins)[i].timestamp == shift + (ins[i].time - ins[0].time)
    {
      AppendTimeIs(shift, ins[0].time, ins[i].time);
    }
  }

  class Recorder {
    var file: seq<byte>
    var offset: nat
    var epoch: uint32
    var timeShift: uint32
    var initialized: bool
    ghost var written: seq<Frame>
    ghost var first: uint32

    /**
      * The file holds what was written, or nothing was and it is still empty; the epoch is that of the first frame
      * since the file was opened.
      */
    ghost predicate Valid()
      reads this
    {
      && AllPlayable(written) && Timed(written) && timeShift < HALF
      && (initialized ==> epoch == Sub32(first, timeShift))
      && if offset == 0 then written == [] && (file == [] || Recorded(file, []))
         else offset == |file| && Recorded(file, written)
    }

    constructor ()
      ensures Valid() && written == [] && !initialized && timeShift == 0
    {
      file, offset, epoch, timeShift, initialized, written, first := [], 0, 0, 0, false, [], 0;
    }

    /** Opening the file again to append to it: times go on from the last one. */
    method Reopen()
      requires Valid()
      modifies this
      ensures Valid() && written == old(written) && file == old(file) && !initialized
      ensures timeShift == LastTime(written)
    {
      if file != [] {
        RecordingResumes(file, written);
      }
      var resume := ResumeAt(file);
      offset, timeShift, initialized, epoch := resume.offset, resume.time, false, 0;
    }

    /**
      * The end of ngx_rtmp_record_node_av: the first frame fixes the epoch and, in an empty file, comes after the
      * header.
      */
    method Record(kind: byte, time: uint32, chain: seq<seq<byte>>)
      requires Valid() && Playable(kind) && |Concat(chain)| < TWO24
      modifies this
      ensures Valid() && initialized && timeShift == old(timeShift)
      ensures first == if old(initialized) then old(first) else time
      ensures written == old(written) + [Frame(kind, AppendTime(timeShift, first, time), Concat(chain))]
      ensures !old(initialized) ==> written[|written| - 1].timestamp == timeShift
    {
      if !initialized {
        first := time;
        initialized, epoch := true, Sub32(time, timeShift);
        AppendTimeIs(timeShift, first, time);
      }
      if offset == 0 {
        HeaderWritten(file);
        file, offset := WriteAt(file, 0, FileHeader()), DATA_OFFSET;
      }
      WriteFrame(kind, time, chain);
    }

    /**
      * Appending a whole recording: the old frames stay, and the time of each new one is the last old time plus what
      * has passed since the first new one.
      */
    method Append(ins: seq<Input>)
      requires Valid() && forall i :: 0 <= i < |ins| ==> ins[i].Valid()
      modifies this
      ensures Valid() && (ins != [] ==> initialized && offset != 0)
      ensures ins == [] ==> written == old(written)
      ensures ins != [] ==> written == old(written) + Appended(old(LastTime(written)), ins[0].time, ins)
      ensures ins != [] ==> written[|old(written)|].timestamp == old(LastTime(written))
      ensures ins != [] && old(written) != [] ==>
                file == old(file) + Tags(Appended(old(LastTime(written)), ins[0].time, ins))
    {
      Reopen();
      ghost var before, shift, file0 := written, timeShift, file;
      var i := 0;
      assert ins[..0] == [] && before + [] == before;
      while i < |ins|
        invariant Valid() && i <= |ins| && timeShift == shift
        invariant initialized == (i > 0) && (i > 0 ==> first == ins[0].time && offset != 0)
        invariant i == 0 ==> written == before
        invariant i > 0 ==> written == before + Appended(shift, ins[0].time, ins[..i])
      {
        AppendedMore(before, shift, ins, i);
        Record(ins[i].kind, ins[i].time, ins[i].chain);
        i := i + 1;
      }
      assert ins[..i] == ins;
      if ins != [] {
        AppendTimeIs(shift, ins[0].time, ins[0].time);
        if before != [] {
          FileGrows(file0, before, file, Appended(shift, ins[0].time, ins));
        }
      }
    }

    /** ngx_rtmp_record_write_frame: the tag header, the buffers of the chain one by one, and the tag size. */
    method WriteFrame(kind: byte, time: uint32, chain: seq<seq<byte>>)
      requires offset == |file| && offset != 0 && Recorded(file, written)
      requires AllPlayable(written) && Timed(written) && Playable(kind) && |Concat(chain)| < TWO24
      modifies this`file, this`offset, this`written
      ensures offset == |file| && offset != 0 && Recorded(file, written) && AllPlayable(written) && Timed(written)
      ensures written == old(written) + [Frame(kind, FileTime(time, epoch), Concat(chain))]
    {
      ghost var before := file;
      ghost var f := Frame(kind, FileTime(time, epoch), Concat(chain));
      var mlen := Length(chain);
      var head, size := Head(kind, mlen, FileTime(time, epoch)), Be32(TAG_HEADER + mlen);
      FrameWritten(before, written, f, head, size);
      Put(head);
      PutChain(chain);
      Put(size);
      written := written + [f];
    }

    method PutChain(chain: seq<seq<byte>>)
      requires offset == |file|
      modifies this`file, this`offset
      ensures offset == |file| && file == old(file) + Concat(chain)
    {
      ghost var start, done: seq<byte> := file, [];
      assert start + [] == start && chain[0..] == chain;
      var i: nat := 0;
      while i < |chain|
        invariant i <= |chain| && offset == |file| && file == start + done
        invariant Concat(chain) == done + Concat(chain[i..])
      {
        assert chain[i..][0] == chain[i] && chain[i..][1..] == chain[i + 1..];
        Assoc(done, chain[i], Concat(chain[i + 1..]));
        Assoc(start, done, chain[i]);
        if chain[i] != [] {
          Put(chain[i]);
        } else {
          assert file + chain[i] == file;
        }
        done := done + chain[i];
        i := i + 1;
      }
      assert chain[i..] == [] && done + [] == done;
    }

    method Put(bytes: seq<byte>)
      requires offset == |file|
      modifies this`file, this`offset
      ensures offset == |file| && file == old(file) + bytes
    {
      WritesAtEnd(file, bytes);
      file := WriteAt(file, offset, bytes);
      offset := offset + |bytes|;
    }
  }

  lemma AppendedMore(before: seq<Frame>, shift: uint32, ins: seq<Input>, i: nat)
    requires i < |ins| && forall j :: 0 <= j < |ins| ==> ins[j].Valid()
    ensures before + Appended(shift, ins[0].time, ins[..i + 1])
            == (if i == 0 then before else before + Appended(shift, ins[0].time, ins[..i]))
               + [AppendedFrame(shift, ins[0].time, ins[i])]
  {
    assert ins[..i + 1][..i] == ins[..i] && ins[..0] == [] && before + [] == before;
  }

  /** The file of an appended recording is the old file followed by the new tags. */
  lemma FileGrows(file: seq<byte>, fs: seq<Frame>, file': seq<byte>, more: seq<Frame>)
    requires Recorded(file, fs) && Recorded(file', fs + more)
    ensures file' == file + Tags(more)
  {
    assert Unfold(0);
    TagsConcat(fs, more);
    Assoc(FileHeader(), Tags(fs), Tags(more));
  }

  lemma {:induction false} TagsConcat(a: seq<Frame>, b: seq<Frame>)
    ensures Tags(a + b) == Tags(a) + Tags(b)
  {
    if a == [] {
      assert a + b == b;
    } else {
      assert (a + b)[1..] == a[1..] + b;
      TagsConcat(a[1..], b);
    }
  }

  lemma WritesAtEnd(file: seq<byte>, bytes: seq<byte>)
    ensures WriteAt(file, |file|, bytes) == file + bytes
  {
  }

  lemma HeaderWritten(file: seq<byte>)
    requires file == [] || Recorded(file, [])
    ensures Recorded(WriteAt(file, 0, FileHeader()), []) && |WriteAt(file, 0, FileHeader())| == DATA_OFFSET
  {
    assert Unfold(0);
    assert Tags([]) == [] && FileHeader() + [] == FileHeader();
    assert WriteAt(file, 0, FileHeader()) == FileHeader();
  }

  lemma FrameWritten(file: seq<byte>, fs: seq<Frame>, f: Frame, head: seq<byte>, size: seq<byte>)
    requires Recorded(file, fs) && head == Head(f.kind, |f.body|, f.timestamp) && size == Be32(TAG_HEADER + |f.body|)
    ensures Recorded(file + head + f.body + size, fs + [f])
  {
    assert Unfold(0);
    TagsAppend(fs, f);
    FourPieces(file, head, f.body, size);
    Assoc(FileHeader(), Tags(fs), Tag(f));
  }

  lemma FourPieces(a: seq<byte>, b: seq<byte>, c: seq<byte>, d: seq<byte>)
    ensures a + b + c + d == a + (b + c + d)
  {
  }

  /** ngx_rtmp_record_get_chain_mlen. */
  method Length(chain: seq<seq<byte>>) returns (n: nat)
    ensures n == |Concat(chain)|
  {
    n := 0;
    var i: nat := 0;
    assert chain[0..] == chain;
    while i < |chain|
      invariant i <= |chain| && n + |Concat(chain[i..])| == |Concat(chain)|
    {
      assert chain[i..][0] == chain[i] && chain[i..][1..] == chain[i + 1..];
      n := n + |chain[i]|;
      i := i + 1;
    }
  }

  // ----- The player

  /** What the output queue answers to a frame. */
  datatype Answer = Taken | Again | Error

  /**
    * One step: the end of the file, a failure, a tag passed over, or a frame offered with the time it is relative to.
    */
  datatype Step = Finished | Failed | Passed | Offered(frame: Frame, last: Option<uint32>, answer: Answer)

  /** A frame that the queue has taken, and the time it is relative to. */
  datatype Sent = Sent(frame: Frame, last: Option<uint32>)

  class Player {
    const file: seq<byte>
    var offset: nat
    var audio: Kind
    var video: Kind

    constructor (file: seq<byte>)
      ensures this.file == file && offset == DATA_OFFSET && audio == video == Kind(0, false)
    {
      this.file := file;
      offset, audio, video := DATA_OFFSET, Kind(0, false), Kind(0, false);
    }

    ghost function KindOf(kind: byte): Kind
      reads this
    {
      if kind == AUDIO then audio else video
    }

    /**
      * ngx_rtmp_flv_send: reads the tag at the offset, moves behind it and offers its frame to the output queue,
      * unless it does not fit the buffer. The frame is relative to the last one of its kind, once one of them has
      * been taken.
      */
    method Next(answer: Answer) returns (r: Step, ghost t: Found)
      modifies this
      ensures Finds(old(After(file, offset)), t)
      ensures match t
              case End => r == Finished && offset == old(offset) && audio == old(audio) && video == old(video)
              case Broken => (r == Failed || r == Passed) && After(file, offset) == []
              case Tagged(kind, time, size, body) =>
                && |body| < TWO24 && After(file, offset) == After(old(After(file, offset)), TAG_HEADER + size + 4)
                && r == (if Playable(kind) && size <= BUFFER then
                           Offered(Frame(kind, time, body), Before(old(KindOf(kind))), answer)
                         else Passed)
                && (kind != AUDIO ==> audio == old(audio)) && (kind != VIDEO ==> video == old(video))
                && (Playable(kind) ==>
                          KindOf(kind) == Kind(time, old(KindOf(kind)).taken || (size <= BUFFER && answer.Taken?)))
    {
      if |file| < offset + TAG_HEADER {
        return Finished, End;
      }
      var kind, size, time;
      kind, size, time, t := ReadTag();
      r := Offer(kind, size, time, offset - size - 4, answer);
    }

    /** Reads the tag header at the offset and moves behind the tag. */
    method ReadTag() returns (kind: byte, size: nat, time: uint32, ghost t: Found)
      requires offset + TAG_HEADER <= |file|
      modifies this`offset
      ensures size < TWO24 && offset == old(offset) + TAG_HEADER + size + 4
      ensures Finds(old(After(file, offset)), t)
      ensures After(file, offset) == After(old(After(file, offset)), TAG_HEADER + size + 4)
      ensures t ==
              if !Playable(kind) then Tagged(kind, time, size, [])
              else if |file| < offset - 4 then Broken
              else Tagged(kind, time, size, file[offset - size - 4..offset - 4])
    {
      kind, size, time, t := ReadHead(file, offset);
      AfterTwice(file, offset, TAG_HEADER + size + 4);
      offset := offset + TAG_HEADER + size + 4;
    }

    /** The frame of `size` bytes at `start`, if it is one that can be played. */
    method Offer(kind: byte, size: nat, time: uint32, start: nat, answer: Answer) returns (r: Step)
      requires size < TWO24
      modifies this`audio, this`video
      ensures r == if !Playable(kind) || size > BUFFER then Passed
                   else if |file| < start + size then Failed
                   else Offered(Frame(kind, time, file[start..start + size]), Before(old(KindOf(kind))), answer)
      ensures (kind != AUDIO ==> audio == old(audio)) && (kind != VIDEO ==> video == old(video))
      ensures Playable(kind) ==>
                KindOf(kind) == Kind(time, old(KindOf(kind)).taken || (r.Offered? && answer.Taken?))
    {
      var last;
      if kind == AUDIO {
        last, audio := Before(audio), audio.(last := time);
      } else if kind == VIDEO {
        last, video := Before(video), video.(last := time);
      } else {
        return Passed;
      }
      if size > BUFFER {
        return Passed;
      }
      if |file| < start + size {
        return Failed;
      }
      r := Offered(Frame(kind, time, file[start..start + size]), last, answer);
      if answer.Taken? {
        MarkTaken(kind);
      }
    }

    method MarkTaken(kind: byte)
      modifies this`audio, this`video
      ensures if kind == AUDIO then audio == old(audio).(taken := true) && video == old(video)
              else video == old(video).(taken := true) && audio == old(audio)
    {
      if kind == AUDIO {
        audio := audio.(taken := true);
      } else {
        video := video.(taken := true);
      }
    }

    /**
      * Playing on to the end, or to the first damaged tag. Every frame that fits is offered once, and the clock of a
      * receiver moves as it does over all frames of its kind that are read.
      */
    method PlayAll(takes: nat -> bool) returns (offered: seq<Frame>, sent: seq<Sent>)
      modifies this
      ensures offered == Small(Frames(old(After(file, offset)))) && FramesIn(sent) == Chosen(offered, takes)
      ensures forall kind: byte, clock: uint32 :: Playable(kind) ==>
                ClockOf(clock, sent, kind)
                == ClockAfter(clock, old(KindOf(kind)), Seen(Frames(old(After(file, offset))), takes, kind))
    {
      offered, sent := [], [];
      ghost var read: seq<Frame> := [];
      ghost var all := Frames(After(file, offset));
      PlaysFromStart(all, After(file, offset));
      var on := true;
      while on
        invariant Sends(old(audio), old(video), read, takes, offered, sent)
        invariant if on then Plays(all, read, After(file, offset)) else read == all
        invariant on && After(file, offset) != [] ==>
                    Reads(old(audio), read, takes, AUDIO, audio) && Reads(old(video), read, takes, VIDEO, video)
        decreases on, |After(file, offset)|
      {
        ghost var s, a, v := After(file, offset), audio, video;
        var taking := takes(|offered|);
        var r, t := Next(if taking then Taken else Again);
        PlaysOn(all, read, s, t);
        if t.Tagged? && Playable(t.kind) {
          ghost var f := Frame(t.kind, t.timestamp, t.body);
          FrameRead(old(audio), old(video), a, v, read, takes, offered, sent, f);
          read := read + [f];
        }
        match r {
          case Finished => on := false;
          case Failed => on := false;
          case Passed =>
          case Offered(frame, last, answer) =>
            offered, sent := offered + [frame], if answer.Taken? then sent + [Sent(frame, last)] else sent;
        }
      }
      SendsSay(old(audio), old(video), read, takes, offered, sent);
    }
  }

  // ----- What a run of the player sends

  /** The frames the queue has taken of those it was offered. */
  function Chosen(fs: seq<Frame>, takes: nat -> bool): seq<Frame> {
    if fs == [] then []
    else Chosen(fs[..|fs| - 1], takes) + if takes(|fs| - 1) then [fs[|fs| - 1]] else []
  }

  /** The frames that fit the player's buffer. */
  function Small(fs: seq<Frame>): seq<Frame> {
    if fs == [] then []
    else Small(fs[..|fs| - 1]) + if |fs[|fs| - 1].body| <= BUFFER then [fs[|fs| - 1]] else []
  }

  /** The frames of one kind among those read, and which of them the queue has taken. */
  function Seen(fs: seq<Frame>, takes: nat -> bool, kind: byte): seq<Sight> {
    if fs == [] then []
    else
      var n := |fs| - 1;
      Seen(fs[..n], takes, kind) + if fs[n].kind == kind then [SightOf(fs[n], takes(|Small(fs[..n])|))] else []
  }

  function SightOf(f: Frame, taking: bool): Sight {
    Sight(f.timestamp, |f.body| <= BUFFER && taking)
  }

  function FramesIn(sent: seq<Sent>): seq<Frame> {
    seq(|sent|, i requires 0 <= i < |sent| => sent[i].frame)
  }

  /** The clock of a receiver for one kind of frames after all that was sent. */
  function ClockOf(clock: uint32, sent: seq<Sent>, kind: byte): uint32 {
    if sent == [] then clock
    else
      var n := |sent| - 1;
      var c := ClockOf(clock, sent[..n], kind);
      if sent[n].frame.kind == kind then Heard(c, sent[n].last, sent[n].frame.timestamp) else c
  }

  /** A frame of up to 2^20 bytes is offered. */
  lemma SmallIs(f: Frame)
    ensures Small([f]) == if |f.body| <= 1048576 then [f] else []
  {
    assert [f][..0] == [];
  }

  lemma SnocSays(fs: seq<Frame>, takes: nat -> bool, kind: byte, f: Frame)
    ensures Small(fs + [f]) == Small(fs) + if |f.body| <= BUFFER then [f] else []
    ensures Seen(fs + [f], takes, kind)
            == Seen(fs, takes, kind) + if f.kind == kind then [SightOf(f, takes(|Small(fs)|))] else []
    ensures Chosen(fs + [f], takes) == Chosen(fs, takes) + if takes(|fs|) then [f] else []
  {
    assert (fs + [f])[..|fs|] == fs;
  }

  lemma ClockOfSnoc(clock: uint32, sent: seq<Sent>, kind: byte, x: Sent)
    ensures ClockOf(clock, sent + [x], kind)
            == if x.frame.kind == kind then Heard(ClockOf(clock, sent, kind), x.last, x.frame.timestamp)
               else ClockOf(clock, sent, kind)
  {
    assert (sent + [x])[..|sent|] == sent;
  }

  lemma AfterSnoc(clock: uint32, k: Kind, ss: seq<Sight>, x: Sight)
    ensures KindAfter(k, ss + [x]) == Read(KindAfter(k, ss), x)
    ensures ClockAfter(clock, k, ss + [x]) == Hears(ClockAfter(clock, k, ss), KindAfter(k, ss), x)
  {
    assert (ss + [x])[..|ss|] == ss;
  }

  /** After the frames `read`, the player goes on with `s`. */
  ghost predicate Plays(all: seq<Frame>, read: seq<Frame>, s: seq<byte>) {
    forall u: int {:trigger Unfold(u)} :: Unfold(u) ==> all == read + Frames(s)
  }

  ghost predicate Offers(read: seq<Frame>, takes: nat -> bool, offered: seq<Frame>, sent: seq<Sent>) {
    forall u: int {:trigger Unfold(u)} :: Unfold(u) ==>
      offered == Small(read) && FramesIn(sent) == Chosen(offered, takes)
  }

  /** What the player knows of one kind, which was `k` at the start. */
  ghost predicate Reads(k: Kind, read: seq<Frame>, takes: nat -> bool, kind: byte, now: Kind) {
    forall u: int {:trigger Unfold(u)} :: Unfold(u) ==> now == KindAfter(k, Seen(read, takes, kind))
  }

  /** What any receiver hears of one kind. */
  ghost predicate Sounds(k: Kind, read: seq<Frame>, takes: nat -> bool, sent: seq<Sent>, kind: byte) {
    forall u: int {:trigger Unfold(u)} :: Unfold(u) ==>
      forall clock: uint32 :: ClockOf(clock, sent, kind) == ClockAfter(clock, k, Seen(read, takes, kind))
  }

  ghost predicate Sends(audio: Kind, video: Kind, read: seq<Frame>, takes: nat -> bool, offered: seq<Frame>,
                        sent: seq<Sent>)
  {
    && Offers(read, takes, offered, sent)
    && Sounds(audio, read, takes, sent, AUDIO) && Sounds(video, read, takes, sent, VIDEO)
  }

  lemma SendsSay(audio: Kind, video: Kind, read: seq<Frame>, takes: nat -> bool, offered: seq<Frame>, sent: seq<Sent>)
    requires Sends(audio, video, read, takes, offered, sent)
    ensures offered == Small(read) && FramesIn(sent) == Chosen(offered, takes)
    ensures forall kind: byte, clock: uint32 :: Playable(kind) ==>
              ClockOf(clock, sent, kind)
              == ClockAfter(clock, if kind == AUDIO then audio else video, Seen(read, takes, kind))
  {
    assert Unfold(0);
  }

  /** One more frame is read, when the two kinds were `a` and `v`. */
  lemma FrameRead(audio: Kind, video: Kind, a: Kind, v: Kind, read: seq<Frame>, takes: nat -> bool,
                  offered: seq<Frame>, sent: seq<Sent>, f: Frame)
    requires Reads(audio, read, takes, AUDIO, a) && Reads(video, read, takes, VIDEO, v)
    requires Sends(audio, video, read, takes, offered, sent) && Playable(f.kind)
    ensures var x, last := SightOf(f, takes(|offered|)), Before(if f.kind == AUDIO then a else v);
            && Reads(audio, read + [f], takes, AUDIO, if f.kind == AUDIO then Read(a, x) else a)
            && Reads(video, read + [f], takes, VIDEO, if f.kind == VIDEO then Read(v, x) else v)
            && Sends(audio, video, read + [f], takes, if |f.body| <= BUFFER then offered + [f] else offered,
                     if x.taken then sent + [Sent(f, last)] else sent)
  {
    ReadsMore(audio, a, read, takes, sent, offered, AUDIO, f);
    ReadsMore(video, v, read, takes, sent, offered, VIDEO, f);
    OffersMore(read, takes, offered, sent, f, Before(if f.kind == AUDIO then a else v));
  }

  lemma OffersMore(read: seq<Frame>, takes: nat -> bool, offered: seq<Frame>, sent: seq<Sent>, f: Frame,
                   last: Option<uint32>)
    requires Offers(read, takes, offered, sent)
    ensures if |f.body| > BUFFER then Offers(read + [f], takes, offered, sent)
            else Offers(read + [f], takes, offered + [f], if takes(|offered|) then sent + [Sent(f, last)] else sent)
  {
    assert Unfold(0);
    SnocSays(read, takes, f.kind, f);
    SnocSays(offered, takes, f.kind, f);
    assert FramesIn(sent + [Sent(f, last)]) == FramesIn(sent) + [f];
  }

  /** One more frame is read; if it is of this kind and taken, the receiver hears it relative to the one before. */
  lemma ReadsMore(k: Kind, now: Kind, read: seq<Frame>, takes: nat -> bool, sent: seq<Sent>, offered: seq<Frame>,
                  kind: byte, f: Frame)
    requires Reads(k, read, takes, kind, now) && Sounds(k, read, takes, sent, kind)
    requires Offers(read, takes, offered, sent)
    ensures Reads(k, read + [f], takes, kind,
                  if f.kind == kind then Read(now, SightOf(f, takes(|offered|))) else now)
    ensures |f.body| > BUFFER || !takes(|offered|) ==> Sounds(k, read + [f], takes, sent, kind)
    ensures forall last :: |f.body| <= BUFFER && takes(|offered|) && (f.kind == kind ==> last == Before(now)) ==>
              Sounds(k, read + [f], takes, sent + [Sent(f, last)], kind)
  {
    assert Unfold(0);
    SnocSays(read, takes, kind, f);
    assert offered == Small(read);
    var ss, x := Seen(read, takes, kind), SightOf(f, takes(|offered|));
    assert ss + [] == ss;
    forall clock: uint32 ensures ClockOf(clock, sent, kind) == ClockAfter(clock, k, ss)
      ensures KindAfter(k, ss + [x]) == Read(now, x)
      ensures ClockAfter(clock, k, ss + [x]) == Hears(ClockOf(clock, sent, kind), now, x)
    {
      AfterSnoc(clock, k, ss, x);
    }
    AfterSnoc(0, k, ss, x);
    forall clock: uint32, last: Option<uint32>
      ensures ClockOf(clock, sent + [Sent(f, last)], kind)
              == if f.kind == kind then Heard(ClockOf(clock, sent, kind), last, f.timestamp)
                 else ClockOf(clock, sent, kind)
    {
      ClockOfSnoc(clock, sent, kind, Sent(f, last));
    }
  }

  /** The fields of the tag header at an offset, and the tag they make. */
  method ReadHead(file: seq<byte>, offset: nat) returns (kind: byte, size: nat, time: uint32, ghost t: Found)
    requires offset + TAG_HEADER <= |file|
    ensures size < TWO24 && Finds(After(file, offset), t)
    ensures t ==
            if !Playable(kind) then Tagged(kind, time, size, [])
            else if |file| < offset + TAG_HEADER + size then Broken
            else Tagged(kind, time, size, file[offset + TAG_HEADER..offset + TAG_HEADER + size])
  {
    kind := file[offset];
    size := OfBe24(file[offset + 1], file[offset + 2], file[offset + 3]);
    time := OfTimeBytes(file[offset + 4], file[offset + 5], file[offset + 6], file[offset + 7]);
    BodyAt(file, offset, size);
    t := TagOf(After(file, offset));
  }

  lemma BodyAt(file: seq<byte>, offset: nat, size: nat)
    ensures offset + TAG_HEADER + size <= |file| ==>
              file[offset..][TAG_HEADER..TAG_HEADER + size] == file[offset + TAG_HEADER..offset + TAG_HEADER + size]
  {
  }

  lemma AfterTwice(file: seq<byte>, offset: nat, n: nat)
    ensures After(After(file, offset), n) == After(file, offset + n)
  {
    if offset + n <= |file| {
      assert file[offset..][n..] == file[offset + n..];
    }
  }

  lemma FoundSays(s: seq<byte>, t: Found)
    requires Finds(s, t)
    ensures TagOf(s) == t && (!t.End? ==> |s| >= TAG_HEADER)
    ensures t.Tagged? ==> |t.body| < TWO24 && |t.body| == if Playable(t.kind) then t.size else 0
  {
    assert Unfold(0);
  }

  lemma FramesFind(s: seq<byte>, t: Found, rest: seq<byte>, more: seq<Frame>)
    requires t.Tagged? && s != [] && TagOf(s) == t && rest == Rest(s, t) && more == Frames(rest)
    ensures Frames(s) == FrameIn(t) + more
  {
  }

  lemma PlaysFromStart(all: seq<Frame>, s: seq<byte>)
    requires all == Frames(s)
    ensures Plays(all, [], s)
  {
    assert [] + all == all;
  }

  lemma PlaysOn(all: seq<Frame>, read: seq<Frame>, s: seq<byte>, t: Found)
    requires Plays(all, read, s) && Finds(s, t)
    ensures (t.Tagged? ==> |t.body| < TWO24) && (!t.End? ==> |s| >= TAG_HEADER)
    ensures t.Tagged? && Playable(t.kind) ==> |t.body| == t.size
    ensures match t
            case End => read == all
            case Broken => read == all && Plays(all, read, [])
            case Tagged(kind, time, size, body) =>
              Plays(all, if Playable(kind) then read + [Frame(kind, time, body)] else read,
                    After(s, TAG_HEADER + size + 4))
  {
    assert Unfold(0);
    FoundSays(s, t);
    assert read + [] == read;
    if t.Tagged? {
      var rest := Rest(s, t);
      var more := Frames(rest);
      FramesFind(s, t, rest, more);
      Assoc(read, FrameIn(t), more);
      assert read + [] == read;
    }
  }

  // ----- A frame that is lost

  ghost function Audio(time: uint32, chain: seq<seq<byte>>): Frame
    requires |Concat(chain)| < TWO24
  {
    Frame(AUDIO, time, Concat(chain))
  }

  /** All frames but a refused second one, or all that fit. */
  function AllBut(refused: bool): nat -> bool {
    i => !(refused && i == 1)
  }

  ghost predicate Becomes(fs: seq<Frame>, takes: nat -> bool, offered: seq<Frame>, ss: seq<Sight>, taken: seq<Frame>) {
    forall u: int {:trigger Unfold(u)} :: Unfold(u) ==>
      Small(fs) == offered && Seen(fs, takes, AUDIO) == ss && Chosen(offered, takes) == taken
  }

  lemma BecomesNothing(takes: nat -> bool)
    ensures Becomes([], takes, [], [], [])
  {
  }

  lemma BecomesMore(fs: seq<Frame>, takes: nat -> bool, offered: seq<Frame>, ss: seq<Sight>, taken: seq<Frame>,
                    f: Frame, fs': seq<Frame>, offered': seq<Frame>, ss': seq<Sight>, taken': seq<Frame>)
    requires Becomes(fs, takes, offered, ss, taken) && f.kind == AUDIO
    requires fs' == fs + [f] && ss' == ss + [SightOf(f, takes(|offered|))]
    requires offered' == if |f.body| <= BUFFER then offered + [f] else offered
    requires taken' == if |f.body| <= BUFFER && takes(|offered|) then taken + [f] else taken
    ensures Becomes(fs', takes, offered', ss', taken')
  {
    assert Unfold(0);
    SnocSays(fs, takes, AUDIO, f);
    SnocSays(offered, takes, AUDIO, f);
  }

  /** Two frames of which the second is refused, or too big to be offered. */
  lemma TwoBecome(f0: Frame, f1: Frame, s0: Sight, s1: Sight, takes: nat -> bool)
    requires f0.kind == f1.kind == AUDIO && |f0.body| <= BUFFER && takes(0) && takes(1) == (|f1.body| > BUFFER)
    requires s0 == Sight(f0.timestamp, true) && s1 == Sight(f1.timestamp, false)
    ensures Becomes([f0, f1], takes, if takes(1) then [f0] else [f0, f1], [s0, s1], [f0])
  {
    BecomesNothing(takes);
    BecomesMore([], takes, [], [], [], f0, [f0], [f0], [s0], [f0]);
    BecomesMore([f0], takes, [f0], [s0], [f0], f1, [f0, f1], if takes(1) then [f0] else [f0, f1], [s0, s1], [f0]);
  }

  lemma ThreeBecome(f0: Frame, f1: Frame, f2: Frame, s0: Sight, s1: Sight, s2: Sight, takes: nat -> bool)
    requires f0.kind == f1.kind == f2.kind == AUDIO && |f0.body| <= BUFFER && |f2.body| <= BUFFER
    requires takes(0) && takes(2) && takes(1) == (|f1.body| > BUFFER)
    requires s0 == Sight(f0.timestamp, true) && s1 == Sight(f1.timestamp, false) && s2 == Sight(f2.timestamp, true)
    ensures Becomes([f0, f1, f2], takes, if takes(1) then [f0, f2] else [f0, f1, f2], [s0, s1, s2], [f0, f2])
  {
    TwoBecome(f0, f1, s0, s1, takes);
    if takes(1) {
      BecomesMore([f0, f1], takes, [f0], [s0, s1], [f0], f2, [f0, f1, f2], [f0, f2], [s0, s1, s2], [f0, f2]);
    } else {
      BecomesMore([f0, f1], takes, [f0, f1], [s0, s1], [f0], f2, [f0, f1, f2], [f0, f1, f2], [s0, s1, s2], [f0, f2]);
    }
  }

  /**
    * Three audio frames are recorded at 0, 10 and 20 and played. The queue refuses the second one, or it is too big and
    * is never offered: the third one is heard at 10.
    */
  method LostFrameDelays(first: seq<seq<byte>>, lost: seq<seq<byte>>, last: seq<seq<byte>>)
    returns (file: seq<byte>, sent: seq<Sent>)
    requires |Concat(first)| <= BUFFER && |Concat(lost)| < TWO24 && |Concat(last)| <= BUFFER
    ensures Recorded(file, [Audio(0, first), Audio(10, lost), Audio(20, last)])
    ensures FramesIn(sent) == [Audio(0, first), Audio(20, last)]
    ensures forall clock: uint32 :: ClockOf(clock, sent, AUDIO) == 10
  {
    var rec := new Recorder();
    rec.Record(AUDIO, 0, first);
    rec.Record(AUDIO, 10, lost);
    rec.Record(AUDIO, 20, last);
    AppendTimeIs(0, 0, 10);
    AppendTimeIs(0, 0, 20);
    ghost var f0, f1, f2 := Audio(0, first), Audio(10, lost), Audio(20, last);
    assert rec.written == [f0, f1, f2];
    file := rec.file;
    WrittenIsRead(file, [f0, f1, f2]);
    var size := Length(lost);
    var player := new Player(file);
    var _, played := player.PlayAll(AllBut(size <= BUFFER));
    ThreeBecome(f0, f1, f2, Sight(0, true), Sight(10, false), Sight(20, true), AllBut(size <= BUFFER));
    assert Unfold(0);
    sent := played;
    forall clock: uint32 ensures ClockOf(clock, sent, AUDIO) == 10 {
      MiddleLost(clock, Kind(0, false));
    }
  }
}
