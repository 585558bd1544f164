/**
  * ngx_rtmp_receive.c: an aggregate message (section 7.1.6 of the RTMP Specification) is split in place, by cutting
  * its buffer chain before each delivery and joining it again afterwards.
  */
module Aggregate {
  import opened Bytes
  import opened ChunkBuffers

  const NULL: int := -1

  datatype Sub = Sub(kind: byte, mlen: nat, timestamp: uint32, msid: nat, payload: seq<byte>)

  datatype Status = Ok | Bad | Rejected

  // ----- On flat bytes

  /** What is delivered, and how it ends. */
  datatype Split = Split(subs: seq<Sub>, status: Status)

  const HEADER: nat := 11

  /** The message of `mlen` bytes whose header starts the bytes; times count from `base`, the first one's time. */
  function SubOf(s: seq<byte>, mlen: nat, time: uint32, base: uint32): Sub
    requires HEADER + mlen <= |s|
  {
    Sub(s[0], mlen, Sub32(Add32(time, TimeOf(s)), base), OfBe24(s[8], s[9], s[10]), s[HEADER..HEADER + mlen])
  }

  /** Three bytes and a fourth that extends them. */
  function TimeOf(s: seq<byte>): uint32
    requires |s| >= 8
  {
    OfBe24(s[4], s[5], s[6]) + (s[7] as int) * 16777216
  }

  function SplitFlat(s: seq<byte>, time: uint32, base: Option<uint32>, accepts: Sub -> bool): Split
    decreases |s|
  {
    if s == [] then Split([], Ok)
    else if |s| < HEADER then Split([], Bad)
    else
      var mlen := OfBe24(s[1], s[2], s[3]);
      if |s| - HEADER <= mlen then Split([], Bad)
      else
        var start := if base.Some? then base.value else TimeOf(s);
        var sub := SubOf(s, mlen, time, start);
        if !accepts(sub) then Split([sub], Rejected)
        else if |s| < HEADER + mlen + 4 then Split([sub], Ok)
        else
          var more := SplitFlat(s[HEADER + mlen + 4..], time, Some(start), accepts);
          Split([sub] + more.subs, more.status)
  }

  // ----- What an aggregate says

  /** A message of an aggregate, as who writes one has it. */
  datatype Item = Item(kind: byte, time: uint32, msid: nat, payload: seq<byte>)

  ghost predicate Printable(items: seq<Item>) {
    forall i :: 0 <= i < |items| ==> items[i].msid < 0x100_0000 && |items[i].payload| < 0x100_0000
  }

  /** Type, length in 24 bits, time with its heaviest byte last, and stream id in 24 bits. */
  ghost predicate HeadPrints(h: seq<byte>, kind: byte, n: nat, time: uint32, msid: nat) {
    && |h| == 11
    && forall u: int {:trigger Unfold(u)} :: Unfold(u) ==>
         && h[0] == kind && Weigh(0, h[1], h[2], h[3]) == n
         && Weigh(h[7], h[4], h[5], h[6]) == time && Weigh(0, h[8], h[9], h[10]) == msid
  }

  ghost predicate SizePrints(z: seq<byte>, n: nat) {
    |z| == 4 && forall u: int {:trigger Unfold(u)} :: Unfold(u) ==> Weigh(z[0], z[1], z[2], z[3]) == n
  }

  /** Head, payload, and the size of both. */
  ghost predicate Prints(s: seq<byte>, x: Item) {
    var n := |x.payload|;
    && |s| == 11 + n + 4 && HeadPrints(s[..11], x.kind, n, x.time, x.msid)
    && s[11..11 + n] == x.payload && SizePrints(s[11 + n..], 11 + n)
  }

  /** The bytes are the printed messages, one after another. */
  ghost predicate PrintsAll(s: seq<byte>, items: seq<Item>)
    decreases |items|
  {
    if items == [] then s == []
    else
      var n := 15 + |items[0].payload|;
      n <= |s| && Prints(s[..n], items[0]) && PrintsAll(s[n..], items[1..])
  }

  /** The 11 bytes in front of the payload. */
  function PrintHead(kind: byte, n: nat, time: uint32, msid: nat): (h: seq<byte>)
    requires n < 0x100_0000 && msid < 0x100_0000
  {
    var l, m, t := Be24(n), Be24(msid), Be32(time);
    [kind, l[0], l[1], l[2], t[1], t[2], t[3], t[0], m[0], m[1], m[2]]
  }

  /** A printed message. */
  function Print(x: Item): seq<byte>
    requires x.msid < 0x100_0000 && |x.payload| < 0x100_0000
  {
    PrintHead(x.kind, |x.payload|, x.time, x.msid) + x.payload + Be32(11 + |x.payload|)
  }

  ghost function PrintAll(items: seq<Item>): seq<byte>
    requires Printable(items)
  {
    if items == [] then [] else Print(items[0]) + PrintAll(items[1..])
  }

  lemma PrintHeadSays(kind: byte, n: nat, time: uint32, msid: nat)
    requires n < 0x100_0000 && msid < 0x100_0000
    ensures HeadPrints(PrintHead(kind, n, time, msid), kind, n, time, msid)
  {
    BytesWeigh(n);
    BytesWeigh(msid);
    BytesWeigh(time);
  }

  lemma PrintSays(x: Item)
    requires x.msid < 0x100_0000 && |x.payload| < 0x100_0000
    ensures Prints(Print(x), x)
  {
    var n := |x.payload|;
    PrintHeadSays(x.kind, n, x.time, x.msid);
    PrintSizeSays(11 + n);
    ThreePieces(PrintHead(x.kind, n, x.time, x.msid), x.payload, Be32(11 + n));
  }

  lemma PrintSizeSays(n: nat)
    requires n < TWO32
    ensures SizePrints(Be32(n), n)
  {
    BytesWeigh(n);
  }

  lemma ThreePieces(h: seq<byte>, p: seq<byte>, z: seq<byte>)
    ensures var s := h + p + z; s[..|h|] == h && s[|h|..|h| + |p|] == p && s[|h| + |p|..] == z
  {
  }

  lemma {:induction false} PrintAllSays(items: seq<Item>)
    requires Printable(items)
    ensures PrintsAll(PrintAll(items), items)
  {
    if items != [] {
      var s, more := Print(items[0]), PrintAll(items[1..]);
      PrintSays(items[0]);
      PrintAllSays(items[1..]);
      assert (s + more)[..|s|] == s && (s + more)[|s|..] == more;
    }
  }

  /** The messages an aggregate at `time` stands for, whose first one has the time `base`; a refused one is the last. */
  ghost function Meant(items: seq<Item>, time: uint32, base: uint32, accepts: Sub -> bool): Split {
    if items == [] then Split([], Ok)
    else
      var sub := Meaning(items[0], time, base);
      if !accepts(sub) then Split([sub], Rejected)
      else
        var more := Meant(items[1..], time, base, accepts);
        Split([sub] + more.subs, more.status)
  }

  /** The message a printed one stands for. */
  ghost function Meaning(x: Item, time: uint32, base: uint32): Sub {
    Sub(x.kind, |x.payload|, (time + x.time - base) % 0x1_0000_0000, x.msid, x.payload)
  }

  /** One printed message off the front, and the parser goes on behind it. */
  lemma PrintedFront(s: seq<byte>, x: Item, time: uint32, base: Option<uint32>, start: uint32, rest: seq<byte>,
                     accepts: Sub -> bool)
    requires 15 + |x.payload| <= |s| && Prints(s[..15 + |x.payload|], x) && rest == s[15 + |x.payload|..]
    requires start == if base.Some? then base.value else x.time
    ensures var sub, more := Meaning(x, time, start), SplitFlat(rest, time, Some(start), accepts);
            SplitFlat(s, time, base, accepts)
            == if accepts(sub) then Split([sub] + more.subs, more.status) else Split([sub], Rejected)
  {
    PrintedOne(s, x, time, start);
  }

  /** What was delivered before, and then. */
  ghost function Then(a: Split, b: Split): Split {
    if a.status == Ok then Split(a.subs + b.subs, b.status) else a
  }

  /** Behind printed messages the parser goes on with whatever is there. */
  lemma {:induction false} PrintedThen(front: seq<byte>, items: seq<Item>, rest: seq<byte>, time: uint32, base: uint32,
                                       accepts: Sub -> bool)
    requires PrintsAll(front, items)
    ensures SplitFlat(front + rest, time, Some(base), accepts)
            == Then(Meant(items, time, base, accepts), SplitFlat(rest, time, Some(base), accepts))
    decreases |items|
  {
    var end := SplitFlat(rest, time, Some(base), accepts);
    if items == [] {
      assert front + rest == rest && [] + end.subs == end.subs;
    } else {
      var n := 15 + |items[0].payload|;
      var one, more := front[..n], front[n..];
      PrintedThen(more, items[1..], rest, time, base, accepts);
      Regroup(front, n, rest);
      PrintedFront(one + (more + rest), items[0], time, Some(base), base, more + rest, accepts);
      MeantThen(items, time, base, accepts, end);
    }
  }

  lemma Regroup(front: seq<byte>, n: nat, rest: seq<byte>)
    requires n <= |front|
    ensures var one, more := front[..n], front[n..] + rest;
            front + rest == one + more && (one + more)[..n] == one && (one + more)[n..] == more
  {
  }

  lemma MeantThen(items: seq<Item>, time: uint32, base: uint32, accepts: Sub -> bool, end: Split)
    requires items != []
    ensures var sub, more := Meaning(items[0], time, base), Then(Meant(items[1..], time, base, accepts), end);
            Then(Meant(items, time, base, accepts), end)
            == if accepts(sub) then Split([sub] + more.subs, more.status) else Split([sub], Rejected)
  {
    Assoc([Meaning(items[0], time, base)], Meant(items[1..], time, base, accepts).subs, end.subs);
  }

  lemma CutTwice<T>(s: seq<T>, m: nat, n: nat)
    requires n <= m <= |s|
    ensures s[..m][..n] == s[..n] && s[..m][n..] == s[n..][..m - n] && s[n..][m - n..] == s[m..]
  {
  }

  /** Less than a head is an error. */
  lemma ShortHeadIsBad(s: seq<byte>, time: uint32, base: uint32, accepts: Sub -> bool)
    requires 0 < |s| < 11
    ensures SplitFlat(s, time, Some(base), accepts) == Split([], Bad)
  {
  }

  /** A message with less behind it than its size is delivered and ends the aggregate; with nothing it is an error. */
  lemma CutMessage(s: seq<byte>, x: Item, z: seq<byte>, time: uint32, base: uint32, accepts: Sub -> bool)
    requires |s| == 11 + |x.payload| + |z| && |z| < 4 && HeadPrints(s[..11], x.kind, |x.payload|, x.time, x.msid)
    requires s[11..11 + |x.payload|] == x.payload
    ensures var sub := Meaning(x, time, base);
            SplitFlat(s, time, Some(base), accepts)
            == if z == [] then Split([], Bad) else Split([sub], if accepts(sub) then Ok else Rejected)
  {
    HeadMeans(s, s[..11], x.kind, |x.payload|, x.time, x.msid);
    TimeMeans(time, x.time, base);
  }

  /** The flat parser delivers exactly what a printed aggregate means. */
  lemma {:induction false} PrintedIsMeant(s: seq<byte>, items: seq<Item>, time: uint32, base: Option<uint32>,
                                          accepts: Sub -> bool)
    requires PrintsAll(s, items)
    ensures items == [] ==> SplitFlat(s, time, base, accepts) == Split([], Ok)
    ensures items != [] ==> SplitFlat(s, time, base, accepts)
                            == Meant(items, time, if base.Some? then base.value else items[0].time, accepts)
    decreases |items|
  {
    if items != [] {
      var x := items[0];
      var start, rest := if base.Some? then base.value else x.time, s[15 + |x.payload|..];
      PrintedFront(s, x, time, base, start, rest, accepts);
      PrintedIsMeant(rest, items[1..], time, Some(start), accepts);
    }
  }

  lemma PrintedOne(s: seq<byte>, x: Item, time: uint32, start: uint32)
    requires 15 + |x.payload| <= |s| && Prints(s[..15 + |x.payload|], x)
    ensures OfBe24(s[1], s[2], s[3]) == |x.payload| && TimeOf(s) == x.time
    ensures SubOf(s, |x.payload|, time, start) == Meaning(x, time, start)
  {
    var n := |x.payload|;
    CutTwice(s, 15 + n, 11);
    SliceOfPrefix(s, 15 + n, 11, 11 + n);
    HeadMeans(s, s[..11], x.kind, n, x.time, x.msid);
    TimeMeans(time, x.time, start);
  }

  lemma HeadMeans(s: seq<byte>, h: seq<byte>, kind: byte, n: nat, time: uint32, msid: nat)
    requires |s| >= 11 && h == s[..11] && HeadPrints(h, kind, n, time, msid)
    ensures s[0] == kind && OfBe24(s[1], s[2], s[3]) == n && TimeOf(s) == time && OfBe24(s[8], s[9], s[10]) == msid
  {
    assert Unfold(0);
    ReadsWeigh(0, s[1], s[2], s[3]);
    ReadsWeigh(0, s[4], s[5], s[6]);
    ReadsWeigh(0, s[8], s[9], s[10]);
  }

  lemma TimeMeans(time: uint32, t: uint32, start: uint32)
    ensures Sub32(Add32(time, t), start) == (time + t - start) % 0x1_0000_0000
  {
    Add32Cases(time, t);
    Sub32Cases(Add32(time, t), start);
  }

  // ----- Along a chain

  /** The bytes of the buffers from `i` on, following the links. */
  ghost function Along(lives: seq<seq<byte>>, next: seq<int>, i: int): seq<byte>
    decreases |lives| - i
  {
    if 0 <= i < |lives| && i < |next| then lives[i] + (if i < next[i] then Along(lives, next, next[i]) else []) else []
  }

  /** The bytes of the buffers from `i` up to, but without, `cl`. */
  ghost function Upto(lives: seq<seq<byte>>, next: seq<int>, i: int, cl: int): seq<byte>
    decreases |lives| - i
  {
    if 0 <= i < cl && i < |lives| && i < |next| && i < next[i] then lives[i] + Upto(lives, next, next[i], cl) else []
  }

  ghost predicate Chained(next: seq<int>, n: nat) {
    |next| == n && forall k: int {:trigger Known(k)} :: Known(k) && 0 <= k < n ==> next[k] == if k + 1 < n then k + 1
        else NULL
  }

  lemma Cut(s: seq<byte>, a: seq<byte>, b: seq<byte>)
    requires s == a + b
    ensures s[|a|..] == b
  {
  }

  lemma AlongStep(lives: seq<seq<byte>>, next: seq<int>, i: nat)
    requires Chained(next, |lives|) && i < |lives|
    ensures Along(lives, next, i) == lives[i] + Along(lives, next, next[i])
  {
    assert Known(i);
    assert Along(lives, next, NULL) == [];
  }

  lemma {:induction false} AlongFrame(lives: seq<seq<byte>>, lives': seq<seq<byte>>, next: seq<int>, i: nat)
    requires Chained(next, |lives|) && |lives'| == |lives| && forall k :: i <= k < |lives| ==> lives'[k] == lives[k]
    ensures Along(lives', next, i) == Along(lives, next, i)
    decreases |lives| - i
  {
    if i < |lives| {
      assert Known(i);
      AlongStep(lives, next, i);
      AlongStep(lives', next, i);
      if next[i] != NULL {
        AlongFrame(lives, lives', next, next[i]);
      }
    }
  }

  /** Changing one buffer changes its own bytes only. */
  lemma AlongUpdate(lives: seq<seq<byte>>, next: seq<int>, i: nat, live: seq<byte>)
    requires Chained(next, |lives|) && i < |lives|
    ensures Along(lives[i := live], next, i) == live + Along(lives, next, next[i])
  {
    var lives' := lives[i := live];
    assert Known(i);
    AlongStep(lives', next, i);
    if next[i] != NULL {
      AlongFrame(lives, lives', next, next[i]);
    }
  }

  lemma {:induction false} UptoNext(lives: seq<seq<byte>>, next: seq<int>, i: nat, cl: nat)
    requires Chained(next, |lives|) && i <= cl < |lives|
    ensures next[cl] != NULL ==> Upto(lives, next, i, next[cl]) == Upto(lives, next, i, cl) + lives[cl]
    decreases cl - i
  {
    assert Known(cl) && Known(i);
    if next[cl] != NULL {
      if i < cl {
        UptoNext(lives, next, i + 1, cl);
        Assoc(lives[i], Upto(lives, next, i + 1, cl), lives[cl]);
      } else {
        assert Upto(lives, next, next[cl], next[cl]) == [];
      }
    }
  }

  lemma {:induction false} AlongSplits(lives: seq<seq<byte>>, next: seq<int>, i: nat, cl: nat)
    requires Chained(next, |lives|) && i <= cl < |lives|
    ensures Along(lives, next, i) == Upto(lives, next, i, cl) + Along(lives, next, cl)
    decreases cl - i
  {
    if i < cl {
      var upto, rest := Upto(lives, next, i + 1, cl), Along(lives, next, cl);
      assert next[i] == i + 1 by {
        assert Known(i);
      }
      AlongStep(lives, next, i);
      AlongSplits(lives, next, i + 1, cl);
      Assoc(lives[i], upto, rest);
    }
  }

  /** A chain cut behind buffer `cl`, which is changed. */
  lemma {:induction false} AlongCut(lives: seq<seq<byte>>, next: seq<int>, i: nat, cl: nat, live: seq<byte>)
    requires Chained(next, |lives|) && i <= cl < |lives|
    ensures Along(lives[cl := live], next[cl := NULL], i) == Upto(lives, next, i, cl) + live
    decreases cl - i
  {
    if i < cl {
      assert Known(i);
      AlongCut(lives, next, i + 1, cl, live);
      Assoc(lives[i], Upto(lives, next, i + 1, cl), live);
      CutStep(lives[cl := live], next[cl := NULL], i);
    }
  }

  lemma CutStep(lives: seq<seq<byte>>, next: seq<int>, i: nat)
    requires i + 1 < |lives| && |next| == |lives| && next[i] == i + 1
    ensures Along(lives, next, i) == lives[i] + Along(lives, next, i + 1)
  {
  }

  // ----- Buffers

  ghost function Lives(bufs: seq<Buf>): (lives: seq<seq<byte>>)
    ensures |lives| == |bufs| && forall k :: 0 <= k < |bufs| ==> lives[k] == bufs[k].Live()
  {
    seq(|bufs|, k requires 0 <= k < |bufs| => bufs[k].Live())
  }

  lemma LivesUpdate(bufs: seq<Buf>, i: nat, b: Buf)
    requires i < |bufs|
    ensures Lives(bufs[i := b]) == Lives(bufs)[i := b.Live()]
  {
  }

  /** A whole chain of sound buffers. */
  ghost predicate Whole(bufs: seq<Buf>, next: seq<int>) {
    && Chained(next, |bufs|)
    && forall k: int {:trigger Known(k)} :: Known(k) && 0 <= k < |bufs| ==>
          bufs[k].pos <= bufs[k].last <= |bufs[k].data|
  }

  /** Only positions differ. */
  ghost predicate Kept(bufs: seq<Buf>, bufs': seq<Buf>) {
    && |bufs'| == |bufs|
    && forall k: int {:trigger Known(k)} :: Known(k) && 0 <= k < |bufs| ==>
         bufs'[k].data == bufs[k].data && bufs'[k].last == bufs[k].last
  }

  lemma KeptTwice(a: seq<Buf>, b: seq<Buf>, c: seq<Buf>)
    requires Kept(a, b) && Kept(b, c)
    ensures Kept(a, c)
  {
  }

  /** Buffer `i` moved on to position `p`. */
  lemma MovedKeeps(bufs: seq<Buf>, next: seq<int>, i: nat, p: nat)
    requires Whole(bufs, next) && i < |bufs| && p <= bufs[i].last
    ensures Whole(bufs[i := bufs[i].(pos := p)], next) && Kept(bufs, bufs[i := bufs[i].(pos := p)])
  {
    assert Known(i);
  }

  lemma LiveSplit(b: Buf, limit: nat)
    requires b.pos <= limit <= b.last <= |b.data|
    ensures b.Live() == b.(last := limit).Live() + b.(pos := limit).Live()
    ensures |b.(last := limit).Live()| == limit - b.pos && |b.Live()| == b.last - b.pos
  {
  }

  lemma Fetched(bufs: seq<Buf>, next: seq<int>, i: nat)
    requires Whole(bufs, next) && i < |bufs| && bufs[i].pos < bufs[i].last
    ensures bufs[i].last <= |bufs[i].data|
    ensures var b := bufs[i];
            var bufs' := bufs[i := b.(pos := b.pos + 1)];
            && Along(Lives(bufs), next, i) == [b.data[b.pos]] + Along(Lives(bufs'), next, i)
            && Whole(bufs', next) && Kept(bufs, bufs')
  {
    assert bufs[i].last <= |bufs[i].data| by {
      assert Known(i);
    }
    MovedKeeps(bufs, next, i, bufs[i].pos + 1);
    FetchedByte(bufs, next, i, bufs[i]);
  }

  lemma FetchedByte(bufs: seq<Buf>, next: seq<int>, i: nat, b: Buf)
    requires Chained(next, |bufs|) && i < |bufs| && b == bufs[i] && b.pos < b.last <= |b.data|
    ensures Along(Lives(bufs), next, i) == [b.data[b.pos]] + Along(Lives(bufs[i := b.(pos := b.pos + 1)]), next, i)
  {
    var after := b.(pos := b.pos + 1);
    LivesUpdate(bufs, i, after);
    FirstLive(b);
    AlongDrops(Lives(bufs), next, i, b.data[b.pos], after.Live());
  }

  lemma FirstLive(b: Buf)
    requires b.pos < b.last <= |b.data|
    ensures b.Live() == [b.data[b.pos]] + b.(pos := b.pos + 1).Live()
  {
  }

  /** Taking the first byte out of buffer `i` takes it off the front of what follows from there. */
  lemma AlongDrops(lives: seq<seq<byte>>, next: seq<int>, i: nat, x: byte, rest: seq<byte>)
    requires Chained(next, |lives|) && i < |lives| && lives[i] == [x] + rest
    ensures Along(lives, next, i) == [x] + Along(lives[i := rest], next, i)
  {
    AlongStep(lives, next, i);
    AlongUpdate(lives, next, i, rest);
    Assoc([x], rest, Along(lives, next, next[i]));
  }

  /** The first `mlen` bytes from `i` on end inside buffer `cl`. */
  ghost predicate Ends(bufs: seq<Buf>, next: seq<int>, i: nat, cl: nat, mlen: nat, len: nat) {
    && i <= cl < |bufs|
    && |Upto(Lives(bufs), next, i, cl)| <= mlen < len == |Upto(Lives(bufs), next, i, cl)|
        + (bufs[cl].last - bufs[cl].pos)
  }

  lemma Pieces(a: seq<byte>, b: seq<byte>, c: seq<byte>, d: seq<byte>)
    ensures var all := a + (b + c + d);
            all[..|a| + |b|] == a + b && all[|a| + |b|..] == c + d
  {
    assert a + (b + c + d) == (a + b) + (c + d);
  }

  /** What the cut chain holds is what comes before the cut, and the rest is what comes after. */
  lemma CutLives(lives: seq<seq<byte>>, next: seq<int>, i: nat, cl: nat, front: seq<byte>, back: seq<byte>)
    requires Chained(next, |lives|) && i <= cl < |lives| && lives[cl] == front + back
    ensures var all, n := Along(lives, next, i), |Upto(lives, next, i, cl)| + |front|;
            && n <= |all|
            && Along(lives[cl := front], next[cl := NULL], i) == all[..n]
            && Along(lives[cl := back], next, cl) == all[n..]
  {
    AlongSplits(lives, next, i, cl);
    AlongStep(lives, next, cl);
    AlongCut(lives, next, i, cl, front);
    AlongUpdate(lives, next, cl, back);
    Pieces(Upto(lives, next, i, cl), front, back, Along(lives, next, next[cl]));
  }

  lemma CutAt(bufs: seq<Buf>, next: seq<int>, i: nat, cl: nat, limit: nat, n: nat)
    requires Whole(bufs, next) && i <= cl < |bufs| && bufs[cl].pos <= limit <= bufs[cl].last
    requires n == |Upto(Lives(bufs), next, i, cl)| + (limit - bufs[cl].pos)
    ensures n <= |Along(Lives(bufs), next, i)|
    ensures Along(Lives(bufs[cl := bufs[cl].(last := limit)]), next[cl := NULL], i) == Along(Lives(bufs), next, i)[..n]
    ensures Along(Lives(bufs[cl := bufs[cl].(pos := limit)]), next, cl) == Along(Lives(bufs), next, i)[n..]
  {
    assert Known(cl);
    var b := bufs[cl];
    LiveSplit(b, limit);
    CutLives(Lives(bufs), next, i, cl, b.(last := limit).Live(), b.(pos := limit).Live());
    LivesUpdate(bufs, cl, b.(last := limit));
    LivesUpdate(bufs, cl, b.(pos := limit));
  }

  lemma CutIsSound(bufs: seq<Buf>, next: seq<int>, cl: nat)
    requires Whole(bufs, next) && cl < |bufs|
    ensures InRange(next[cl := NULL], |bufs|)
  {
    var cut := next[cl := NULL];
    forall k | 0 <= k < |cut| ensures cut[k] < |bufs| {
      assert Known(k);
    }
  }

  ghost predicate InRange(next: seq<int>, n: nat) {
    |next| == n && forall k :: 0 <= k < |next| ==> next[k] < n
  }

  lemma Restored(bufs: seq<Buf>, next: seq<int>, cl: nat, limit: nat)
    requires cl < |bufs| == |next|
    ensures next[cl := NULL][cl := next[cl]] == next
    ensures var b := bufs[cl];
            bufs[cl := b.(last := limit)][cl := b.(last := limit).(pos := limit, last := b.last)]
                == bufs[cl := b.(pos := limit)]
  {
  }

  class Splitter {
    var bufs: seq<Buf>
    var next: seq<int>
    var delivered: seq<Sub>

    ghost predicate Valid()
      reads this
    {
      Whole(bufs, next)
    }

    ghost function Rest(i: int): seq<byte>
      reads this
    {
      Along(Lives(bufs), next, i)
    }

    /** ngx_rtmp_fetch: the next byte, from the first buffer that has one. */
    method Fetch(i0: int) returns (ok: bool, b: byte, i: int)
      requires Valid() && (i0 == NULL || 0 <= i0 < |bufs|)
      modifies this`bufs
      ensures Valid() && Kept(old(bufs), bufs) && (i == NULL || 0 <= i < |bufs|)
      ensures ok <==> old(Rest(i0)) != []
      ensures ok ==> old(Rest(i0)) == [b] + Rest(i) && i != NULL
    {
      i := i0;
      while i != NULL && bufs[i].pos >= bufs[i].last
        invariant i == NULL || 0 <= i < |bufs|
        invariant Rest(i) == old(Rest(i0)) && bufs == old(bufs)
        decreases if i == NULL then 0 else |bufs| - i
      {
        assert Known(i);
        AlongStep(Lives(bufs), next, i);
        assert bufs[i].Live() + Rest(next[i]) == Rest(next[i]);
        i := next[i];
      }
      if i == NULL {
        return false, 0, NULL;
      }
      Fetched(bufs, next, i);
      b := bufs[i].data[bufs[i].pos];
      bufs := bufs[i := bufs[i].(pos := bufs[i].pos + 1)];
      ok := true;
    }

    /** ngx_rtmp_fetch_uint32 and several single bytes: the next `n` bytes. */
    method FetchAll(i0: int, n: nat) returns (ok: bool, bytes: seq<byte>, i: int)
      requires Valid() && (i0 == NULL || 0 <= i0 < |bufs|)
      modifies this`bufs
      ensures Valid() && Kept(old(bufs), bufs) && (i == NULL || 0 <= i < |bufs|)
      ensures ok <==> n <= |old(Rest(i0))|
      ensures ok ==> old(Rest(i0)) == bytes + Rest(i) && |bytes| == n && (n > 0 ==> i != NULL)
    {
      i, bytes := i0, [];
      while |bytes| < n
        invariant Valid() && Kept(old(bufs), bufs) && (i == NULL || 0 <= i < |bufs|)
        invariant |bytes| <= n && old(Rest(i0)) == bytes + Rest(i) && (bytes != [] ==> i != NULL)
        decreases n - |bytes|
      {
        ghost var before := bufs;
        var b;
        ok, b, i := Fetch(i);
        KeptTwice(old(bufs), before, bufs);
        if !ok {
          return;
        }
        Assoc(bytes, [b], Rest(i));
        bytes := bytes + [b];
      }
      ok := true;
    }

    /** The buffer in which the message ends, and the bytes up to the end of that buffer. */
    method Limit(i: int, mlen: nat) returns (cl: int, len: nat)
      requires Valid() && 0 <= i < |bufs|
      ensures cl == NULL <==> |Rest(i)| <= mlen
      ensures cl != NULL ==> i <= cl < |bufs| && Ends(bufs, next, i, cl, mlen, len)
    {
      cl, len := i, 0;
      ghost var before: seq<byte> := [];
      assert [] + Rest(i) == Rest(i);
      while cl != NULL
        invariant cl == NULL || i <= cl < |bufs|
        invariant len == |before| <= mlen && Rest(i) == before + Rest(cl)
        invariant cl != NULL ==> Upto(Lives(bufs), next, i, cl) == before
        decreases if cl == NULL then 0 else |bufs| - cl
      {
        AlongStep(Lives(bufs), next, cl);
        assert Known(cl);
        UptoNext(Lives(bufs), next, i, cl);
        len := len + (bufs[cl].last - bufs[cl].pos);
        if len > mlen {
          return;
        }
        Assoc(before, bufs[cl].Live(), Rest(next[cl]));
        before := before + bufs[cl].Live();
        cl := next[cl];
      }
    }

    /** What a receiver of the chain from `i` on gets. */
    method Collect(i: int) returns (bytes: seq<byte>)
      requires InRange(next, |bufs|) && 0 <= i < |bufs|
      ensures bytes == Rest(i)
    {
      bytes := bufs[i].Live();
      var k := i;
      while k < next[k]
        invariant 0 <= k < |bufs|
        invariant Rest(i) == bytes + (if k < next[k] then Rest(next[k]) else [])
        decreases |bufs| - k
      {
        k := next[k];
        Assoc(bytes, bufs[k].Live(), if k < next[k] then Rest(next[k]) else []);
        bytes := bytes + bufs[k].Live();
      }
    }

    /** The chain is cut behind the message, the message handed over, and the chain joined and positioned behind it. */
    method Deliver(i: int, cl: int, len: nat, mlen: nat) returns (payload: seq<byte>)
      requires Valid() && 0 <= i <= cl < |bufs| && Ends(bufs, next, i, cl, mlen, len) && mlen <= |Rest(i)|
      modifies this`bufs, this`next
      ensures Valid() && Kept(old(bufs), bufs) && next == old(next)
      ensures payload == old(Rest(i))[..mlen] && Rest(cl) == old(Rest(i))[mlen..]
    {
      assert Known(cl);
      var after, last := next[cl], bufs[cl].last;
      var limit := last - (len - mlen);
      CutAt(bufs, next, i, cl, limit, mlen);
      MovedKeeps(bufs, next, cl, limit);
      Restored(bufs, next, cl, limit);
      CutIsSound(bufs, next, cl);
      next := next[cl := NULL];
      bufs := bufs[cl := bufs[cl].(last := limit)];
      payload := Collect(i);
      next := next[cl := after];
      bufs := bufs[cl := bufs[cl].(pos := bufs[cl].last, last := last)];
    }

    /** One message, whose header has been read: `s` started with it. */
    method Message(time: uint32, accepts: Sub -> bool, head: seq<byte>, i0: int, base0: Option<uint32>,
                   ghost s: seq<byte>)
      returns (status: Option<Status>, sub: Option<Sub>, i: int, base: Option<uint32>)
      requires Valid() && 0 <= i0 < |bufs| && |head| == HEADER && s == head + Rest(i0)
      modifies this
      ensures Valid() && next == old(next) && Kept(old(bufs), bufs) && 0 <= i < |bufs|
      ensures sub.Some? ==> delivered == old(delivered) + [sub.value]
      ensures sub.None? ==> delivered == old(delivered)
      ensures OneSplit(s, time, base0, accepts, sub, status, Rest(i), base)
      ensures status == None ==> |Rest(i)| < |s|
    {
      ghost var rest := Rest(i0);
      var mlen := OfBe24(head[1], head[2], head[3]);
      var stamp := TimeOf(head);
      base := Some(if base0.Some? then base0.value else stamp);
      i := i0;
      var cl, len := Limit(i, mlen);
      if cl == NULL {
        OneBad(s, head, rest, time, base0, accepts, rest, base);
        return Some(Bad), None, i, base;
      }
      OneGood(s, head, rest, time, base0, accepts, base.value);
      var payload := Deliver(i, cl, len, mlen);
      var m := Sub(head[0], mlen, Sub32(Add32(time, stamp), base.value), OfBe24(head[8], head[9], head[10]), payload);
      delivered := delivered + [m];
      sub, i := Some(m), cl;
      status := if accepts(m) then None else Some(Rejected);
      if status == None {
        ghost var before := bufs;
        status, i := SkipSize(i);
        KeptTwice(old(bufs), before, bufs);
      }
    }

    /** The size of the previous message, if it is there. */
    method SkipSize(i0: int) returns (status: Option<Status>, i: int)
      requires Valid() && 0 <= i0 < |bufs|
      modifies this`bufs
      ensures Valid() && Kept(old(bufs), bufs) && 0 <= i < |bufs|
      ensures if |old(Rest(i0))| < 4 then status == Some(Ok) else status == None && Rest(i) == old(Rest(i0))[4..]
    {
      var ok, size, j := FetchAll(i0, 4);
      if !ok {
        return Some(Ok), i0;
      }
      Cut(old(Rest(i0)), size, Rest(j));
      return None, j;
    }

    /**
      * ngx_rtmp_aggregate_message_handler: the messages found do not depend on how the bytes are spread over the
      * chain, and afterwards the chain is linked and limited as it was.
      */
    method Handle(time: uint32, accepts: Sub -> bool) returns (status: Status)
      requires Valid()
      modifies this
      ensures Valid() && next == old(next) && Kept(old(bufs), bufs)
      ensures var split := SplitFlat(old(Rest(0)), time, None, accepts);
              delivered == old(delivered) + split.subs && status == split.status
      ensures forall items: seq<Item> :: items != [] && PrintsAll(old(Rest(0)), items) ==>
                var meant := Meant(items, time, items[0].time, accepts);
                delivered == old(delivered) + meant.subs && status == meant.status
    {
      forall items: seq<Item> | items != [] && PrintsAll(Rest(0), items)
        ensures SplitFlat(Rest(0), time, None, accepts) == Meant(items, time, items[0].time, accepts)
      {
        PrintedIsMeant(Rest(0), items, time, None, accepts);
      }
      ghost var all, done: seq<Sub> := Rest(0), [];
      var i := if bufs == [] then NULL else 0;
      var base: Option<uint32> := None;
      assert delivered + [] == delivered;
      SplitStarts(all, time, accepts);
      while i != NULL
        invariant Valid() && next == old(next) && Kept(old(bufs), bufs) && (i == NULL || 0 <= i < |bufs|)
        invariant delivered == old(delivered) + done
        invariant Splits(all, time, accepts, done, Rest(i), base)
        decreases |Rest(i)|, i != NULL
      {
        ghost var s, before := Rest(i), bufs;
        var found, head;
        found, head, i := FetchAll(i, 1);
        KeptTwice(old(bufs), before, bufs);
        if !found {
          SplitEnds(all, time, accepts, done, base);
          return Ok;
        }
        before := bufs;
        var rest;
        found, rest, i := FetchAll(i, HEADER - 1);
        KeptTwice(old(bufs), before, bufs);
        if !found {
          SplitFails(all, time, accepts, done, s, base);
          return Bad;
        }
        before := bufs;
        ghost var base0 := base;
        Assoc(head, rest, Rest(i));
        var end, sub;
        end, sub, i, base := Message(time, accepts, head + rest, i, base, s);
        KeptTwice(old(bufs), before, bufs);
        SplitMore(all, time, accepts, done, s, base0, sub, end, Rest(i), base);
        Extends(old(delivered), done, sub);
        done := done + (if sub.Some? then [sub.value] else []);
        if end.Some? {
          return end.value;
        }
      }
      SplitEnds(all, time, accepts, done, base);
      return Ok;
    }
  }

  lemma Extends(a: seq<Sub>, b: seq<Sub>, sub: Option<Sub>)
    ensures a + b + (if sub.Some? then [sub.value] else []) == a + (b + (if sub.Some? then [sub.value] else []))
  {
  }

  // ----- Following the flat parser

  /** After `done`, the parser goes on with `s`. */
  ghost predicate Splits(all: seq<byte>, time: uint32, accepts: Sub -> bool, done: seq<Sub>, s: seq<byte>,
                         base: Option<uint32>) {
    forall k: int {:trigger Unfold(k)} :: Unfold(k) ==>
      var more := SplitFlat(s, time, base, accepts);
      SplitFlat(all, time, None, accepts) == Split(done + more.subs, more.status)
  }

  /** One message off the front of `s`: the parser ends with `status`, or goes on with `rest`. */
  ghost predicate OneSplit(s: seq<byte>, time: uint32, base0: Option<uint32>, accepts: Sub -> bool,
                           sub: Option<Sub>, status: Option<Status>, rest: seq<byte>, base: Option<uint32>) {
    forall k: int {:trigger Unfold(k)} :: Unfold(k) ==>
      var more := if status.Some? then Split([], status.value) else SplitFlat(rest, time, base, accepts);
      SplitFlat(s, time, base0, accepts) == Split((if sub.Some? then [sub.value] else []) + more.subs, more.status)
  }

  lemma OneBad(s: seq<byte>, head: seq<byte>, rest: seq<byte>, time: uint32, base0: Option<uint32>,
               accepts: Sub -> bool, after: seq<byte>, base: Option<uint32>)
    requires s == head + rest && |head| == HEADER && |rest| <= OfBe24(head[1], head[2], head[3])
    ensures OneSplit(s, time, base0, accepts, None, Some(Bad), after, base)
  {
    HeadIs(s, head, rest);
  }

  lemma OneGood(s: seq<byte>, head: seq<byte>, rest: seq<byte>, time: uint32, base0: Option<uint32>,
                accepts: Sub -> bool, base: uint32)
    requires s == head + rest && |head| == HEADER && |rest| > OfBe24(head[1], head[2], head[3])
    requires base == if base0.Some? then base0.value else TimeOf(head)
    ensures var mlen := OfBe24(head[1], head[2], head[3]);
            var sub := Sub(head[0], mlen, Sub32(Add32(time, TimeOf(head)), base), OfBe24(head[8], head[9], head[10]),
                           rest[..mlen]);
            && (!accepts(sub) ==> forall after :: OneSplit(s, time, base0, accepts, Some(sub), Some(Rejected), after,
                                                           Some(base)))
            && (accepts(sub) && |rest[mlen..]| < 4 ==>
                  forall after :: OneSplit(s, time, base0, accepts, Some(sub), Some(Ok), after, Some(base)))
            && (accepts(sub) && |rest[mlen..]| >= 4 ==>
                  OneSplit(s, time, base0, accepts, Some(sub), None, rest[mlen..][4..], Some(base)))
  {
    HeadIs(s, head, rest);
    SubIs(s, head, rest, time, base);
    var mlen := OfBe24(head[1], head[2], head[3]);
    if |rest[mlen..]| >= 4 {
      assert s[HEADER + mlen + 4..] == rest[mlen..][4..];
    }
  }

  lemma SplitStarts(all: seq<byte>, time: uint32, accepts: Sub -> bool)
    ensures Splits(all, time, accepts, [], all, None)
  {
    var r := SplitFlat(all, time, None, accepts);
    assert [] + r.subs == r.subs;
  }

  lemma SplitEnds(all: seq<byte>, time: uint32, accepts: Sub -> bool, done: seq<Sub>, base: Option<uint32>)
    requires Splits(all, time, accepts, done, [], base)
    ensures SplitFlat(all, time, None, accepts) == Split(done, Ok)
  {
    assert Unfold(0);
    assert done + [] == done;
  }

  lemma SplitFails(all: seq<byte>, time: uint32, accepts: Sub -> bool, done: seq<Sub>, s: seq<byte>,
                   base: Option<uint32>)
    requires Splits(all, time, accepts, done, s, base) && 0 < |s| < HEADER
    ensures SplitFlat(all, time, None, accepts) == Split(done, Bad)
  {
    assert Unfold(0);
    assert done + [] == done;
  }

  lemma SplitMore(all: seq<byte>, time: uint32, accepts: Sub -> bool, done: seq<Sub>, s: seq<byte>,
                  base0: Option<uint32>,
                  sub: Option<Sub>, status: Option<Status>, rest: seq<byte>, base: Option<uint32>)
    requires Splits(all, time, accepts, done, s, base0) && OneSplit(s, time, base0, accepts, sub, status, rest, base)
    ensures var done' := done + (if sub.Some? then [sub.value] else []);
            if status.Some? then SplitFlat(all, time, None, accepts) == Split(done', status.value)
            else Splits(all, time, accepts, done', rest, base)
  {
    assert Unfold(0);
    var whole, here := SplitFlat(all, time, None, accepts), SplitFlat(s, time, base0, accepts);
    var more := if status.Some? then Split([], status.value) else SplitFlat(rest, time, base, accepts);
    SplitJoins(whole, done, here, if sub.Some? then [sub.value] else [], more);
  }

  lemma SplitJoins(whole: Split, done: seq<Sub>, here: Split, one: seq<Sub>, more: Split)
    requires whole == Split(done + here.subs, here.status) && here == Split(one + more.subs, more.status)
    ensures whole == Split(done + one + more.subs, more.status)
    ensures more.subs == [] ==> whole == Split(done + one, more.status)
  {
    Assoc(done, one, more.subs);
  }

  lemma HeadIs(s: seq<byte>, head: seq<byte>, rest: seq<byte>)
    requires s == head + rest && |head| == HEADER
    ensures |s| == HEADER + |rest| && s[HEADER..] == rest && forall k :: 0 <= k < HEADER ==> s[k] == head[k]
  {
  }

  lemma SubIs(s: seq<byte>, head: seq<byte>, rest: seq<byte>, time: uint32, base: uint32)
    requires s == head + rest && |head| == HEADER && OfBe24(head[1], head[2], head[3]) <= |rest|
    ensures var mlen := OfBe24(head[1], head[2], head[3]);
            SubOf(s, mlen, time, base) ==
            Sub(head[0], mlen, Sub32(Add32(time, TimeOf(head)), base), OfBe24(head[8], head[9], head[10]), rest[..mlen])
  {
    HeadIs(s, head, rest);
    var mlen := OfBe24(head[1], head[2], head[3]);
    assert s[HEADER..HEADER + mlen] == rest[..mlen];
  }
}
