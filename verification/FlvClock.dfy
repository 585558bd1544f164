/**
  * The times an FLV player sends and the clock of the receiver. Every frame read becomes the one that the next frame of
  * its kind is relative to, whether it is sent or not (ngx_rtmp_flv_send); the receiver adds up what it is sent.
  */
module FlvClock {
  import opened Bytes

  /** One kind of frames: the time of the last one read, and whether one has been taken by the queue. */
  datatype Kind = Kind(last: uint32, taken: bool)

  /** A frame read: its time, and whether the queue took it. One that is too big to be offered is not taken either. */
  datatype Sight = Sight(time: uint32, taken: bool)

  /** The time a frame is sent relative to: the last one read, once a frame of its kind has been taken. */
  function Before(k: Kind): Option<uint32> {
    if k.taken then Some(k.last) else None
  }

  function Read(k: Kind, s: Sight): Kind {
    Kind(s.time, k.taken || s.taken)
  }

  /** A receiver's clock after a frame at `time`, sent relative to `last`. */
  function Heard(clock: uint32, last: Option<uint32>, time: uint32): uint32 {
    if last.None? then time else Add32(clock, Sub32(time, last.value))
  }

  function Hears(clock: uint32, k: Kind, s: Sight): uint32 {
    if s.taken then Heard(clock, Before(k), s.time) else clock
  }

  /** The time that passes in a frame that is not taken, once one has been. */
  function Missed(k: Kind, s: Sight): uint32 {
    if k.taken && !s.taken then Sub32(s.time, k.last) else 0
  }

  /** How far the receiver's clock is behind the last frame read. */
  function Lag(clock: uint32, k: Kind): uint32 {
    if k.taken then Sub32(k.last, clock) else 0
  }

  lemma LagStep(clock: uint32, k: Kind, s: Sight)
    ensures Lag(Hears(clock, k, s), Read(k, s)) == Add32(Lag(clock, k), Missed(k, s))
  {
    if k.taken {
      Sub32Cases(s.time, k.last);
      Sub32Cases(k.last, clock);
      if s.taken {
        Add32Cases(clock, Sub32(s.time, k.last));
        Sub32Cases(s.time, Add32(clock, Sub32(s.time, k.last)));
        Add32Cases(Lag(clock, k), 0);
      } else {
        Sub32Cases(s.time, clock);
        Add32Cases(Sub32(k.last, clock), Sub32(s.time, k.last));
      }
    } else {
      Add32Cases(0, 0);
      Sub32Cases(s.time, s.time);
    }
  }

  // ----- Runs: all frames of one kind, in the order they are read

  function KindAfter(k: Kind, ss: seq<Sight>): Kind {
    if ss == [] then k else Read(KindAfter(k, ss[..|ss| - 1]), ss[|ss| - 1])
  }

  function ClockAfter(clock: uint32, k: Kind, ss: seq<Sight>): uint32 {
    if ss == [] then clock
    else
      var n := |ss| - 1;
      Hears(ClockAfter(clock, k, ss[..n]), KindAfter(k, ss[..n]), ss[n])
  }

  /** The time that passed in frames that were not taken, after the first one that was. */
  function Lost(k: Kind, ss: seq<Sight>): uint32 {
    if ss == [] then 0
    else
      var n := |ss| - 1;
      Add32(Lost(k, ss[..n]), Missed(KindAfter(k, ss[..n]), ss[n]))
  }

  lemma Add32Assoc(a: uint32, b: uint32, c: uint32)
    ensures Add32(Add32(a, b), c) == Add32(a, Add32(b, c))
  {
    Add32Cases(a, b);
    Add32Cases(b, c);
    Add32Cases(Add32(a, b), c);
    Add32Cases(a, Add32(b, c));
  }

  /** In every run, the receiver falls behind by exactly the time lost. */
  lemma {:induction false} LagIsLost(clock: uint32, k: Kind, ss: seq<Sight>)
    ensures Lag(ClockAfter(clock, k, ss), KindAfter(k, ss)) == Add32(Lag(clock, k), Lost(k, ss))
  {
    if ss == [] {
      Add32Cases(Lag(clock, k), 0);
    } else {
      var n := |ss| - 1;
      var p := ss[..n];
      LagIsLost(clock, k, p);
      LagStep(ClockAfter(clock, k, p), KindAfter(k, p), ss[n]);
      Add32Assoc(Lag(clock, k), Lost(k, p), Missed(KindAfter(k, p), ss[n]));
    }
  }

  lemma {:induction false} KindAfterIs(k: Kind, ss: seq<Sight>)
    ensures KindAfter(k, ss).taken <==> k.taken || exists i :: 0 <= i < |ss| && ss[i].taken
    ensures ss != [] ==> KindAfter(k, ss).last == ss[|ss| - 1].time
  {
    if ss != [] {
      KindAfterIs(k, ss[..|ss| - 1]);
    }
  }

  /** Once a frame has been taken, the clock and the time lost together are the time of the last frame read. */
  lemma ClockLaw(clock: uint32, k: Kind, ss: seq<Sight>, i: nat)
    requires !k.taken && i < |ss| && ss[i].taken
    ensures Add32(ClockAfter(clock, k, ss), Lost(k, ss)) == ss[|ss| - 1].time
    ensures ClockAfter(clock, k, ss) == ss[|ss| - 1].time <==> Lost(k, ss) == 0
  {
    LagIsLost(clock, k, ss);
    KindAfterIs(k, ss);
    var c, lost, last := ClockAfter(clock, k, ss), Lost(k, ss), ss[|ss| - 1].time;
    Add32Cases(0, lost);
    Sub32Cases(last, c);
    Add32Cases(c, lost);
  }

  // ----- When every frame is heard at its own time

  /** Frame `n`, if it is taken, leaves the receiver's clock at its own time. */
  ghost predicate HeardRight(clock: uint32, k: Kind, ss: seq<Sight>, n: nat)
    requires n < |ss|
  {
    ss[n].taken ==> ClockAfter(clock, k, ss[..n + 1]) == ss[n].time
  }

  /** The frame before frame `n` has the time of the last frame taken before `n`: nothing was lost in between. */
  ghost predicate NoGap(ss: seq<Sight>, n: nat)
    requires n < |ss|
  {
    forall i :: 0 <= i < n && ss[n].taken && LastTaken(ss, i, n) ==> ss[n - 1].time == ss[i].time
  }

  ghost predicate LastTaken(ss: seq<Sight>, i: nat, n: nat)
    requires i < n <= |ss|
  {
    ss[i].taken && forall j :: i < j < n ==> !ss[j].taken
  }

  /** As long as no frame is taken, the clock stays. */
  lemma {:induction false} ClockStays(clock: uint32, k: Kind, ss: seq<Sight>, i: nat, n: nat)
    requires i <= n <= |ss| && forall j :: i <= j < n ==> !ss[j].taken
    ensures ClockAfter(clock, k, ss[..n]) == ClockAfter(clock, k, ss[..i])
    decreases n
  {
    if i < n {
      assert ss[..n][..n - 1] == ss[..n - 1];
      ClockStays(clock, k, ss, i, n - 1);
    }
  }

  /** Frame `n` is heard right exactly when there is no gap before it, if the frame taken last was. */
  lemma RightExactly(clock: uint32, k: Kind, ss: seq<Sight>, i: nat, n: nat)
    requires i < n < |ss| && LastTaken(ss, i, n) && ss[n].taken && HeardRight(clock, k, ss, i)
    ensures HeardRight(clock, k, ss, n) <==> ss[n - 1].time == ss[i].time
  {
    var p := ss[..n];
    assert ss[..n + 1][..n] == p;
    ClockStays(clock, k, ss, i + 1, n);
    assert p[i].taken;
    KindAfterIs(k, p);
    var c, last, t := ClockAfter(clock, k, p), ss[n - 1].time, ss[n].time;
    assert c == ss[i].time && ClockAfter(clock, k, ss[..n + 1]) == Add32(c, Sub32(t, last));
    Sub32Cases(t, last);
    Add32Cases(c, Sub32(t, last));
  }

  lemma FirstIsRight(clock: uint32, k: Kind, ss: seq<Sight>, n: nat)
    requires !k.taken && n < |ss| && forall j :: 0 <= j < n ==> !ss[j].taken
    ensures HeardRight(clock, k, ss, n) && NoGap(ss, n)
  {
    assert ss[..n + 1][..n] == ss[..n];
    KindAfterIs(k, ss[..n]);
  }

  lemma {:induction false} FindLastTaken(ss: seq<Sight>, n: nat) returns (i: nat)
    requires n <= |ss| && exists j :: 0 <= j < n && ss[j].taken
    ensures i < n && LastTaken(ss, i, n)
  {
    if ss[n - 1].taken {
      i := n - 1;
    } else {
      i := FindLastTaken(ss, n - 1);
    }
  }

  lemma LastTakenUnique(ss: seq<Sight>, i: nat, j: nat, n: nat)
    requires i < n <= |ss| && j < n && LastTaken(ss, i, n) && LastTaken(ss, j, n)
    ensures i == j
  {
  }

  /** All frames before frame `n` are heard right exactly when there is no gap before any of them. */
  lemma {:induction false} RightUpTo(clock: uint32, k: Kind, ss: seq<Sight>, n: nat)
    requires !k.taken && n <= |ss|
    ensures (forall j :: 0 <= j < n ==> HeardRight(clock, k, ss, j)) <==> (forall j :: 0 <= j < n ==> NoGap(ss, j))
  {
    if n > 0 {
      RightUpTo(clock, k, ss, n - 1);
      if forall j :: 0 <= j < n - 1 ==> HeardRight(clock, k, ss, j) {
        RightNext(clock, k, ss, n - 1);
      }
    }
  }

  lemma RightNext(clock: uint32, k: Kind, ss: seq<Sight>, n: nat)
    requires !k.taken && n < |ss| && forall j :: 0 <= j < n ==> HeardRight(clock, k, ss, j)
    ensures HeardRight(clock, k, ss, n) <==> NoGap(ss, n)
  {
    if ss[n].taken {
      if exists j :: 0 <= j < n && ss[j].taken {
        var i := FindLastTaken(ss, n);
        RightExactly(clock, k, ss, i, n);
        forall j | 0 <= j < n && LastTaken(ss, j, n) ensures j == i {
          LastTakenUnique(ss, i, j, n);
        }
      } else {
        FirstIsRight(clock, k, ss, n);
      }
    }
  }

  /**
    * Every frame that is taken is heard at its own time, if and only if no time passes in the frames lost between two
    * that are taken.
    */
  lemma AlwaysRight(clock: uint32, k: Kind, ss: seq<Sight>)
    requires !k.taken
    ensures (forall n :: 0 <= n < |ss| ==> HeardRight(clock, k, ss, n))
            <==> (forall n :: 0 <= n < |ss| ==> NoGap(ss, n))
  {
    RightUpTo(clock, k, ss, |ss|);
  }

  /** Three frames at 0, 10 and 20 without the second: the receiver's clock ends at 10. */
  lemma MiddleLost(clock: uint32, k: Kind)
    requires !k.taken
    ensures var ss := [Sight(0, true), Sight(10, false), Sight(20, true)];
            ClockAfter(clock, k, ss) == 10 && Lost(k, ss) == 10
  {
    var s0, s1, s2 := Sight(0, true), Sight(10, false), Sight(20, true);
    assert [s0, s1, s2][..2] == [s0, s1] && [s0, s1][..1] == [s0] && [s0][..0] == [];
    assert KindAfter(k, [s0]) == Kind(0, true) && ClockAfter(clock, k, [s0]) == 0;
    assert KindAfter(k, [s0, s1]) == Kind(10, true) && ClockAfter(clock, k, [s0, s1]) == 0;
    assert Lost(k, [s0]) == 0 && Lost(k, [s0, s1]) == 10;
  }
}
