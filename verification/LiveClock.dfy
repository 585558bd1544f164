/**
  * Per-subscriber clocks of ngx_rtmp_live_module.c: what one status change and one broadcast packet do to one
  * subscriber, and the law that ties its clocks to the publisher's.
  */
module LiveClock {
  import opened Bytes

  const NULL: int := -1
  const KEY_FRAME: nat := 1

  datatype Clock = Clock(active: bool, timestamp: uint32, dropped: uint32)

  /** The clocks of the video and of the audio chunk stream. */
  datatype Clocks = Clocks(video: Clock, audio: Clock)

  datatype Ctx = Ctx(stream: int, publishing: bool, active: bool, paused: bool, finalized: bool, cs: Clocks)

  datatype Conf = Conf(interleave: bool, waitKey: bool, waitVideo: bool, sync: nat, idleStreams: bool)

  /** An audio or video packet, and whether codec headers exist for it and, interleaved, for its counterpart. */
  datatype Packet = Packet(video: bool, timestamp: uint32, priority: nat, mandatory: bool, header: bool, coheader: bool)

  /** Which messages the subscriber's output queue would take. */
  datatype Answers = Answers(status: bool, header: bool, coheader: bool, packet: bool)

  const STOPPED := Clock(false, 0, 0)

  function Get(cs: Clocks, first: bool): Clock {
    if first then cs.video else cs.audio
  }

  function Set(cs: Clocks, first: bool, c: Clock): Clocks {
    if first then cs.(video := c) else cs.(audio := c)
  }

  /** Whether a packet runs on the first clock. */
  predicate First(conf: Conf, p: Packet) {
    conf.interleave || p.video
  }

  // ----- Status changes

  function Quiet(c: Clock): Clock {
    c.(active := false, dropped := 0)
  }

  /** A subscriber is told that the stream starts or stops. */
  function Told(c: Ctx, active: bool, ok: bool): Ctx {
    if c.active == active then c
    else if !ok then c.(active := active, finalized := true)
    else c.(active := active, cs := Clocks(Quiet(c.cs.video), Quiet(c.cs.audio)))
  }

  // ----- One packet

  /** What a subscriber gets: nothing, the packet with an absolute time, or the packet with a time difference. */
  datatype Turn = Skip(clock: Clock) | Absolute(clock: Clock) | Relative(clock: Clock)

  /** Too much dropped: the clock is restarted. */
  function Synced(conf: Conf, c: Clock): Clock {
    if c.active && conf.sync != 0 && c.dropped > conf.sync then Quiet(c) else c
  }

  /** The packet must not be the first one a subscriber sees. */
  predicate Waits(conf: Conf, p: Packet, cs: Clocks) {
    || p.mandatory
    || (conf.waitVideo && !p.video && !cs.video.active)
    || (conf.waitKey && p.priority != KEY_FRAME && First(conf, p))
  }

  /** The choice for one subscriber, with its clock as it is when the packet itself is offered. */
  function Choose(conf: Conf, p: Packet, base: uint32, cs: Clocks, a: Answers): Turn {
    var c := Synced(conf, Get(cs, First(conf, p)));
    if c.active then Relative(c)
    else if Waits(conf, p, Set(cs, First(conf, p), c)) then Skip(c)
    else if p.header || p.coheader then
      if (p.header && !a.header) || (p.coheader && !a.coheader) then Skip(c)
      else Relative(c.(active := true, timestamp := base))
    else if a.packet then Absolute(c.(active := true, timestamp := p.timestamp))
    else Skip(c)
  }

  /** The packet with a time difference is taken, or its time is counted as dropped. */
  function Advanced(c: Clock, delta: uint32, taken: bool): Clock {
    if taken then c.(timestamp := Add32(c.timestamp, delta)) else c.(dropped := Add32(c.dropped, delta))
  }

  /** The subscriber after the packet; `base` is the publisher's time before it. */
  function Heard(conf: Conf, p: Packet, base: uint32, c: Ctx, a: Answers): Ctx {
    var turn := Choose(conf, p, base, c.cs, a);
    if turn.Relative? then
      c.(cs := Set(c.cs, First(conf, p), Advanced(turn.clock, Sub32(p.timestamp, base), a.packet)),
         finalized := c.finalized || (p.mandatory && !a.packet))
    else c.(cs := Set(c.cs, First(conf, p), turn.clock))
  }

  // ----- What a subscriber gets, case by case

  /** The packet moves the clock of its kind; interleaved, there is one clock for both. */
  ghost function ClockFor(interleave: bool, video: bool, cs: Clocks): Clock {
    if interleave || video then cs.video else cs.audio
  }

  /** The publisher's time before the packet. */
  ghost function TimeBefore(conf: Conf, p: Packet, publisher: Clocks): uint32 {
    var own := ClockFor(conf.interleave, p.video, publisher);
    if own.active then own.timestamp else p.timestamp
  }

  /** A clock that has dropped more than the limit starts again, as one that has not started. */
  ghost predicate Starting(conf: Conf, c: Clock) {
    !c.active || (conf.sync > 0 && c.dropped > conf.sync)
  }

  /** The packet may be the first one: no codec header, no audio before video, and no video but from a key frame on. */
  ghost predicate MayStart(conf: Conf, p: Packet, cs: Clocks) {
    && !p.mandatory
    && (conf.waitVideo && !p.video ==> !conf.interleave && cs.video.active)
    && (conf.waitKey && (conf.interleave || p.video) ==> p.priority == 1)
  }

  /**
    * The clock `c` of a subscriber becomes `d`. A clock that is running moves by the time since the publisher's last
    * packet, or counts it as dropped. One that is starting stays as it is until a packet may start it and everything
    * in front of that packet is taken; it then shows the packet's time, or the one before if only headers are taken.
    */
  ghost predicate Moved(conf: Conf, p: Packet, before: uint32, cs: Clocks, c: Clock, d: Clock, a: Answers) {
    var delta := (p.timestamp - before) % 0x1_0000_0000;
    && (!Starting(conf, c) && a.packet ==> d == Clock(true, (c.timestamp + delta) % 0x1_0000_0000, c.dropped))
    && (!Starting(conf, c) && !a.packet ==> d == Clock(true, c.timestamp, (c.dropped + delta) % 0x1_0000_0000))
    && (Starting(conf, c) ==>
          var waiting := Clock(false, c.timestamp, if c.active then 0 else c.dropped);
          var headers := p.header || p.coheader;
          if !MayStart(conf, p, cs) || (p.header && !a.header) || (p.coheader && !a.coheader) || (!headers && !a.packet)
          then d == waiting
          else if a.packet then d == Clock(true, p.timestamp, waiting.dropped)
          else d == Clock(true, before, (waiting.dropped + delta) % 0x1_0000_0000))
  }

  /** What the packet does to a subscriber: one clock moves, and a refused codec header ends a session that needs it. */
  ghost predicate Served(conf: Conf, p: Packet, before: uint32, c: Ctx, d: Ctx, a: Answers) {
    && Moved(conf, p, before, c.cs, ClockFor(conf.interleave, p.video, c.cs),
             ClockFor(conf.interleave, p.video, d.cs), a)
    && (conf.interleave || p.video ==> d.cs.audio == c.cs.audio)
    && (!conf.interleave && !p.video ==> d.cs.video == c.cs.video)
    && d.stream == c.stream && d.publishing == c.publishing && d.active == c.active && d.paused == c.paused
    && (d.finalized <==> c.finalized
                         || (p.mandatory && !a.packet && !Starting(conf, ClockFor(conf.interleave, p.video, c.cs))))
  }

  /** The clock after the choice and what came of it. */
  function Outcome(p: Packet, before: uint32, turn: Turn, a: Answers): Clock {
    if turn.Relative? then Advanced(turn.clock, Sub32(p.timestamp, before), a.packet) else turn.clock
  }

  lemma RunningMoves(conf: Conf, p: Packet, before: uint32, cs: Clocks, c: Clock, a: Answers)
    requires c == ClockFor(conf.interleave, p.video, cs) && !Starting(conf, c)
    ensures Moved(conf, p, before, cs, c, Outcome(p, before, Choose(conf, p, before, cs, a), a), a)
  {
    assert Choose(conf, p, before, cs, a) == Relative(c);
  }

  lemma StartingWaits(conf: Conf, p: Packet, cs: Clocks, c: Clock)
    requires c == ClockFor(conf.interleave, p.video, cs) && Starting(conf, c)
    ensures Synced(conf, c) == Clock(false, c.timestamp, if c.active then 0 else c.dropped)
    ensures Waits(conf, p, Set(cs, First(conf, p), Synced(conf, c))) <==> !MayStart(conf, p, cs)
  {
  }

  lemma StartingMoves(conf: Conf, p: Packet, before: uint32, cs: Clocks, c: Clock, a: Answers)
    requires c == ClockFor(conf.interleave, p.video, cs) && Starting(conf, c)
    ensures Moved(conf, p, before, cs, c, Outcome(p, before, Choose(conf, p, before, cs, a), a), a)
  {
    StartingWaits(conf, p, cs, c);
    SubThenAdd32(p.timestamp, before);
  }

  lemma HeardIsServed(conf: Conf, p: Packet, publisher: Clocks, c: Ctx, a: Answers)
    ensures Served(conf, p, TimeBefore(conf, p, publisher), c,
                   Heard(conf, p, Base(p, Get(publisher, First(conf, p))), c, a), a)
  {
    var before, k := TimeBefore(conf, p, publisher), ClockFor(conf.interleave, p.video, c.cs);
    if Starting(conf, k) {
      StartingMoves(conf, p, before, c.cs, k, a);
    } else {
      RunningMoves(conf, p, before, c.cs, k, a);
    }
    ServedBy(conf, p, before, c, a);
  }

  lemma ServedBy(conf: Conf, p: Packet, before: uint32, c: Ctx, a: Answers)
    requires Moved(conf, p, before, c.cs, ClockFor(conf.interleave, p.video, c.cs),
                   Outcome(p, before, Choose(conf, p, before, c.cs, a), a), a)
    ensures Served(conf, p, before, c, Heard(conf, p, before, c, a), a)
  {
    var turn := Choose(conf, p, before, c.cs, a);
    assert Heard(conf, p, before, c, a).cs == Set(c.cs, First(conf, p), Outcome(p, before, turn, a));
    HeaderGoesTo(conf, p, c.cs, ClockFor(conf.interleave, p.video, c.cs), before, a);
  }

  /** A codec header is only offered to a clock that is running. */
  lemma HeaderGoesTo(conf: Conf, p: Packet, cs: Clocks, c: Clock, before: uint32, a: Answers)
    requires c == ClockFor(conf.interleave, p.video, cs)
    ensures p.mandatory ==> (Choose(conf, p, before, cs, a).Relative? <==> !Starting(conf, c))
  {
  }

  /**
    * A subscriber whose queue takes everything and whose clock is not running: the packet starts it, at the packet's
    * time and with nothing dropped, if and only if it may be the first one; otherwise the clock stays as it was.
    */
  lemma StartsExactly(conf: Conf, p: Packet, before: uint32, c: Ctx, d: Ctx, a: Answers)
    requires Served(conf, p, before, c, d, a) && a.header && a.coheader && a.packet
    requires var k := ClockFor(conf.interleave, p.video, c.cs); !k.active && k.dropped == 0
    ensures var k, l := ClockFor(conf.interleave, p.video, c.cs), ClockFor(conf.interleave, p.video, d.cs);
            if MayStart(conf, p, c.cs) then l == Clock(true, p.timestamp, 0) else l == k
  {
  }

  // ----- The law

  /** The time a subscriber was sent plus the time it dropped is the publisher's time, modulo 2^32. */
  ghost predicate Follows(c: Clock, publisher: Clock) {
    if c.active then publisher.active && Add32(c.timestamp, c.dropped) == publisher.timestamp else c.dropped == 0
  }

  ghost predicate Lawful(c: Ctx, publisher: Clocks, running: bool) {
    !c.finalized ==>
      && Follows(c.cs.video, publisher.video) && Follows(c.cs.audio, publisher.audio)
      && (!running || c.paused || !c.active ==> !c.cs.video.active && !c.cs.audio.active)
      && (running && !c.paused ==> c.active)
  }

  /** The publisher's own clock over a packet. */
  function Base(p: Packet, c: Clock): uint32 {
    if c.active then c.timestamp else p.timestamp
  }

  function Published(conf: Conf, p: Packet, cs: Clocks): Clocks {
    Set(cs, First(conf, p), Get(cs, First(conf, p)).(active := true, timestamp := p.timestamp))
  }

  lemma AdvanceFollows(c: Clock, publisher: Clock, p: Packet, taken: bool)
    requires c.active && Add32(c.timestamp, c.dropped) == Base(p, publisher)
    ensures Follows(Advanced(c, Sub32(p.timestamp, Base(p, publisher)), taken),
                    publisher.(active := true, timestamp := p.timestamp))
  {
    Add32Moves(c.timestamp, c.dropped, Base(p, publisher), p.timestamp);
  }

  /** A broadcast packet keeps the law for every subscriber it is offered to. */
  lemma HeardKeeps(conf: Conf, p: Packet, publisher: Clocks, c: Ctx, a: Answers)
    requires Lawful(c, publisher, true) && !c.paused
    ensures Lawful(Heard(conf, p, Base(p, Get(publisher, First(conf, p))), c, a), Published(conf, p, publisher), true)
  {
    var own := Get(publisher, First(conf, p));
    var turn := Choose(conf, p, Base(p, own), c.cs, a);
    if turn.Relative? && !c.finalized {
      AdvanceFollows(turn.clock, own, p, a.packet);
    }
  }

  /** A paused subscriber keeps the law while the publisher's clock moves. */
  lemma PausedKeeps(conf: Conf, p: Packet, publisher: Clocks, c: Ctx)
    requires Lawful(c, publisher, true) && c.paused
    ensures Lawful(c, Published(conf, p, publisher), true)
  {
  }

  /** With a sync limit, a time difference is only ever sent while no more than that has been dropped. */
  lemma RelativeWithinSync(conf: Conf, p: Packet, publisher: Clocks, c: Ctx, a: Answers)
    requires Lawful(c, publisher, true) && !c.finalized && conf.sync != 0
    requires Choose(conf, p, Base(p, Get(publisher, First(conf, p))), c.cs, a).Relative?
    ensures Choose(conf, p, Base(p, Get(publisher, First(conf, p))), c.cs, a).clock.dropped <= conf.sync
  {
  }

  /** Starting or stopping restarts the clocks, so the law holds whatever the publisher's clocks are next. */
  lemma ToldStops(c: Ctx, publisher: Clocks, later: Clocks, running: bool, active: bool, ok: bool)
    requires Lawful(c, publisher, running)
    requires running != active
    ensures Lawful(Told(c, active, ok), later, active)
  {
  }

  // ----- Pausing and joining

  /** A subscriber pauses or resumes, and is told to stop or start. */
  function Paused(c: Ctx, pause: bool, ok: bool): Ctx {
    Told(c.(paused := pause), !pause, ok)
  }

  lemma PausingKeeps(c: Ctx, publisher: Clocks, running: bool, pause: bool, ok: bool)
    requires Lawful(c, publisher, running)
    ensures Lawful(Paused(c, pause, ok), publisher, running)
  {
  }

  function Fresh(stream: int, publishing: bool, finalized: bool): Ctx {
    Ctx(stream, publishing, false, false, finalized, Clocks(STOPPED, STOPPED))
  }

  lemma FreshIsLawful(stream: int, finalized: bool, publisher: Clocks, running: bool, ok: bool)
    ensures Lawful(if running then Told(Fresh(stream, false, finalized), true, ok) else Fresh(stream, false, finalized),
                   publisher, running)
  {
  }
}
