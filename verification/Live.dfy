/**
  * ngx_rtmp_live_module.c: sessions join, leave, pause, start, stop and broadcast. Whether a session's output queue
  * takes a message is a parameter of each operation.
  */
module Live {
  import opened Bytes
  import opened LiveClock
  import opened LiveRegistry

  datatype JoinResult = Entered | AlreadyJoined | NotFound | Taken

  /** The members before `i` have been told. */
  ghost predicate ToldBefore(s0: seq<Ctx>, s: seq<Ctx>, members: seq<nat>, i: nat, me: nat, active: bool,
                             ok: nat -> bool) {
    i <= |members| && Tells(s0, s, members[..i], me, active, ok)
  }

  lemma NextIsNew(members: seq<nat>, i: nat)
    requires NoDup(members) && i < |members|
    ensures members[i] !in members[..i]
    ensures forall m: nat :: m in members[..i + 1] <==> m in members[..i] || m == members[i]
  {
    assert members[..i + 1] == members[..i] + [members[i]];
  }

  lemma TellStep(s0: seq<Ctx>, s: seq<Ctx>, members: seq<nat>, i: nat, me: nat, active: bool, ok: nat -> bool)
    requires ToldBefore(s0, s, members, i, me, active, ok) && i < |members| && NoDup(members)
    requires members[i] < |s0| && me < |s0| && s0[me].publishing
    ensures s[members[i]].publishing == s0[members[i]].publishing
    ensures var m := members[i];
            ToldBefore(s0, if s[m].publishing then s
                else s[m := Told(s[m], active, ok(m))], members, i + 1, me, active, ok)
  {
    NextIsNew(members, i);
    assert Known(members[i]) && Known(me);
  }

  class Registry {
    const conf: Conf
    const hash: string -> nat
    var sessions: seq<Ctx>
    var streams: seq<Stream>
    var buckets: seq<seq<nat>>
    var free: seq<nat>
    ghost var live: set<nat>
    ghost var pub: seq<int>

    /** The index is in order, every stream and every pointer is, and every subscriber's clock obeys the law. */
    ghost predicate Valid()
      reads this
    {
      IndexOk(hash, streams, buckets, free, live) && WorldOk(sessions, streams, live, pub)
    }

    constructor (conf: Conf, hash: string -> nat, nbuckets: nat)
      requires nbuckets > 0
      ensures Valid() && sessions == [] && live == {}
    {
      this.conf, this.hash := conf, hash;
      sessions, streams, free, live, pub := [], [], [], {}, [];
      buckets := seq(nbuckets, _ => []);
    }

    /** A new session, not joined to any stream. */
    method Connect() returns (x: nat)
      requires Valid()
      modifies this`sessions
      ensures Valid() && x == |old(sessions)| && sessions == old(sessions) + [Fresh(NULL, false, false)]
    {
      x := |sessions|;
      ConnectKeeps(sessions, streams, live, pub);
      sessions := sessions + [Fresh(NULL, false, false)];
    }

    // ----- Looking up streams

    /** The place of a name in its bucket, or the end of the bucket. */
    method Find(name: string) returns (b: nat, i: nat)
      requires IndexOk(hash, streams, buckets, free, live)
      ensures b == Bucket(hash, name, |buckets|) && b < |buckets| && i <= |buckets[b]|
      ensures i < |buckets[b]| ==>
                buckets[b][i] in live && buckets[b][i] < |streams| && streams[buckets[b][i]].name == name
      ensures i == |buckets[b]| ==> Absent(streams, live, name)
    {
      b, i := Bucket(hash, name, |buckets|), 0;
      assert Known(b);
      while i < |buckets[b]|
        invariant i <= |buckets[b]|
        invariant forall k :: 0 <= k < i ==> buckets[b][k] < |streams| && streams[buckets[b][k]].name != name
      {
        assert buckets[b][i] in buckets[b];
        if streams[buckets[b][i]].name == name {
          return;
        }
        i := i + 1;
      }
    }

    /** ngx_rtmp_live_get_stream. A stream just created has no member yet. */
    method GetStream(name: string, create: bool) returns (found: bool, id: nat)
      requires Valid() && |name| < MAX_NAME
      modifies this`streams, this`buckets, this`free, this`live, this`pub
      ensures IndexOk(hash, streams, buckets, free, live)
      ensures found <==> create || !old(Absent(streams, live, name))
      ensures !found ==> streams == old(streams) && live == old(live) && pub == old(pub)
      ensures found ==> id in live && id < |streams| == |pub| && streams[id].name == name
      ensures found ==> Open(sessions, streams, live, pub, id)
      ensures found && !old(Absent(streams, live, name)) ==>
                streams == old(streams) && live == old(live) && pub == old(pub)
                    && StreamOk(sessions, streams[id], id, pub[id])
      ensures found && old(Absent(streams, live, name)) ==> Empty(streams[id], pub[id])
    {
      var b, i := Find(name);
      if i < |buckets[b]| {
        id := buckets[b][i];
        assert Known(id);
        Carve(sessions, streams, live, pub, id);
        return true, id;
      }
      if !create {
        return false, 0;
      }
      id := Create(name, b);
      return true, id;
    }

    method Create(name: string, b: nat) returns (id: nat)
      requires Valid() && |name| < MAX_NAME && Absent(streams, live, name) && b == Bucket(hash, name, |buckets|)
      modifies this`streams, this`buckets, this`free, this`live, this`pub
      ensures IndexOk(hash, streams, buckets, free, live)
      ensures id < |streams| == |pub| && streams[id].name == name
      ensures Open(sessions, streams, live, pub, id) && Empty(streams[id], pub[id])
    {
      var st := Stream(name, [], false, false);
      IndexAdd(hash, streams, buckets, free, live, st);
      id := NewId(streams, free);
      NobodyAt(sessions, streams, live, pub, id);
      ghost var pub' := if id < |streams| then pub[id := NULL] else pub + [NULL];
      Carve(sessions, streams, live, pub, id);
      AroundFrame(sessions, streams, live, pub, id, sessions, Placed(streams, id, st), live + {id}, pub');
      if free != [] {
        free := free[1..];
      }
      streams := Placed(streams, id, st);
      buckets := buckets[b := buckets[b] + [id]];
      live, pub := live + {id}, pub';
    }

    // ----- Status

    /** ngx_rtmp_live_set_status for a subscriber. */
    method Tell(m: nat, active: bool, ok: bool)
      requires m < |sessions|
      modifies this`sessions
      ensures sessions == old(sessions)[m := Told(old(sessions)[m], active, ok)]
      ensures var c, d := old(sessions)[m], sessions[m];
              && d == c.(active := active, finalized := d.finalized, cs := d.cs) && (c.active == active ==> d == c)
              && (c.active != active && ok ==>
                    d.finalized == c.finalized && d.cs.video == Clock(false, c.cs.video.timestamp, 0)
                    && d.cs.audio == Clock(false, c.cs.audio.timestamp, 0))
              && (c.active != active && !ok ==> d.finalized && d.cs == c.cs)
    {
      var c := sessions[m];
      if c.active == active {
        return;
      }
      c := c.(active := active);
      if ok {
        c := c.(cs := c.cs.(video := c.cs.video.(active := false, dropped := 0)));
        c := c.(cs := c.cs.(audio := c.cs.audio.(active := false, dropped := 0)));
      } else {
        c := c.(finalized := true);
      }
      sessions := sessions[m := c];
    }

    /** ngx_rtmp_live_set_status for a publisher. */
    method TellAll(x: nat, id: nat, active: bool, ok: nat -> bool)
      requires x < |sessions| && id < |streams| && sessions[x].publishing
      requires NoDup(streams[id].members) && forall i :: 0 <= i < |streams[id].members| ==>
                 streams[id].members[i] < |sessions|
      modifies this`sessions, this`streams
      ensures old(sessions)[x].active == active ==> sessions == old(sessions) && streams == old(streams)
      ensures old(sessions)[x].active != active ==>
                && Tells(old(sessions), sessions, old(streams)[id].members, x, active, ok)
                && streams == old(streams)[id := old(streams)[id].(active := active)]
    {
      if sessions[x].active == active {
        return;
      }
      sessions := sessions[x := sessions[x].(active := active)];
      streams := streams[id := streams[id].(active := active)];
      var members := streams[id].members;
      var i: nat := 0;
      while i < |members|
        invariant streams == old(streams)[id := old(streams)[id].(active := active)]
        invariant ToldBefore(old(sessions), sessions, members, i, x, active, ok)
      {
        var m := members[i];
        TellStep(old(sessions), sessions, members, i, x, active, ok);
        if !sessions[m].publishing {
          Tell(m, active, ok(m));
        }
        i := i + 1;
      }
      assert members[..i] == members;
    }

    /** ngx_rtmp_live_start and ngx_rtmp_live_stop on a joined session. */
    method SetStatus(x: nat, active: bool, ok: nat -> bool)
      requires x < |sessions| && sessions[x].stream != NULL && (sessions[x].publishing ==> Valid())
      modifies this`sessions, this`streams
      ensures |sessions| == |old(sessions)| && |streams| == |old(streams)|
      ensures old(sessions)[x].publishing ==> Valid()
      ensures old(sessions)[x].publishing && old(sessions)[x].active != active ==>
                && 0 <= old(sessions)[x].stream < |old(streams)|
                && Tells(old(sessions), sessions, old(streams)[old(sessions)[x].stream].members, x, active, ok)
                && var id := old(sessions)[x].stream;
                streams == old(streams)[id := old(streams)[id].(active := active)]
      ensures old(sessions)[x].publishing && old(sessions)[x].active == active ==>
                sessions == old(sessions) && streams == old(streams)
      ensures !old(sessions)[x].publishing ==>
                sessions == old(sessions)[x := Told(old(sessions)[x], active, ok(x))] && streams == old(streams)
    {
      if sessions[x].publishing {
        var id := sessions[x].stream;
        assert Known(x) && Known(id);
        assert forall i {:trigger streams[id].members[i]} :: 0 <= i < |streams[id].members| ==>
                 Known(streams[id].members[i]);
        TellAll(x, id, active, ok);
        if old(sessions)[x].active != active {
          TellWorld(old(sessions), old(streams), live, pub, id, x, sessions, active, ok);
          IndexFrame(hash, old(streams), streams, buckets, free, live);
          assert pub[id := x] == pub;
        }
      } else {
        Tell(x, active, ok(x));
      }
    }

    /** A publisher's stream begins or ends. */
    method Begin(x: nat, active: bool, ok: nat -> bool)
      requires Valid() && x < |sessions|
      modifies this`sessions, this`streams
      ensures Valid() && |sessions| == |old(sessions)|
      ensures !old(sessions)[x].publishing || old(sessions)[x].stream == NULL ==> sessions == old(sessions)
      ensures old(sessions)[x].publishing && old(sessions)[x].stream != NULL ==>
                && 0 <= old(sessions)[x].stream < |old(streams)|
                && if old(sessions)[x].active == active then sessions == old(sessions)
                   else Tells(old(sessions), sessions, old(streams)[old(sessions)[x].stream].members, x, active, ok)
    {
      assert Known(x);
      if sessions[x].stream != NULL && sessions[x].publishing {
        SetStatus(x, active, ok);
        assert Known(x);
      }
    }

    /** ngx_rtmp_finalize_session: closing is only posted. */
    method Finalize(x: nat)
      requires Valid() && x < |sessions|
      modifies this`sessions
      ensures Valid() && sessions == old(sessions)[x := old(sessions)[x].(finalized := true)]
    {
      FinalizeWorld(sessions, streams, live, pub, sessions[x := sessions[x].(finalized := true)]);
      sessions := sessions[x := sessions[x].(finalized := true)];
    }

    // ----- Joining

    method Join(x: nat, name: string, publisher: bool, ok: bool) returns (r: JoinResult)
      requires Valid() && x < |sessions| && |name| < MAX_NAME
      modifies this
      ensures Valid() && OthersSame(old(sessions), sessions, x)
      ensures r == AlreadyJoined <==> old(sessions)[x].stream != NULL
      ensures r == AlreadyJoined ==> sessions == old(sessions) && streams == old(streams) && live == old(live)
      ensures r == NotFound <==>
                old(sessions)[x].stream == NULL && !publisher && !conf.idleStreams
                    && !IsPublished(old(streams), old(live), name)
      ensures r == Taken <==> old(sessions)[x].stream == NULL && publisher && IsPublished(old(streams), old(live), name)
      ensures r == NotFound ==> sessions[x] == Fresh(NULL, false, true)
      ensures r == Taken ==> sessions[x] == Fresh(NULL, false, old(sessions)[x].finalized)
      ensures r == NotFound || r == Taken ==> streams == old(streams) && live == old(live)
      ensures r == Entered ==>
                && Holds(streams, live, sessions[x].stream, name) && sessions[x].publishing == publisher
                && x in streams[sessions[x].stream].members && (publisher ==> streams[sessions[x].stream].publishing)
                && Seated(old(sessions)[x], sessions[x], streams[sessions[x].stream].active, ok)
    {
      if sessions[x].stream != NULL {
        return AlreadyJoined;
      }
      Reset(x);
      PublishedIs(streams, live, name);
      var found, id := GetStream(name, publisher || conf.idleStreams);
      if !found || !(publisher || streams[id].publishing || conf.idleStreams) {
        Finalize(x);
        return NotFound;
      }
      if publisher && streams[id].publishing {
        return Taken;
      }
      Enter(x, id, publisher, ok);
      assert OthersSame(old(sessions), sessions, x);
      return Entered;
    }

    /** A session that is on no stream starts over. */
    method Reset(x: nat)
      requires Valid() && x < |sessions| && sessions[x].stream == NULL
      modifies this`sessions
      ensures Valid() && sessions == old(sessions)[x := Fresh(NULL, false, old(sessions)[x].finalized)]
      ensures OthersSame(old(sessions), sessions, x)
    {
      var c := Fresh(NULL, false, sessions[x].finalized);
      ResetWorld(sessions, streams, live, pub, x, c);
      sessions := sessions[x := c];
    }

    /** The session is put at the front of the stream's list and, on a running stream, told that it started. */
    method Enter(x: nat, id: nat, publisher: bool, ok: bool)
      requires IndexOk(hash, streams, buckets, free, live) && Open(sessions, streams, live, pub, id)
      requires x < |sessions| && sessions[x].stream == NULL && (publisher ==> !streams[id].publishing)
      modifies this`sessions, this`streams, this`pub
      ensures Valid() && OthersSame(old(sessions), sessions, x) && |streams| == |old(streams)|
      ensures streams[id] == Joined(old(streams)[id], x, publisher)
      ensures sessions[x].stream == id && sessions[x].publishing == publisher
      ensures Seated(old(sessions)[x], sessions[x], streams[id].active, ok)
    {
      JoinWorld(sessions, streams, live, pub, id, x, publisher, ok);
      var st := Joined(streams[id], x, publisher);
      var c := Fresh(id, publisher, sessions[x].finalized);
      IndexFrame(hash, streams, streams[id := st], buckets, free, live);
      Overwrite(sessions, x, c, Told(c, true, ok));
      streams, pub := streams[id := st], pub[id := if publisher then x else pub[id]];
      sessions := sessions[x := c];
      if !publisher && st.active {
        Tell(x, true, ok);
      }
    }

    // ----- Pausing

    /** ngx_rtmp_live_pause; `notified` says whether the client could be sent the notice. */
    method Pause(x: nat, pause: bool, notified: bool, ok: nat -> bool) returns (done: bool)
      requires Valid() && x < |sessions|
      modifies this`sessions, this`streams
      ensures Valid() && |sessions| == |old(sessions)|
      ensures done <==> notified || old(sessions)[x].stream == NULL
      ensures !done || old(sessions)[x].stream == NULL ==> sessions == old(sessions) && streams == old(streams)
      ensures done && old(sessions)[x].stream != NULL && !old(sessions)[x].publishing ==>
                sessions == old(sessions)[x := Paused(old(sessions)[x], pause, ok(x))] && streams == old(streams)
      ensures done && old(sessions)[x].stream != NULL && old(sessions)[x].publishing ==>
                sessions[x].paused == pause && sessions[x].active == !pause
    {
      if sessions[x].stream == NULL {
        return true;
      }
      if !notified {
        return false;
      }
      var c := sessions[x].(paused := pause);
      PauseWorld(sessions, streams, live, pub, x, pause, ok(x));
      Overwrite(sessions, x, c, Told(c, !pause, ok(x)));
      sessions := sessions[x := c];
      SetStatus(x, !pause, ok);
      assert Known(x);
      return true;
    }

    // ----- Broadcasting

    /** The body of the broadcast loop of ngx_rtmp_live_av, up to the point where a relative packet is sent. */
    method Offer(all: Clocks, p: Packet, base: uint32, a: Answers) returns (turn: Turn)
      ensures turn == Choose(conf, p, base, all, a)
    {
      var first := conf.interleave || p.video;
      var cs := Get(all, first);
      if cs.active && conf.sync != 0 && cs.dropped > conf.sync {
        cs := cs.(active := false, dropped := 0);
      }
      if !cs.active {
        if p.mandatory {
          return Skip(cs);
        }
        if conf.waitVideo && !p.video && (first || !all.video.active) {
          return Skip(cs);
        }
        if conf.waitKey && p.priority != KEY_FRAME && (conf.interleave || p.video) {
          return Skip(cs);
        }
        if p.header || p.coheader {
          if p.header && !a.header {
            return Skip(cs);
          }
          if p.coheader && !a.coheader {
            return Skip(cs);
          }
          cs := cs.(timestamp := base, active := true);
        } else if a.packet {
          return Absolute(cs.(timestamp := p.timestamp, active := true));
        } else {
          return Skip(cs);
        }
      }
      return Relative(cs);
    }

    /** The whole body of the loop. */
    method Deliver(c0: Ctx, p: Packet, base: uint32, a: Answers) returns (c: Ctx)
      ensures c == Heard(conf, p, base, c0, a)
    {
      var turn := Offer(c0.cs, p, base, a);
      var cs := turn.clock;
      c := c0;
      if turn.Relative? {
        var delta := Sub32(p.timestamp, base);
        if a.packet {
          cs := cs.(timestamp := Add32(cs.timestamp, delta));
        } else {
          cs := cs.(dropped := Add32(cs.dropped, delta));
          if p.mandatory {
            c := c.(finalized := true);
          }
        }
      }
      c := c.(cs := Set(c.cs, First(conf, p), cs));
    }

    /**
      * ngx_rtmp_live_av: a publisher's packet starts its stream if necessary and is offered to every listed
      * session that is not paused. `told` is the state after the start.
      */
    method Av(x: nat, p: Packet, answers: nat -> Answers, ok: nat -> bool) returns (ghost told: seq<Ctx>)
      requires Valid() && x < |sessions|
      modifies this`sessions, this`streams
      ensures Valid() && |sessions| == |old(sessions)|
      ensures !old(sessions)[x].publishing || old(sessions)[x].stream == NULL ==> sessions == old(sessions)
      ensures old(sessions)[x].publishing && old(sessions)[x].stream != NULL ==>
                && 0 <= old(sessions)[x].stream < |old(streams)|
                && var st := old(streams)[old(sessions)[x].stream];
                && (if st.active then told == old(sessions) else Tells(old(sessions), told, st.members, x, true, ok))
                && Reaches(told, sessions, st.members, x, conf, p, answers)
                && Serves(told, sessions, st.members, x, conf, p, answers)
                && (conf.sync != 0 ==> WithinSync(told, st.members, x, conf, p, answers))
    {
      told := sessions;
      if sessions[x].stream == NULL || !sessions[x].publishing {
        return;
      }
      var id := sessions[x].stream;
      assert Known(x) && Known(id);
      if !streams[id].active {
        SetStatus(x, true, ok);
        told := sessions;
      }
      assert Known(x);
      Broadcast(x, id, p, answers);
      ReachesServes(told, sessions, streams[id].members, x, conf, p, answers);
    }

    method Broadcast(x: nat, id: nat, p: Packet, answers: nat -> Answers)
      requires Valid() && x < |sessions| && sessions[x].stream == id && sessions[x].publishing
      requires id in live && id < |streams| && streams[id].active
      modifies this`sessions
      ensures Valid() && Reaches(old(sessions), sessions, streams[id].members, x, conf, p, answers)
      ensures conf.sync != 0 ==> WithinSync(old(sessions), streams[id].members, x, conf, p, answers)
    {
      ghost var s0 := sessions;
      assert Known(id) && Known(x);
      if conf.sync != 0 {
        BroadcastWithinSync(sessions, streams[id], id, x, conf, p, answers);
      }
      var members := streams[id].members;
      assert forall i {:trigger members[i]} :: 0 <= i < |members| ==> Known(members[i]);
      var base := Base(p, Get(sessions[x].cs, First(conf, p)));
      sessions := sessions[x := sessions[x].(cs := Published(conf, p, sessions[x].cs))];
      DeliverAll(s0, members, x, p, base, answers);
      BroadcastWorld(s0, streams, live, pub, id, x, sessions, conf, p, answers);
    }

    /**
      * The packet is offered to the members one after the other; `s0` are the sessions before the publisher's clock
      * moved.
      */
    method DeliverAll(ghost s0: seq<Ctx>, members: seq<nat>, x: nat, p: Packet, base: uint32, answers: nat -> Answers)
      requires x < |s0| && sessions == s0[x := s0[x].(cs := Published(conf, p, s0[x].cs))]
      requires base == Base(p, Get(s0[x].cs, First(conf, p)))
      requires NoDup(members) && forall i :: 0 <= i < |members| ==> members[i] < |s0|
      modifies this`sessions
      ensures Reaches(s0, sessions, members, x, conf, p, answers)
    {
      var i: nat := 0;
      while i < |members|
        invariant i <= |members| && Reaches(s0, sessions, members[..i], x, conf, p, answers)
      {
        var m := members[i];
        ReachStep(s0, sessions, members, i, x, conf, p, answers);
        if m != x && !sessions[m].paused {
          var c := Deliver(sessions[m], p, base, answers(m));
          sessions := sessions[m := c];
        }
        i := i + 1;
      }
      assert members[..i] == members;
    }

    // ----- Leaving

    /** ngx_rtmp_live_close_stream. The last member to leave gives the stream record back. */
    method CloseStream(x: nat, ok: nat -> bool)
      requires Valid() && x < |sessions|
      modifies this
      ensures Valid() && |sessions| == |old(sessions)| && sessions[x].stream == NULL
      ensures old(sessions)[x].stream == NULL ==>
                sessions == old(sessions) && streams == old(streams) && live == old(live)
      ensures old(sessions)[x].stream != NULL ==>
                var id := old(sessions)[x].stream;
                && 0 <= id < |old(streams)| == |streams|
                && (old(streams)[id].members == [x] <==> id !in live) && (id !in live ==> live == old(live) - {id})
                && (id in live ==> Left(old(streams)[id], streams[id], x) && live == old(live))
                && if old(sessions)[x].publishing
                   then Leaves(old(sessions), sessions, streams[id].members, x, old(streams)[id].active,
                               conf.idleStreams, ok)
                   else OthersSame(old(sessions), sessions, x)
    {
      var id := sessions[x].stream;
      if id == NULL {
        return;
      }
      assert Known(x) && Known(id);
      var st := streams[id];
      var i := Position(st.members, x);
      WithoutKeeps(st.members, i);
      var rest := Without(st.members, i);
      if sessions[x].publishing {
        LeaveAsPublisher(x, id, i, ok);
      } else {
        LeaveAsSubscriber(x, id, i, ok);
      }
      LastLeaves(st.members, i);
      if rest == [] {
        Drop(id);
      }
    }

    /** The publisher goes: the stream stops and, unless idle streams are allowed, every subscriber is finalized. */
    method LeaveAsPublisher(x: nat, id: nat, i: nat, ok: nat -> bool)
      requires Valid() && At(x, id, i) && sessions[x].publishing
      modifies this`sessions, this`streams, this`pub
      ensures |streams| == |old(streams)| && Gone(old(sessions), old(streams), sessions, x, id)
      ensures streams[id] == Stream(old(streams)[id].name, Without(old(streams)[id].members, i), false, false)
      ensures Departed(sessions, streams, live, pub, id) && IndexOk(hash, streams, buckets, free, live)
      ensures Leaves(old(sessions), sessions, streams[id].members, x, old(streams)[id].active, conf.idleStreams, ok)
    {
      ghost var s0, streams0 := sessions, streams;
      Unpublish(x, id, i, ok);
      ghost var s1 := sessions;
      if !conf.idleStreams {
        FinalizeAll(id);
      }
      ghost var s2 := sessions;
      sessions := sessions[x := sessions[x].(stream := NULL)];
      pub := pub[id := NULL];
      PublisherGone(s0, streams0, live, old(pub), id, x, i, s1, s2, ok);
      LeavesAre(s0, s1, s2, streams0[id], i, x, conf.idleStreams, ok);
      IndexFrame(hash, streams0, streams, buckets, free, live);
    }

    /** The stream loses its publisher and tells the remaining members. */
    method Unpublish(x: nat, id: nat, i: nat, ok: nat -> bool)
      requires Valid() && At(x, id, i) && sessions[x].publishing
      modifies this`sessions, this`streams
      ensures streams == old(streams)[id := Stream(old(streams)[id].name, Without(old(streams)[id].members, i), false,
                                                   false)]
      ensures Stopped(old(sessions), sessions, old(streams)[id], i, x, ok)
      ensures |sessions| == |old(sessions)| && Subscribers(sessions, streams[id].members) && x !in streams[id].members
      ensures Subscribers(old(sessions), streams[id].members)
    {
      assert Known(id) && Known(x);
      RestListed(sessions, streams[id], id, x, i);
      streams := streams[id := streams[id].(members := Without(streams[id].members, i), publishing := false)];
      TellAll(x, id, false, ok);
      StoppedAreSubscribers(old(sessions), sessions, old(streams)[id], id, i, x, ok);
      assert streams[id] == Stream(old(streams)[id].name, Without(old(streams)[id].members, i), false, false);
    }

    /** A subscriber goes; on a running stream it is told that the stream stops. */
    method LeaveAsSubscriber(x: nat, id: nat, i: nat, ok: nat -> bool)
      requires Valid() && At(x, id, i) && !sessions[x].publishing
      modifies this`sessions, this`streams, this`pub
      ensures |streams| == |old(streams)| && Gone(old(sessions), old(streams), sessions, x, id)
      ensures streams[id] == old(streams)[id].(members := Without(old(streams)[id].members, i))
      ensures OthersSame(old(sessions), sessions, x)
      ensures Departed(sessions, streams, live, pub, id) && IndexOk(hash, streams, buckets, free, live)
    {
      ghost var s0 := sessions;
      streams := streams[id := streams[id].(members := Without(streams[id].members, i))];
      if streams[id].active {
        Tell(x, false, ok(x));
      }
      var gone := sessions[x].(stream := NULL);
      Overwrite(s0, x, sessions[x], gone);
      sessions := sessions[x := gone];
      SubscriberGone(s0, old(streams), live, pub, id, i, x, gone);
      IndexFrame(hash, old(streams), streams, buckets, free, live);
    }

    ghost predicate At(x: nat, id: nat, i: nat)
      reads this
    {
      && x < |sessions| && sessions[x].stream == id && id in live && id < |streams|
      && i < |streams[id].members| && streams[id].members[i] == x
    }

    method FinalizeAll(id: nat)
      requires id < |streams| && Subscribers(sessions, streams[id].members)
      modifies this`sessions
      ensures Finalizes(old(sessions), sessions) && AllFinalized(sessions, streams[id].members)
      ensures forall m :: 0 <= m < |sessions| && m !in streams[id].members ==> sessions[m] == old(sessions)[m]
    {
      var members := streams[id].members;
      var i: nat := 0;
      while i < |members|
        invariant i <= |members| && Finalizes(old(sessions), sessions) && AllFinalized(sessions, members[..i])
        invariant forall m :: 0 <= m < |sessions| && m !in members ==> sessions[m] == old(sessions)[m]
      {
        var m := members[i];
        assert m in members && Known(m);
        if !sessions[m].publishing {
          sessions := sessions[m := sessions[m].(finalized := true)];
        }
        assert members[..i + 1] == members[..i] + [m];
        i := i + 1;
      }
      assert members[..i] == members;
    }

    /** The stream record is unhashed, by its name, and put on the free list. */
    method Drop(id: nat)
      requires IndexOk(hash, streams, buckets, free, live) && id in live && id < |streams|
      requires WorldOk(sessions, streams, live - {id}, pub)
      modifies this`buckets, this`free, this`live
      ensures Valid() && live == old(live) - {id}
    {
      var b, i := Find(streams[id].name);
      assert Known(id) && Known(b);
      assert i < |buckets[b]| && Known(buckets[b][i]);
      IndexDrop(hash, streams, buckets, free, live, b, i);
      buckets := buckets[b := Without(buckets[b], i)];
      free := [id] + free;
      live := live - {id};
    }
  }

  lemma NobodyAt(sessions: seq<Ctx>, streams: seq<Stream>, live: set<nat>, pub: seq<int>, id: nat)
    requires WorldOk(sessions, streams, live, pub) && id !in live
    ensures forall m: int {:trigger Known(m)} :: Known(m) && 0 <= m < |sessions| ==> sessions[m].stream != id
  {
  }

  lemma TellWorld(sessions: seq<Ctx>, streams: seq<Stream>, live: set<nat>, pub: seq<int>, id: nat, x: nat,
                  sessions': seq<Ctx>, active: bool, ok: nat -> bool)
    requires WorldOk(sessions, streams, live, pub) && x < |sessions| && sessions[x].stream == id
             && sessions[x].publishing
    requires id in live && id < |streams| && sessions[x].active != active
    requires Tells(sessions, sessions', streams[id].members, x, active, ok)
    ensures pub[id] == x && WorldOk(sessions', streams[id := streams[id].(active := active)], live, pub)
  {
    assert Known(id) && Known(x);
    TellKeeps(sessions, streams[id], id, x, sessions', active, ok);
    forall m: int | Known(m) && 0 <= m < |sessions| && sessions'[m] != sessions[m]
      ensures sessions[m].stream == sessions'[m].stream == id
    {
    }
    WorldUpdate(sessions, streams, live, pub, id, sessions', streams[id].(active := active), x);
    assert pub[id := x] == pub;
  }

  ghost predicate Holds(streams: seq<Stream>, live: set<nat>, id: int, name: string) {
    id in live && 0 <= id < |streams| && streams[id].name == name
  }

  /** Some live stream of this name has a publisher. */
  ghost predicate IsPublished(streams: seq<Stream>, live: set<nat>, name: string) {
    exists id: nat :: Holds(streams, live, id, name) && streams[id].publishing
  }

  lemma PublishedIs(streams: seq<Stream>, live: set<nat>, name: string)
    requires Unique(streams, live)
    ensures Absent(streams, live, name) ==> !IsPublished(streams, live, name)
    ensures forall id: nat :: Holds(streams, live, id, name) ==>
              (IsPublished(streams, live, name) <==> streams[id].publishing)
  {
    if Absent(streams, live, name) && IsPublished(streams, live, name) {
      var id: nat :| Holds(streams, live, id, name) && streams[id].publishing;
      assert Known(id);
      assert false;
    }
    forall id: nat | Holds(streams, live, id, name)
      ensures IsPublished(streams, live, name) <==> streams[id].publishing
    {
      if IsPublished(streams, live, name) {
        var j: nat :| Holds(streams, live, j, name) && streams[j].publishing;
        assert Known(id) && Known(j);
      }
    }
  }

  lemma ResetWorld(sessions: seq<Ctx>, streams: seq<Stream>, live: set<nat>, pub: seq<int>, x: nat, c: Ctx)
    requires WorldOk(sessions, streams, live, pub) && x < |sessions| && sessions[x].stream == NULL && c.stream == NULL
    ensures WorldOk(sessions[x := c], streams, live, pub)
  {
    var sessions' := sessions[x := c];
    forall id: int | Known(id) && id in live ensures 0 <= id < |streams|
        && StreamOk(sessions', streams[id], id, pub[id]) {
      StreamFrame(sessions, sessions', streams[id], id, pub[id], NULL);
    }
  }

  lemma FinalizeWorld(sessions: seq<Ctx>, streams: seq<Stream>, live: set<nat>, pub: seq<int>, sessions': seq<Ctx>)
    requires WorldOk(sessions, streams, live, pub) && Finalizes(sessions, sessions')
    ensures WorldOk(sessions', streams, live, pub)
  {
    forall id: int | Known(id) && id in live ensures 0 <= id < |streams|
        && StreamOk(sessions', streams[id], id, pub[id]) {
      FinalizeKeeps(sessions, streams[id], id, pub[id], sessions');
    }
  }

  /** Everything is in order, except that stream `id` may have just been made. */
  ghost predicate Open(sessions: seq<Ctx>, streams: seq<Stream>, live: set<nat>, pub: seq<int>, id: nat) {
    && Around(sessions, streams, live, pub, id) && id in live && id < |streams|
    && (StreamOk(sessions, streams[id], id, pub[id]) || Empty(streams[id], pub[id]))
    && forall m: int {:trigger Known(m)} :: Known(m) && 0 <= m < |sessions| && sessions[m].stream == id ==>
          m in streams[id].members
  }

  lemma JoinWorld(sessions: seq<Ctx>, streams: seq<Stream>, live: set<nat>, pub: seq<int>, id: nat, x: nat,
                  publisher: bool, ok: bool)
    requires Open(sessions, streams, live, pub, id)
    requires x < |sessions| && sessions[x].stream == NULL && (publisher ==> !streams[id].publishing)
    ensures var c := Fresh(id, publisher, sessions[x].finalized);
            WorldOk(sessions[x := if !publisher && streams[id].active then Told(c, true, ok) else c],
                    streams[id := Joined(streams[id], x, publisher)], live, pub[id := if publisher then x else pub[id]])
  {
    assert Known(x);
    var c := Fresh(id, publisher, sessions[x].finalized);
    var sessions' := sessions[x := if !publisher && streams[id].active then Told(c, true, ok) else c];
    var st, p := Joined(streams[id], x, publisher), if publisher then x else pub[id];
    if publisher {
      PublisherJoins(sessions, streams[id], id, x);
    } else {
      SubscriberJoins(sessions, streams[id], id, pub[id], x, ok);
    }
    AroundFrame(sessions, streams, live, pub, id, sessions', streams[id := st], live, pub[id := p]);
    Fill(sessions', streams[id := st], live, pub[id := p], id);
  }

  lemma Overwrite(s: seq<Ctx>, x: nat, a: Ctx, b: Ctx)
    requires x < |s|
    ensures s[x := a][x := b] == s[x := b] && s[x := a][x] == a
  {
  }

  lemma PauseWorld(sessions: seq<Ctx>, streams: seq<Stream>, live: set<nat>, pub: seq<int>, x: nat, pause: bool,
                   ok: bool)
    requires WorldOk(sessions, streams, live, pub) && x < |sessions| && sessions[x].stream != NULL
    ensures WorldOk(sessions[x := if sessions[x].publishing then sessions[x].(paused := pause)
            else Paused(sessions[x], pause, ok)],
                    streams, live, pub)
  {
    var id := sessions[x].stream;
    assert Known(x) && Known(id);
    var sessions' := sessions[x := if sessions[x].publishing then sessions[x].(paused := pause)
        else Paused(sessions[x], pause, ok)];
    if !sessions[x].publishing {
      PauseKeeps(sessions, streams[id], id, pub[id], x, pause, ok);
    }
    assert StreamOk(sessions', streams[id], id, pub[id]);
    WorldUpdate(sessions, streams, live, pub, id, sessions', streams[id], pub[id]);
    assert streams[id := streams[id]] == streams && pub[id := pub[id]] == pub;
  }

  lemma ReachStep(s0: seq<Ctx>, s: seq<Ctx>, members: seq<nat>, i: nat, x: nat, conf: Conf, p: Packet,
                  answers: nat -> Answers)
    requires i < |members| && Reaches(s0, s, members[..i], x, conf, p, answers) && NoDup(members) && members[i] < |s0|
    ensures var m := members[i];
            var base := Base(p, Get(s0[x].cs, First(conf, p)));
            && (m != x ==> s[m] == s0[m])
            && Reaches(s0, if m != x && !s[m].paused then s[m := Heard(conf, p, base, s[m], answers(m))] else s,
                       members[..i + 1], x, conf, p, answers)
  {
    NextIsNew(members, i);
    assert Known(members[i]) && Known(x);
  }

  lemma BroadcastWorld(sessions: seq<Ctx>, streams: seq<Stream>, live: set<nat>, pub: seq<int>, id: nat, x: nat,
                       sessions': seq<Ctx>, conf: Conf, p: Packet, answers: nat -> Answers)
    requires WorldOk(sessions, streams, live, pub) && x < |sessions| && sessions[x].stream == id
             && sessions[x].publishing
    requires id in live && id < |streams| && streams[id].active
    requires Reaches(sessions, sessions', streams[id].members, x, conf, p, answers)
    ensures WorldOk(sessions', streams, live, pub)
  {
    assert Known(id) && Known(x);
    BroadcastKeeps(sessions, streams[id], id, x, sessions', conf, p, answers);
    WorldUpdate(sessions, streams, live, pub, id, sessions', streams[id], x);
    assert streams[id := streams[id]] == streams && pub[id := x] == pub;
  }

  /** Where `x` is in a list that has it. */
  method Position(s: seq<nat>, x: nat) returns (i: nat)
    requires x in s
    ensures i < |s| && s[i] == x
  {
    i := 0;
    while s[i] != x
      invariant i < |s| && x in s[i..]
      decreases |s| - i
    {
      assert s[i..] == [s[i]] + s[i + 1..];
      i := i + 1;
    }
  }

  lemma LastLeaves(members: seq<nat>, i: nat)
    requires i < |members|
    ensures Without(members, i) == [] <==> members == [members[i]]
  {
    if Without(members, i) == [] {
      assert |members| == 1;
    }
  }

  ghost predicate AllFinalized(sessions: seq<Ctx>, members: seq<nat>) {
    forall m :: m in members ==> m < |sessions| && sessions[m].finalized
  }

  /** The stream as it is after `x` left. */
  ghost predicate Left(st: Stream, st': Stream, x: nat) {
    && st'.name == st.name && x !in st'.members && NoDup(st'.members)
    && forall m: nat :: m != x ==> (m in st'.members <==> m in st.members)
  }

  /**
    * A session that has just joined: not paused, with no clock running and, if it does not publish, told that the
    * stream is on if it is; a session that cannot be told is finalized.
    */
  ghost predicate Seated(c: Ctx, d: Ctx, running: bool, ok: bool) {
    && !d.paused && d.cs == Clocks(Clock(false, 0, 0), Clock(false, 0, 0))
    && d.active == (!d.publishing && running)
    && d.finalized == (c.finalized || (!d.publishing && running && !ok))
  }

  ghost predicate OthersSame(s0: seq<Ctx>, s: seq<Ctx>, x: nat) {
    |s| == |s0| && forall m: nat {:trigger Known(m)} :: Known(m) && m < |s0| && m != x ==> s[m] == s0[m]
  }

  /** Publisher `x` has left: the others are told if the stream ran, and finalized unless idle streams are allowed. */
  ghost predicate Leaves(s0: seq<Ctx>, s: seq<Ctx>, rest: seq<nat>, x: nat, running: bool, idle: bool,
                         ok: nat -> bool) {
    && |s| == |s0|
    && forall m: nat {:trigger Known(m)} :: Known(m) && m < |s0| && m != x ==>
         var told := if running then Told(s0[m], false, ok(m)) else s0[m];
         s[m] == if m !in rest then s0[m] else if idle then told else told.(finalized := true)
  }

  lemma LeavesAre(s0: seq<Ctx>, s1: seq<Ctx>, s2: seq<Ctx>, st: Stream, i: nat, x: nat, idle: bool, ok: nat -> bool)
    requires Stopped(s0, s1, st, i, x, ok) && Subscribers(s1, Without(st.members, i)) && |s1| == |s0| && x < |s0|
    requires Subscribers(s0, Without(st.members, i))
    requires if idle then s2 == s1
             else Finalizes(s1, s2) && AllFinalized(s2, Without(st.members, i)) &&
                  forall m :: 0 <= m < |s2| && m !in Without(st.members, i) ==> s2[m] == s1[m]
    ensures Leaves(s0, s2[x := s2[x].(stream := NULL)], Without(st.members, i), x, st.active, idle, ok)
  {
  }

  ghost predicate Gone(sessions: seq<Ctx>, streams: seq<Stream>, sessions': seq<Ctx>, x: nat, id: nat) {
    && |sessions'| == |sessions| && x < |sessions| && id < |streams| && sessions'[x].stream == NULL
  }

  /** The world without stream `id`'s last member: the record is still hashed if it was the last. */
  ghost predicate Departed(sessions: seq<Ctx>, streams: seq<Stream>, live: set<nat>, pub: seq<int>, id: nat) {
    id < |streams| && WorldOk(sessions, streams, if streams[id].members == [] then live - {id} else live, pub)
  }

  /** Subscriber `x`, at place `i` of stream `id`, has become `gone`. */
  lemma SubscriberGone(sessions: seq<Ctx>, streams: seq<Stream>, live: set<nat>, pub: seq<int>, id: nat, i: nat, x: nat,
                       gone: Ctx)
    requires WorldOk(sessions, streams, live, pub) && id in live && id < |streams| && i < |streams[id].members|
    requires streams[id].members[i] == x < |sessions| && !sessions[x].publishing && gone.stream == NULL
    ensures var st := streams[id].(members := Without(streams[id].members, i));
            Departed(sessions[x := gone], streams[id := st], live, pub, id)
  {
    assert Known(id) && Known(x);
    var st := streams[id].(members := Without(streams[id].members, i));
    SubscriberLeaves(sessions, streams[id], id, pub[id], i, gone);
    assert pub[id := pub[id]] == pub;
    LeaveWorld(sessions, streams, live, pub, id, i, sessions[x := gone], st, pub[id]);
  }

  ghost predicate Subscribers(sessions: seq<Ctx>, members: seq<nat>) {
    forall m :: m in members ==> m < |sessions| && !sessions[m].publishing
  }

  lemma RestListed(sessions: seq<Ctx>, st: Stream, id: int, x: nat, i: nat)
    requires i < |st.members| && st.members[i] == x && x < |sessions| && sessions[x].publishing
    requires exists pub :: StreamOk(sessions, st, id, pub)
    ensures NoDup(Without(st.members, i)) && sessions[x].active == st.active
    ensures forall k :: 0 <= k < |Without(st.members, i)| ==> Without(st.members, i)[k] < |sessions|
  {
    WithoutKeeps(st.members, i);
    var rest := Without(st.members, i);
    assert Known(x);
    forall k | 0 <= k < |rest| ensures rest[k] < |sessions| {
      assert rest[k] in rest && Known(rest[k]);
    }
  }

  /** Member `i`, the publisher, stops its stream for all others if it was running. */
  ghost predicate Stopped(s0: seq<Ctx>, s1: seq<Ctx>, st: Stream, i: nat, x: nat, ok: nat -> bool) {
    i < |st.members| && if st.active then Tells(s0, s1, Without(st.members, i), x, false, ok) else s1 == s0
  }

  lemma StoppedAreSubscribers(s0: seq<Ctx>, s1: seq<Ctx>, st: Stream, id: int, i: nat, x: nat, ok: nat -> bool)
    requires Stopped(s0, s1, st, i, x, ok) && st.members[i] == x && x < |s0| && s0[x].publishing
    requires exists pub :: StreamOk(s0, st, id, pub)
    ensures |s1| == |s0| && Subscribers(s1, Without(st.members, i)) && x !in Without(st.members, i)
    ensures Subscribers(s0, Without(st.members, i))
  {
    WithoutKeeps(st.members, i);
    assert Known(x);
    forall m | m in Without(st.members, i) ensures m < |s1| && !s1[m].publishing && !s0[m].publishing {
      assert Known(m);
    }
  }

  lemma PublisherGone(s0: seq<Ctx>, streams: seq<Stream>, live: set<nat>, pub: seq<int>, id: nat, x: nat, i: nat,
                      s1: seq<Ctx>, s2: seq<Ctx>, ok: nat -> bool)
    requires WorldOk(s0, streams, live, pub) && x < |s0| && s0[x].stream == id && s0[x].publishing
    requires id in live && id < |streams| && i < |streams[id].members| && streams[id].members[i] == x
    requires Stopped(s0, s1, streams[id], i, x, ok) && Finalizes(s1, s2)
    requires forall m :: 0 <= m < |s2| && m !in Without(streams[id].members, i) ==> s2[m] == s1[m]
    ensures |s2| == |s0|
    ensures var rest := Without(streams[id].members, i);
            WorldOk(s2[x := s2[x].(stream := NULL)], streams[id := Stream(streams[id].name, rest, false, false)],
                    if rest == [] then live - {id} else live, pub[id := NULL])
  {
    var st0, rest := streams[id], Without(streams[id].members, i);
    var gone := s2[x].(stream := NULL);
    var st := Stream(st0.name, rest, false, false);
    assert Known(id) && Known(x);
    PublisherLeaves(s0, st0, id, x, i, s1, gone, ok);
    if rest != [] {
      FinalizeKeeps(s1[x := gone], st, id, NULL, s2[x := gone]);
    }
    WithoutKeeps(st0.members, i);
    forall m: int | Known(m) && 0 <= m < |s0| ensures m != x ==>
          s2[m].stream == s0[m].stream && (s2[m] == s0[m] || s0[m].stream == id) {
    }
    LeaveWorld(s0, streams, live, pub, id, i, s2[x := gone], st, NULL);
  }

  lemma LeaveWorld(sessions: seq<Ctx>, streams: seq<Stream>, live: set<nat>, pub: seq<int>, id: nat, i: nat,
                   sessions': seq<Ctx>, st: Stream, p: int)
    requires WorldOk(sessions, streams, live, pub) && id in live && id < |streams| && i < |streams[id].members|
    requires OnlyAt(sessions, sessions', id) && streams[id].members[i] < |sessions|
             && sessions'[streams[id].members[i]].stream == NULL
    requires forall m: int {:trigger Known(m)} :: Known(m) && 0 <= m < |sessions| && sessions'[m].stream == id ==>
               sessions[m].stream == id
    requires st.members == Without(streams[id].members, i)
    requires st.members != [] ==> StreamOk(sessions', st, id, p)
    ensures WorldOk(sessions', streams[id := st], if st.members == [] then live - {id} else live, pub[id := p])
  {
    assert Known(id);
    WithoutKeeps(streams[id].members, i);
    var live' := if st.members == [] then live - {id} else live;
    Carve(sessions, streams, live, pub, id);
    AroundFrame(sessions, streams, live, pub, id, sessions', streams[id := st], live', pub[id := p]);
    if st.members == [] {
      Close(sessions', streams[id := st], live', pub[id := p], id);
    } else {
      Fill(sessions', streams[id := st], live', pub[id := p], id);
    }
  }

  lemma ConnectKeeps(sessions: seq<Ctx>, streams: seq<Stream>, live: set<nat>, pub: seq<int>)
    requires WorldOk(sessions, streams, live, pub)
    ensures WorldOk(sessions + [Fresh(NULL, false, false)], streams, live, pub)
  {
    var sessions' := sessions + [Fresh(NULL, false, false)];
    forall id: int | Known(id) && id in live ensures 0 <= id < |streams|
        && StreamOk(sessions', streams[id], id, pub[id]) {
      assert Known(pub[id]);
    }
  }

  // ----- What Valid says, in plain words

  /** The subscriber clock law, in every state the operations can reach. */
  lemma ClockLaw(r: Registry, id: nat, p: nat, m: nat, first: bool)
    requires r.Valid() && id in r.live && id < |r.streams| && p < |r.sessions| && m < |r.sessions|
    requires r.sessions[p].stream == id && r.sessions[p].publishing && r.sessions[m].stream == id && m != p
    requires !r.sessions[m].finalized && Get(r.sessions[m].cs, first).active
    ensures Get(r.sessions[p].cs, first).active
    ensures Add32(Get(r.sessions[m].cs, first).timestamp, Get(r.sessions[m].cs, first).dropped)
            == Get(r.sessions[p].cs, first).timestamp
  {
    assert Known(id) && Known(p) && Known(m);
  }

  lemma NamesAreUnique(r: Registry, i: nat, j: nat)
    requires r.Valid() && i in r.live && j in r.live
    ensures i < |r.streams| && j < |r.streams| && (r.streams[i].name == r.streams[j].name ==> i == j)
    ensures i !in r.free
  {
    assert Known(i) && Known(j);
  }

  /** A session is listed on a live stream if and only if it points to it, and every live stream has a member. */
  lemma ListedIffPointing(r: Registry, id: nat, x: nat)
    requires r.Valid() && id in r.live && x < |r.sessions|
    ensures id < |r.streams| && r.streams[id].members != []
    ensures x in r.streams[id].members <==> r.sessions[x].stream == id
  {
    assert Known(id) && Known(x);
  }

  ghost predicate Publishes(sessions: seq<Ctx>, st: Stream, p: nat) {
    p in st.members && p < |sessions| && sessions[p].publishing
  }

  /** A stream is marked as published if and only if exactly one listed session publishes. */
  lemma OnePublisher(r: Registry, id: nat)
    requires r.Valid() && id in r.live
    ensures id < |r.streams|
    ensures r.streams[id].publishing <==> exists p: nat :: Publishes(r.sessions, r.streams[id], p)
    ensures forall p: nat, q: nat ::
              Publishes(r.sessions, r.streams[id], p) && Publishes(r.sessions, r.streams[id], q) ==> p == q
  {
    assert Known(id);
    forall p | p in r.streams[id].members ensures p < |r.sessions| && (r.sessions[p].publishing <==> p == r.pub[id]) {
      assert Known(p);
    }
    assert r.pub[id] != NULL ==> Publishes(r.sessions, r.streams[id], r.pub[id]);
  }
}
