/**
  * The registry of live streams as values: streams hashed by name into buckets, a free list of stream records, and
  * the sessions listed on each stream.
  */
module LiveRegistry {
  import opened Bytes
  import opened LiveClock

  const MAX_NAME: nat := 256

  datatype Stream = Stream(name: string, members: seq<nat>, active: bool, publishing: bool)

  // ----- Lists without repetition

  ghost predicate NoDup(s: seq<nat>) {
    forall i, j :: 0 <= i < j < |s| ==> s[i] != s[j]
  }

  function Without(s: seq<nat>, i: nat): seq<nat>
    requires i < |s|
  {
    s[..i] + s[i + 1..]
  }

  lemma WithoutKeeps(s: seq<nat>, i: nat)
    requires i < |s| && NoDup(s)
    ensures NoDup(Without(s, i))
    ensures forall x: nat :: x in Without(s, i) <==> x in s && x != s[i]
  {
    var t := Without(s, i);
    forall x: nat ensures x in t <==> x in s && x != s[i] {
      if x in s && x != s[i] {
        var k :| 0 <= k < |s| && s[k] == x;
        assert t[if k < i then k else k - 1] == x;
      }
    }
  }

  // ----- Streams and their members

  ghost function ClocksOf(sessions: seq<Ctx>, pub: int): Clocks {
    if 0 <= pub < |sessions| then sessions[pub].cs else Clocks(STOPPED, STOPPED)
  }

  ghost predicate MemberOk(sessions: seq<Ctx>, active: bool, id: int, pub: int, m: int) {
    && 0 <= m < |sessions| && sessions[m].stream == id
    && if m == pub then sessions[m].publishing && sessions[m].active == active
       else !sessions[m].publishing && Lawful(sessions[m], ClocksOf(sessions, pub), active)
  }

  ghost predicate MembersOk(sessions: seq<Ctx>, members: seq<nat>, active: bool, id: int, pub: int) {
    forall m: int {:trigger Known(m)} :: Known(m) && m in members ==> MemberOk(sessions, active, id, pub, m)
  }

  /** Stream `id`, published by session `pub` or by nobody. */
  ghost predicate StreamOk(sessions: seq<Ctx>, st: Stream, id: int, pub: int) {
    && st.members != [] && NoDup(st.members)
    && (st.publishing <==> pub != NULL) && (pub != NULL ==> pub in st.members) && (pub == NULL ==> !st.active)
    && MembersOk(sessions, st.members, st.active, id, pub)
  }

  ghost predicate SessionOk(sessions: seq<Ctx>, streams: seq<Stream>, live: set<nat>, x: int, hole: int) {
    0 <= x < |sessions| && sessions[x].stream != NULL && sessions[x].stream != hole ==>
      && sessions[x].stream in live && sessions[x].stream < |streams| && x in streams[sessions[x].stream].members
  }

  /** Everything but stream `hole` is in order. */
  ghost predicate Around(sessions: seq<Ctx>, streams: seq<Stream>, live: set<nat>, pub: seq<int>, hole: int) {
    && |pub| == |streams|
    && (forall id: int {:trigger Known(id)} :: Known(id) && id in live && id != hole ==>
          0 <= id < |streams| && StreamOk(sessions, streams[id], id, pub[id]))
    && (forall x: int {:trigger Known(x)} :: Known(x) ==> SessionOk(sessions, streams, live, x, hole))
  }

  ghost predicate WorldOk(sessions: seq<Ctx>, streams: seq<Stream>, live: set<nat>, pub: seq<int>) {
    Around(sessions, streams, live, pub, NULL)
  }

  /** Only sessions of the hole, or of no stream, differ, and they stay there. */
  ghost predicate OnlyAt(sessions: seq<Ctx>, sessions': seq<Ctx>, hole: int) {
    && |sessions'| == |sessions|
    && forall m: int {:trigger Known(m)} :: Known(m) && 0 <= m < |sessions| ==>
         || sessions'[m] == sessions[m]
         || (sessions[m].stream in {hole, NULL} && sessions'[m].stream in {hole, NULL})
  }

  lemma Carve(sessions: seq<Ctx>, streams: seq<Stream>, live: set<nat>, pub: seq<int>, hole: int)
    requires WorldOk(sessions, streams, live, pub)
    ensures Around(sessions, streams, live, pub, hole)
  {
  }

  lemma StreamFrame(sessions: seq<Ctx>, sessions': seq<Ctx>, st: Stream, id: nat, pub: int, hole: int)
    requires StreamOk(sessions, st, id, pub) && OnlyAt(sessions, sessions', hole) && id != hole
    ensures StreamOk(sessions', st, id, pub)
  {
    assert pub != NULL ==> Known(pub);
  }

  lemma AroundFrame(sessions: seq<Ctx>, streams: seq<Stream>, live: set<nat>, pub: seq<int>, hole: nat,
                    sessions': seq<Ctx>, streams': seq<Stream>, live': set<nat>, pub': seq<int>)
    requires Around(sessions, streams, live, pub, hole) && OnlyAt(sessions, sessions', hole)
    requires live - {hole} == live' - {hole} && |streams| <= |streams'| == |pub'|
    requires forall id: int {:trigger Known(id)} :: Known(id) && 0 <= id < |streams| && id != hole ==>
               streams'[id] == streams[id] && pub'[id] == pub[id]
    ensures Around(sessions', streams', live', pub', hole)
  {
    forall id: int | Known(id) && id in live' && id != hole
      ensures 0 <= id < |streams'| && StreamOk(sessions', streams'[id], id, pub'[id])
    {
      assert id in live - {hole};
      StreamFrame(sessions, sessions', streams[id], id, pub[id], hole);
    }
    forall x: int | Known(x) ensures SessionOk(sessions', streams', live', x, hole) {
      if 0 <= x < |sessions| && sessions'[x].stream != NULL && sessions'[x].stream != hole {
        assert Known(sessions[x].stream);
        assert sessions[x].stream in live - {hole};
      }
    }
  }

  /** The hole is filled with a stream in order that lists exactly the sessions pointing to it. */
  lemma Fill(sessions: seq<Ctx>, streams: seq<Stream>, live: set<nat>, pub: seq<int>, hole: nat)
    requires Around(sessions, streams, live, pub, hole) && hole in live && hole < |streams|
    requires StreamOk(sessions, streams[hole], hole, pub[hole])
    requires forall x: int {:trigger Known(x)} :: Known(x) && 0 <= x < |sessions| && sessions[x].stream == hole ==>
               x in streams[hole].members
    ensures WorldOk(sessions, streams, live, pub)
  {
  }

  /** The hole is no live stream and nobody points to it. */
  lemma Close(sessions: seq<Ctx>, streams: seq<Stream>, live: set<nat>, pub: seq<int>, hole: nat)
    requires Around(sessions, streams, live, pub, hole) && hole !in live
    requires forall x: int {:trigger Known(x)} :: Known(x) && 0 <= x < |sessions| ==> sessions[x].stream != hole
    ensures WorldOk(sessions, streams, live, pub)
  {
  }

  /** One live stream and its sessions change, and stay in order. */
  lemma WorldUpdate(sessions: seq<Ctx>, streams: seq<Stream>, live: set<nat>, pub: seq<int>, id: nat,
                    sessions': seq<Ctx>, st: Stream, p: int)
    requires WorldOk(sessions, streams, live, pub) && id in live && id < |streams|
    requires OnlyAt(sessions, sessions', id) && StreamOk(sessions', st, id, p)
    requires forall x: int {:trigger Known(x)} :: Known(x) && 0 <= x < |sessions| && sessions'[x].stream == id ==>
               x in st.members
    ensures WorldOk(sessions', streams[id := st], live, pub[id := p])
  {
    Carve(sessions, streams, live, pub, id);
    AroundFrame(sessions, streams, live, pub, id, sessions', streams[id := st], live, pub[id := p]);
    Fill(sessions', streams[id := st], live, pub[id := p], id);
  }

  // ----- The index

  function Bucket(hash: string -> nat, name: string, n: nat): (b: nat)
    requires n > 0
    ensures b < n
  {
    hash(name) % n
  }

  ghost predicate NameOk(hash: string -> nat, streams: seq<Stream>, buckets: seq<seq<nat>>, live: set<nat>, id: int) {
    id in live ==>
      && 0 <= id < |streams| && |streams[id].name| < MAX_NAME && |buckets| > 0
      && id in buckets[Bucket(hash, streams[id].name, |buckets|)]
  }

  ghost predicate BucketOk(hash: string -> nat, streams: seq<Stream>, buckets: seq<seq<nat>>, live: set<nat>, b: int) {
    0 <= b < |buckets| ==>
      && NoDup(buckets[b])
      && forall id :: id in buckets[b] ==>
           id in live && id < |streams| && Bucket(hash, streams[id].name, |buckets|) == b
  }

  ghost predicate Unique(streams: seq<Stream>, live: set<nat>) {
    forall i: int, j: int {:trigger Known(i), Known(j)} :: Known(i) && Known(j) && i in live && j in live ==>
      0 <= i < |streams| && 0 <= j < |streams| && (streams[i].name == streams[j].name ==> i == j)
  }

  /** Live streams are hashed by distinct names; every other stream record is on the free list, once. */
  ghost predicate IndexOk(hash: string -> nat, streams: seq<Stream>, buckets: seq<seq<nat>>, free: seq<nat>,
                          live: set<nat>) {
    && |buckets| > 0
    && (forall id: int {:trigger Known(id)} :: Known(id) ==> NameOk(hash, streams, buckets, live, id))
    && (forall b: int {:trigger Known(b)} :: Known(b) ==> BucketOk(hash, streams, buckets, live, b))
    && Unique(streams, live)
    && NoDup(free)
    && (forall id: nat {:trigger Known(id)} :: Known(id) ==> (id in free <==> id < |streams| && id !in live))
  }

  lemma IndexFrame(hash: string -> nat, streams: seq<Stream>, streams': seq<Stream>, buckets: seq<seq<nat>>,
                   free: seq<nat>, live: set<nat>)
    requires IndexOk(hash, streams, buckets, free, live) && |streams'| == |streams|
    requires forall i :: 0 <= i < |streams| ==> streams'[i].name == streams[i].name
    ensures IndexOk(hash, streams', buckets, free, live)
  {
  }

  /** No live stream has this name. */
  ghost predicate Absent(streams: seq<Stream>, live: set<nat>, name: string) {
    forall id: int {:trigger Known(id)} :: Known(id) && id in live ==> 0 <= id < |streams| && streams[id].name != name
  }

  /** A stream record for a new name: the first free one, or a new one. */
  function NewId(streams: seq<Stream>, free: seq<nat>): nat {
    if free != [] then free[0] else |streams|
  }

  function Placed(streams: seq<Stream>, id: nat, st: Stream): seq<Stream>
    requires id <= |streams|
  {
    if id < |streams| then streams[id := st] else streams + [st]
  }

  lemma IndexAdd(hash: string -> nat, streams: seq<Stream>, buckets: seq<seq<nat>>, free: seq<nat>, live: set<nat>,
                 st: Stream)
    requires IndexOk(hash, streams, buckets, free, live) && |st.name| < MAX_NAME && Absent(streams, live, st.name)
    ensures var id, b := NewId(streams, free), Bucket(hash, st.name, |buckets|);
            && id <= |streams| && id !in live
            && IndexOk(hash, Placed(streams, id, st), buckets[b := buckets[b] + [id]], if free != [] then free[1..]
                else [], live + {id})
  {
    var id, b := NewId(streams, free), Bucket(hash, st.name, |buckets|);
    NewIdIsFree(hash, streams, buckets, free, live);
    var buckets', streams' := buckets[b := buckets[b] + [id]], Placed(streams, id, st);
    forall c: int | Known(c) ensures BucketOk(hash, streams', buckets', live + {id}, c) {
    }
    forall j: int | Known(j) ensures NameOk(hash, streams', buckets', live + {id}, j) {
    }
    UniqueAdd(streams, live, id, st);
  }

  lemma NewIdIsFree(hash: string -> nat, streams: seq<Stream>, buckets: seq<seq<nat>>, free: seq<nat>, live: set<nat>)
    requires IndexOk(hash, streams, buckets, free, live)
    ensures var id := NewId(streams, free);
            && id <= |streams| && id !in live
            && var free' := if free != [] then free[1..] else [];
            && NoDup(free')
            && forall j: nat {:trigger Known(j)} :: Known(j) ==>
                 (j in free' <==> j < (if free != [] then |streams| else |streams| + 1) && j !in live + {id})
  {
    assert Known(NewId(streams, free));
  }

  lemma UniqueAdd(streams: seq<Stream>, live: set<nat>, id: nat, st: Stream)
    requires Unique(streams, live) && Absent(streams, live, st.name) && id <= |streams| && id !in live
    ensures Unique(Placed(streams, id, st), live + {id})
  {
  }

  lemma IndexDrop(hash: string -> nat, streams: seq<Stream>, buckets: seq<seq<nat>>, free: seq<nat>, live: set<nat>,
                  b: nat, i: nat)
    requires IndexOk(hash, streams, buckets, free, live) && b < |buckets| && i < |buckets[b]|
    ensures var id := buckets[b][i];
            id in live && IndexOk(hash, streams, buckets[b := Without(buckets[b], i)], [id] + free, live - {id})
  {
    var id := buckets[b][i];
    assert Known(b) && Known(id);
    WithoutKeeps(buckets[b], i);
    var buckets' := buckets[b := Without(buckets[b], i)];
    forall j: int | Known(j) ensures NameOk(hash, streams, buckets', live - {id}, j) {
    }
    forall c: int | Known(c) ensures BucketOk(hash, streams, buckets', live - {id}, c) {
    }
  }

  // ----- What the operations do to one stream

  /** Session `me` changes its status and tells every subscriber in `members`. */
  ghost predicate Tells(sessions: seq<Ctx>, sessions': seq<Ctx>, members: seq<nat>, me: nat, active: bool,
                        ok: nat -> bool) {
    && |sessions'| == |sessions|
    && forall m: int {:trigger Known(m)} :: Known(m) && 0 <= m < |sessions| ==>
         sessions'[m] == if m == me then sessions[m].(active := active)
                         else if m in members && !sessions[m].publishing then Told(sessions[m], active, ok(m))
                         else sessions[m]
  }

  lemma TellKeeps(sessions: seq<Ctx>, st: Stream, id: int, pub: nat, sessions': seq<Ctx>, active: bool, ok: nat -> bool)
    requires StreamOk(sessions, st, id, pub) && st.active != active
             && Tells(sessions, sessions', st.members, pub, active, ok)
    ensures StreamOk(sessions', st.(active := active), id, pub)
  {
    assert Known(pub);
    forall m: int | Known(m) && m in st.members ensures MemberOk(sessions', active, id, pub, m) {
      if m != pub {
        ToldStops(sessions[m], sessions[pub].cs, sessions'[pub].cs, st.active, active, ok(m));
      }
    }
  }

  /** The publisher leaves a running stream and tells the others that it stops. */
  lemma PublisherLeaves(sessions: seq<Ctx>, st: Stream, id: int, pub: nat, i: nat, sessions': seq<Ctx>, gone: Ctx,
                        ok: nat -> bool)
    requires StreamOk(sessions, st, id, pub) && i < |st.members| && st.members[i] == pub
    requires if st.active then Tells(sessions, sessions', Without(st.members, i), pub, false, ok)
             else sessions' == sessions
    ensures pub < |sessions'|
    ensures Without(st.members, i) != [] ==>
              StreamOk(sessions'[pub := gone], Stream(st.name, Without(st.members, i), false, false), id, NULL)
  {
    WithoutKeeps(st.members, i);
    assert Known(pub);
    var rest := Without(st.members, i);
    var sessions2 := sessions'[pub := gone];
    forall m: int | Known(m) && m in rest ensures MemberOk(sessions2, false, id, NULL, m) {
      if st.active {
        ToldStops(sessions[m], sessions[pub].cs, Clocks(STOPPED, STOPPED), true, false, ok(m));
      }
    }
  }

  /** A subscriber leaves. */
  lemma SubscriberLeaves(sessions: seq<Ctx>, st: Stream, id: int, pub: int, i: nat, gone: Ctx)
    requires StreamOk(sessions, st, id, pub) && i < |st.members| && st.members[i] != pub
    ensures st.members[i] < |sessions|
    ensures Without(st.members, i) != [] ==>
              StreamOk(sessions[st.members[i] := gone], st.(members := Without(st.members, i)), id, pub)
  {
    WithoutKeeps(st.members, i);
    assert Known(st.members[i]) && Known(pub);
  }

  /** Some sessions are finalized. */
  ghost predicate Finalizes(sessions: seq<Ctx>, sessions': seq<Ctx>) {
    && |sessions'| == |sessions|
    && forall m: int {:trigger Known(m)} :: Known(m) && 0 <= m < |sessions| ==>
         sessions'[m] == sessions[m] || sessions'[m] == sessions[m].(finalized := true)
  }

  lemma FinalizeKeeps(sessions: seq<Ctx>, st: Stream, id: int, pub: int, sessions': seq<Ctx>)
    requires StreamOk(sessions, st, id, pub) && Finalizes(sessions, sessions')
    ensures StreamOk(sessions', st, id, pub)
  {
    assert Known(pub);
  }

  /** A stream record that was just made. */
  ghost predicate Empty(st: Stream, pub: int) {
    st.members == [] && !st.active && !st.publishing && pub == NULL
  }

  function Joined(st: Stream, x: nat, publisher: bool): Stream {
    Stream(st.name, [x] + st.members, st.active, st.publishing || publisher)
  }

  lemma PublisherJoins(sessions: seq<Ctx>, st: Stream, id: int, x: nat)
    requires StreamOk(sessions, st, id, NULL) || Empty(st, NULL)
    requires x < |sessions| && x !in st.members
    ensures StreamOk(sessions[x := Fresh(id, true, sessions[x].finalized)], Joined(st, x, true), id, x)
  {
    var sessions' := sessions[x := Fresh(id, true, sessions[x].finalized)];
    forall m: int | Known(m) && m in Joined(st, x, true).members ensures MemberOk(sessions', st.active, id, x, m) {
    }
  }

  lemma SubscriberJoins(sessions: seq<Ctx>, st: Stream, id: int, pub: int, x: nat, ok: bool)
    requires StreamOk(sessions, st, id, pub) || Empty(st, pub)
    requires x < |sessions| && x !in st.members
    ensures var c := Fresh(id, false, sessions[x].finalized);
            StreamOk(sessions[x := if st.active then Told(c, true, ok) else c], Joined(st, x, false), id, pub)
  {
    var c := Fresh(id, false, sessions[x].finalized);
    var sessions' := sessions[x := if st.active then Told(c, true, ok) else c];
    assert Known(pub);
    FreshIsLawful(id, sessions[x].finalized, ClocksOf(sessions, pub), st.active, ok);
    forall m: int | Known(m) && m in Joined(st, x, false).members ensures MemberOk(sessions', st.active, id, pub, m) {
    }
  }

  lemma PauseKeeps(sessions: seq<Ctx>, st: Stream, id: int, pub: int, x: nat, pause: bool, ok: bool)
    requires StreamOk(sessions, st, id, pub) && x in st.members && x != pub
    ensures x < |sessions|
    ensures StreamOk(sessions[x := Paused(sessions[x], pause, ok)], st, id, pub)
  {
    assert Known(x) && Known(pub);
    PausingKeeps(sessions[x], ClocksOf(sessions, pub), st.active, pause, ok);
  }

  /** A packet from publisher `x` reaches every listed session that is not paused. */
  ghost predicate Reaches(sessions: seq<Ctx>, sessions': seq<Ctx>, members: seq<nat>, x: nat, conf: Conf, p: Packet,
                          answers: nat -> Answers) {
    && |sessions'| == |sessions| && x < |sessions|
    && forall m: int {:trigger Known(m)} :: Known(m) && 0 <= m < |sessions| ==>
         sessions'[m] == if m == x then sessions[x].(cs := Published(conf, p, sessions[x].cs))
                         else if m in members && !sessions[m].paused then
                           Heard(conf, p, Base(p, Get(sessions[x].cs, First(conf, p))), sessions[m], answers(m))
                         else sessions[m]
  }

  /** The publisher's clock shows the packet's time. */
  ghost predicate Ticks(conf: Conf, p: Packet, c: Ctx, d: Ctx) {
    var k := ClockFor(conf.interleave, p.video, c.cs);
    && ClockFor(conf.interleave, p.video, d.cs) == Clock(true, p.timestamp, k.dropped)
    && d == c.(cs := d.cs) && ClockFor(false, !(conf.interleave || p.video), d.cs)
                              == ClockFor(false, !(conf.interleave || p.video), c.cs)
  }

  /** The same, case by case: who is served, and that nothing else happens. */
  ghost predicate Serves(sessions: seq<Ctx>, sessions': seq<Ctx>, members: seq<nat>, x: nat, conf: Conf, p: Packet,
                         answers: nat -> Answers) {
    && |sessions'| == |sessions| && x < |sessions|
    && forall m: int {:trigger Known(m)} :: Known(m) && 0 <= m < |sessions| ==>
         if m == x then Ticks(conf, p, sessions[x], sessions'[x])
         else if m in members && !sessions[m].paused then
           Served(conf, p, TimeBefore(conf, p, sessions[x].cs), sessions[m], sessions'[m], answers(m))
         else sessions'[m] == sessions[m]
  }

  lemma ReachesServes(sessions: seq<Ctx>, sessions': seq<Ctx>, members: seq<nat>, x: nat, conf: Conf, p: Packet,
                      answers: nat -> Answers)
    requires Reaches(sessions, sessions', members, x, conf, p, answers)
    ensures Serves(sessions, sessions', members, x, conf, p, answers)
  {
    forall m: int | Known(m) && 0 <= m < |sessions|
      ensures if m == x then Ticks(conf, p, sessions[x], sessions'[x])
              else if m in members && !sessions[m].paused then
                Served(conf, p, TimeBefore(conf, p, sessions[x].cs), sessions[m], sessions'[m], answers(m))
              else sessions'[m] == sessions[m]
    {
      if m != x && m in members && !sessions[m].paused {
        HeardIsServed(conf, p, sessions[x].cs, sessions[m], answers(m));
      }
    }
  }

  /** A time difference only goes to subscribers that have dropped no more than the sync limit. */
  ghost predicate WithinSync(sessions: seq<Ctx>, members: seq<nat>, x: nat, conf: Conf, p: Packet,
                             answers: nat -> Answers)
    requires x < |sessions|
  {
    forall m: int {:trigger Known(m)} :: Known(m) && 0 <= m < |sessions| && m in members && m != x
                                         && !sessions[m].paused && !sessions[m].finalized ==>
      var turn := Choose(conf, p, Base(p, Get(sessions[x].cs, First(conf, p))), sessions[m].cs, answers(m));
      turn.Relative? ==> turn.clock.dropped <= conf.sync
  }

  lemma BroadcastWithinSync(sessions: seq<Ctx>, st: Stream, id: int, pub: nat, conf: Conf, p: Packet,
                            answers: nat -> Answers)
    requires StreamOk(sessions, st, id, pub) && st.active && pub < |sessions| && conf.sync != 0
    ensures WithinSync(sessions, st.members, pub, conf, p, answers)
  {
    forall m: int | Known(m) && 0 <= m < |sessions| && m in st.members && m != pub && !sessions[m].finalized
      ensures var turn := Choose(conf, p, Base(p, Get(sessions[pub].cs, First(conf, p))), sessions[m].cs, answers(m));
              turn.Relative? ==> turn.clock.dropped <= conf.sync
    {
      if Choose(conf, p, Base(p, Get(sessions[pub].cs, First(conf, p))), sessions[m].cs, answers(m)).Relative? {
        RelativeWithinSync(conf, p, sessions[pub].cs, sessions[m], answers(m));
      }
    }
  }

  lemma BroadcastKeeps(sessions: seq<Ctx>, st: Stream, id: int, pub: nat, sessions': seq<Ctx>, conf: Conf, p: Packet,
                       answers: nat -> Answers)
    requires StreamOk(sessions, st, id, pub) && st.active
             && Reaches(sessions, sessions', st.members, pub, conf, p, answers)
    ensures StreamOk(sessions', st, id, pub)
  {
    assert Known(pub);
    forall m: int | Known(m) && m in st.members ensures MemberOk(sessions', true, id, pub, m) {
      if m != pub {
        if sessions[m].paused {
          PausedKeeps(conf, p, sessions[pub].cs, sessions[m]);
        } else {
          HeardKeeps(conf, p, sessions[pub].cs, sessions[m], answers(m));
        }
      }
    }
  }
}
