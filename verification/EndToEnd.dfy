/**
  * A whole connection: payloads are copied into shared buffers, chunked, queued, written to the socket in whatever
  * parts it takes, cut up by the network, and reassembled by the receiver. Messages arrive in order, unchanged and
  * without gaps, and no shared buffer is reused before the queue has released it.
  */
module EndToEnd {
  import opened Bytes
  import opened ChunkFormat
  import opened ChunkBuffers
  import opened ChunkSender
  import opened ChunkRoundTrip
  import opened SharedLayout
  import opened SharedPool
  import opened SharedWire
  import R = ChunkReceiver
  import Q = OutQueue

  // ----- From a payload to a prepared chain

  function LiveParts(bufs: seq<Buf>): (parts: seq<seq<byte>>)
    ensures |parts| == |bufs| && forall i :: 0 <= i < |bufs| ==> parts[i] == bufs[i].Live()
  {
    seq(|bufs|, i requires 0 <= i < |bufs| => bufs[i].Live())
  }

  lemma {:induction false} PartsAreChain(bufs: seq<Buf>)
    ensures Concat(LiveParts(bufs)) == ChainBytes(bufs)
  {
    if bufs != [] {
      assert LiveParts(bufs)[1..] == LiveParts(bufs[1..]);
      PartsAreChain(bufs[1..]);
    }
  }

  lemma {:induction false} SizeOfPayload(nodes: seq<Node>, ids: seq<nat>, bufs: seq<Buf>)
    requires BufsAre(nodes, ids, bufs)
    ensures LiveSize(bufs) == |Payload(nodes, ids)|
  {
    if ids != [] {
      SizeOfPayload(nodes, ids[1..], bufs[1..]);
    }
  }

  /** The buffers of a packed chain are ready for headers and hold the pieces of its payload. */
  lemma PackedIsReady(pool: Pool, id: nat, ids: seq<nat>, bufs: seq<Buf>, payload: seq<byte>)
    requires pool.Valid() && pool.chunkSize > 0 && id in pool.layout.chains && ids == pool.layout.chains[id] != []
    requires Packed(pool.nodes, ids, pool.Capacity()) && NoEmptyTail(pool.nodes, ids) && BufsAre(pool.nodes, ids, bufs)
    requires payload == Payload(pool.nodes, ids)
    ensures forall i :: 0 <= i < |bufs| ==> Roomy(bufs[i]) && bufs[i].Valid(pool.Capacity())
    ensures LiveSize(bufs) == |payload| && |Pieces(payload, pool.chunkSize)| == |bufs|
    ensures forall i :: 0 <= i < |bufs| ==> bufs[i].Live() == Pieces(payload, pool.chunkSize)[i]
  {
    forall i | 0 <= i < |ids| ensures pool.nodes[ids[i]].buf.Valid(pool.Capacity()) {
      assert Known(ids[i]);
    }
    PackedArePieces(pool.nodes, ids, pool.chunkSize);
    SizeOfPayload(pool.nodes, ids, bufs);
  }

  /** Buffers that hold the pieces of `payload` become the message on the wire. */
  method PrepareBufs(cfg: Config, id: nat, h: Header, lh: Option<Header>, bufs: seq<Buf>, ghost capacity: nat,
                     ghost payload: seq<byte>, ghost ps: seq<seq<byte>>)
    returns (ok: bool, out: seq<Buf>, m: Q.Chain)
    requires cfg.Valid() && h.csid >= 2 && bufs != []
    requires forall i :: 0 <= i < |bufs| ==> Roomy(bufs[i]) && bufs[i].Valid(capacity)
    requires LiveSize(bufs) == |payload| < TWO32 && ps == Pieces(payload, cfg.chunkSize) && |ps| == |bufs|
    requires forall i :: 0 <= i < |bufs| ==> bufs[i].Live() == ps[i]
    ensures |out| == |bufs| && forall i :: 0 <= i < |out| ==> out[i].Valid(capacity)
    ensures ok == (h.csid < cfg.maxStreams) && (!ok ==> out == bufs)
    ensures m == Q.Chain(id, LiveParts(out))
    ensures ok ==> Q.Sendable(m) && Concat(m.bufs) == Wire(cfg.timeFix, h, lh, payload, cfg.chunkSize)
  {
    ok, out := PrepareMessage(cfg.maxStreams, cfg.timeFix, h, lh, bufs);
    m := Q.Chain(id, LiveParts(out));
    if ok {
      SmallMod(|payload|);
      PreparedChain(cfg, h, lh, bufs, out, payload, ps);
    }
  }

  lemma PreparedChain(cfg: Config, h: Header, lh: Option<Header>, bufs: seq<Buf>, out: seq<Buf>, payload: seq<byte>,
                      ps: seq<seq<byte>>)
    requires cfg.Valid() && h.csid >= 2 && |out| == |bufs| > 0
    requires |payload| < TWO32 && ps == Pieces(payload, cfg.chunkSize) && |ps| == |bufs|
    requires forall i :: 0 <= i < |bufs| ==> bufs[i].Live() == ps[i]
    requires var head, room := FirstHeader(h, lh, |payload|), Reserved(h, lh, |payload|);
             room <= |head| && out[0].Live() == Headed(head, room, bufs[0].Live())
    requires forall i :: 1 <= i < |out| ==> out[i].Live() == NextHeader(cfg.timeFix, h, lh) + bufs[i].Live()
    ensures forall i :: 0 <= i < |out| ==> LiveParts(out)[i] != []
    ensures Concat(LiveParts(out)) == Wire(cfg.timeFix, h, lh, payload, cfg.chunkSize)
  {
    PreparedIsWire(cfg.timeFix, h, lh, payload, cfg.chunkSize, ps, bufs, out);
    PartsAreChain(out);
    PreparedIsSendable(h, lh, |payload|, cfg.timeFix, bufs, out);
  }

  /** Every prepared buffer begins with a header. */
  lemma PreparedIsSendable(h: Header, lh: Option<Header>, mlen: uint32, timeFix: bool, bufs: seq<Buf>, out: seq<Buf>)
    requires h.csid >= 2 && |out| == |bufs| > 0
    requires var head, room := FirstHeader(h, lh, mlen), Reserved(h, lh, mlen);
             room <= |head| && out[0].Live() == Headed(head, room, bufs[0].Live())
    requires forall i :: 1 <= i < |out| ==> out[i].Live() == NextHeader(timeFix, h, lh) + bufs[i].Live()
    ensures forall i :: 0 <= i < |out| ==> out[i].Live() != []
  {
    HeaderFits(h, lh, mlen);
    HeadedFits(FirstHeader(h, lh, mlen), bufs[0].Live());
    assert |BasicBytes(3, h.csid)| > 0;
  }

  /** Writes the chunk headers into the buffers of chain `id`: its bytes are then the message on the wire. */
  method PrepareShared(cfg: Config, pool: Pool, id: nat, h: Header, lh: Option<Header>, ghost payload: seq<byte>)
    returns (ok: bool, m: Q.Chain)
    requires cfg.Valid() && pool.Valid() && pool.chunkSize == cfg.chunkSize && h.csid >= 2
    requires id in pool.layout.chains && pool.layout.chains[id] != []
    requires Packed(pool.nodes, pool.layout.chains[id], pool.Capacity())
             && NoEmptyTail(pool.nodes, pool.layout.chains[id])
    requires payload == Payload(pool.nodes, pool.layout.chains[id]) && |payload| < TWO32
    modifies pool`nodes
    ensures pool.Valid() && OthersKept(old(pool.nodes), pool.layout, pool.nodes, pool.layout, id)
    ensures ok == (h.csid < cfg.maxStreams)
    ensures m.id == id && (ok ==> Q.Sendable(m)) && InMemory(pool.nodes, pool.layout, m)
    ensures ok ==> Concat(m.bufs) == Wire(cfg.timeFix, h, lh, payload, cfg.chunkSize)
  {
    var ids, bufs := pool.ReadChain(id);
    PackedIsReady(pool, id, ids, bufs, payload);
    var out;
    ok, out, m := PrepareBufs(cfg, id, h, lh, bufs, pool.Capacity(), payload, Pieces(payload, cfg.chunkSize));
    pool.WriteChain(id, ids, out);
  }

  // ----- Shared memory behind the queue

  /** The buffers of message `m` are in memory and hold its bytes. */
  ghost predicate InMemory(nodes: seq<Node>, l: Layout, m: Q.Chain) {
    && m.id in l.chains && |l.chains[m.id]| == |m.bufs|
    && forall i :: 0 <= i < |m.bufs| ==>
         l.chains[m.id][i] < |nodes| && nodes[l.chains[m.id][i]].buf.Live() == m.bufs[i]
  }

  /** Message `k` of `ms` is in memory, under a name of its own, and is held once. */
  ghost predicate HeldAt(nodes: seq<Node>, l: Layout, ms: seq<Q.Chain>, k: int) {
    0 <= k < |ms| ==>
      && InMemory(nodes, l, ms[k]) && ms[k].id in l.refs && l.refs[ms[k].id] == 1
      && forall j :: 0 <= j < k ==> ms[j].id != ms[k].id
  }

  ghost predicate Held(nodes: seq<Node>, l: Layout, ms: seq<Q.Chain>) {
    forall k: int {:trigger Known(k)} :: Known(k) ==> HeldAt(nodes, l, ms, k)
  }

  /** Chains that an operation keeps stay held. */
  lemma HeldKept(nodes: seq<Node>, l: Layout, nodes': seq<Node>, l': Layout, h: nat, ms: seq<Q.Chain>)
    requires Held(nodes, l, ms) && OthersKept(nodes, l, nodes', l', h)
    requires forall k :: 0 <= k < |ms| ==> ms[k].id != h
    ensures Held(nodes', l', ms)
  {
    forall k: int | Known(k) ensures HeldAt(nodes', l', ms, k) {
      if 0 <= k < |ms| {
        assert Known(ms[k].id);
      }
    }
  }

  lemma HeldMore(nodes: seq<Node>, l: Layout, ms: seq<Q.Chain>, m: Q.Chain)
    requires Held(nodes, l, ms) && InMemory(nodes, l, m) && m.id in l.refs && l.refs[m.id] == 1
    requires forall k :: 0 <= k < |ms| ==> ms[k].id != m.id
    ensures Held(nodes, l, ms + [m])
  {
  }

  lemma HeldTail(nodes: seq<Node>, l: Layout, ms: seq<Q.Chain>)
    requires Held(nodes, l, ms) && ms != []
    ensures Held(nodes, l, ms[1..])
  {
    forall k: int | Known(k) ensures HeldAt(nodes, l, ms[1..], k) {
      assert Known(k + 1);
    }
  }

  /** Only counts of other chains have changed. */
  lemma HeldSame(nodes: seq<Node>, l: Layout, nodes': seq<Node>, l': Layout, ms: seq<Q.Chain>)
    requires Held(nodes, l, ms)
    requires |nodes'| == |nodes| && forall k :: 0 <= k < |nodes| ==> nodes'[k].buf == nodes[k].buf
    requires forall k :: 0 <= k < |ms| && ms[k].id in l.chains && ms[k].id in l.refs ==>
               && ms[k].id in l'.chains && l'.chains[ms[k].id] == l.chains[ms[k].id]
               && ms[k].id in l'.refs && l'.refs[ms[k].id] == l.refs[ms[k].id]
    ensures Held(nodes', l', ms)
  {
    forall k: int | Known(k) ensures HeldAt(nodes', l', ms, k) {
    }
  }

  /** Chain `id` holds message `m`, is none of the messages `ms`, and has one reference. */
  ghost predicate Owns(nodes: seq<Node>, l: Layout, ms: seq<Q.Chain>, id: nat, m: Q.Chain) {
    && Held(nodes, l, ms) && (forall k :: 0 <= k < |ms| ==> ms[k].id != id)
    && m.id == id && InMemory(nodes, l, m) && id in l.refs && l.refs[id] == 1
  }

  lemma HeldNames(nodes: seq<Node>, l: Layout, ms: seq<Q.Chain>)
    requires Held(nodes, l, ms)
    ensures forall k :: 0 <= k < |ms| ==> ms[k].id in l.chains
  {
    forall k | 0 <= k < |ms| ensures ms[k].id in l.chains {
      assert Known(k);
    }
  }

  lemma FirstHeld(nodes: seq<Node>, l: Layout, ms: seq<Q.Chain>)
    requires Held(nodes, l, ms) && ms != []
    ensures ms[0].id in l.chains && ms[0].id in l.refs && l.refs[ms[0].id] == 1
    ensures forall k :: 1 <= k < |ms| ==> ms[k].id != ms[0].id
  {
    assert Known(0);
    forall k | 1 <= k < |ms| ensures ms[k].id != ms[0].id {
      assert Known(k);
    }
  }

  // ----- What the queue holds, and what has arrived

  /** Each chain holds one message, chunked and prepared. */
  ghost predicate Carries(cfg: Config, chains: seq<Q.Chain>, msgs: seq<OutMessage>) {
    && cfg.Valid() && Sized(msgs) && |chains| == |msgs|
    && forall i :: 0 <= i < |msgs| ==>
         Concat(chains[i].bufs) == Wire(cfg.timeFix, msgs[i].h, msgs[i].lh, msgs[i].payload, cfg.chunkSize)
  }

  lemma {:induction false} FlatIsWireAll(cfg: Config, chains: seq<Q.Chain>, msgs: seq<OutMessage>)
    requires Carries(cfg, chains, msgs)
    ensures Q.Flat(chains) == WireAll(cfg, msgs)
    decreases |msgs|
  {
    if msgs != [] {
      FlatIsWireAll(cfg, chains[1..], msgs[1..]);
    }
  }

  lemma CarriesMore(cfg: Config, chains: seq<Q.Chain>, msgs: seq<OutMessage>, m: Q.Chain, msg: OutMessage)
    requires Carries(cfg, chains, msgs) && |msg.payload| < TWO32
    requires Concat(m.bufs) == Wire(cfg.timeFix, msg.h, msg.lh, msg.payload, cfg.chunkSize)
    ensures Carries(cfg, chains + [m], msgs + [msg])
  {
  }

  /**
    * A receiver that has got some of the bytes of the accepted messages has delivered a prefix of the messages, and
    * one that has got all of them has delivered them all.
    */
  lemma AcceptedIsDelivered(cfg: Config, r: Receiver, last: map<uint32, InStream>, accepted: seq<Q.Chain>,
                            msgs: seq<OutMessage>, bytes: seq<byte>)
    requires Tracks(cfg, r, last) && Disciplined(cfg, last, msgs)
    requires Carries(cfg, accepted, msgs) && bytes <= Q.Flat(accepted)
    ensures Feed(cfg, r, bytes).delivered <= r.delivered + Deliveries(msgs)
    ensures bytes == Q.Flat(accepted) ==> Feed(cfg, r, bytes).delivered == r.delivered + Deliveries(msgs)
  {
    var all := WireAll(cfg, msgs);
    FlatIsWireAll(cfg, accepted, msgs);
    var rest := all[|bytes|..];
    assert all == bytes + rest;
    WireRoundTrip(cfg, r, last, msgs);
    FeedCompose(cfg, r, bytes, rest);
    FeedGrows(cfg, Feed(cfg, r, bytes), rest);
  }

  /** The receiver has taken `bytes` since it was new; it may have been closed since. */
  ghost predicate Seen(cfg: Config, bytes: seq<byte>, r: Receiver) {
    cfg.Valid() && var f := Feed(cfg, NewReceiver(cfg), bytes); r == f || r == Dead(f)
  }

  lemma SeenNothing(cfg: Config)
    requires cfg.Valid()
    ensures Seen(cfg, [], NewReceiver(cfg))
  {
    FeedNothing(cfg, NewReceiver(cfg));
  }

  lemma SeenMore(cfg: Config, bytes: seq<byte>, r: Receiver, more: seq<byte>, r': Receiver, all: seq<byte>)
    requires Seen(cfg, bytes, r) && WellFormed(cfg, r) && all == bytes + more
    requires r' == Feed(cfg, r, more) || r' == Dead(Feed(cfg, r, more))
    requires r.dead ==> more == [] && r' == r
    ensures Seen(cfg, all, r')
  {
    if r.dead {
      assert all == bytes;
    } else {
      FeedCompose(cfg, NewReceiver(cfg), bytes, more);
    }
  }

  lemma TailGrows(all: seq<Q.Chain>, n: nat, tail: seq<Q.Chain>, m: Q.Chain)
    requires n <= |all| && tail == all[n..]
    ensures (all + [m])[n..] == tail + [m]
  {
  }

  /** Keeps what is said of a connection folded, as Unfold does with definitions. */
  ghost predicate Open(k: int) { true }

  /** The receiver is between two reads and has seen `bytes`. */
  ghost predicate Receiving(cfg: Config, session: R.Session, bytes: seq<byte>)
    reads session
  {
    forall k: int {:trigger Open(k)} :: Open(k) ==>
      session.Valid() && session.cfg == cfg && Seen(cfg, bytes, session.model)
  }

  lemma PrefixGrows(s: seq<byte>, n: nat, k: nat)
    requires n <= |s| && k <= |s[n..]|
    ensures s[..n + k] == s[..n] + s[n..][..k]
  {
  }

  lemma PrefixKept(s: seq<byte>, t: seq<byte>, n: nat)
    requires s <= t && n <= |s|
    ensures t[..n] == s[..n]
  {
  }

  /** Whether the queue accepts: by what is queued, or where the formula does not count that, by the formula. */
  ghost predicate Takes(q: Q.Output, priority: nat)
    reads q
  {
    if q.Counts() then Q.Accepts(|q.queued|, priority, q.out.Length) else q.Takes(priority)
  }

  // ----- The connection

  class Link {
    const cfg: Config
    const pool: Pool
    const q: Q.Output
    const session: R.Session
    var got: nat
    ghost var seen: seq<byte>
    ghost var sent: seq<OutMessage>

    /** Shared buffers, the queue over them and the receiver at the other end agree; `got` bytes have crossed. */
    ghost predicate Valid()
      reads this, pool, q, q.out, session
    {
      && cfg.Valid() && pool.chunkSize == cfg.chunkSize && session.cfg == cfg
      && Sending() && Carries(cfg, q.accepted, sent)
      && got <= |q.wire| && seen == q.wire[..got] && Receiving(cfg, session, seen)
    }

    /** What is queued is in the shared buffers. */
    ghost predicate Sending()
      reads pool, q, q.out
    {
      forall k: int {:trigger Open(k)} :: Open(k) ==>
        pool.Valid() && q.Valid() && Held(pool.nodes, pool.layout, q.queued)
    }

    constructor (cfg: Config, pool: Pool, q: Q.Output, session: R.Session)
      requires cfg.Valid() && pool.Valid() && q.Valid() && session.Valid()
      requires pool.chunkSize == cfg.chunkSize && session.cfg == cfg
      requires q.queued == [] && q.accepted == [] && session.model == NewReceiver(cfg)
      ensures Valid() && this.cfg == cfg && this.pool == pool && this.q == q && this.session == session
      ensures sent == [] && got == 0
    {
      this.cfg, this.pool, this.q, this.session := cfg, pool, q, session;
      got, seen, sent := 0, [], [];
      SeenNothing(cfg);
    }

    /** Messages the queue has released since `n` are let go of. */
    method LetGo(n: nat)
      requires pool.Valid() && q.Valid() && n <= |q.released| <= |q.accepted|
      requires Held(pool.nodes, pool.layout, q.accepted[n..])
      modifies pool
      ensures Sending()
    {
      Q.BooksSay(q.accepted, q.queued, q.at, q.wire, q.released);
      var i := n;
      ghost var ms := q.accepted[n..];
      while i < |q.released|
        invariant pool.Valid() && n <= i <= |q.released|
        invariant ms == q.accepted[i..] && Held(pool.nodes, pool.layout, ms)
      {
        LetGoOne(q.released[i], ms);
        Q.DropOne(q.accepted, ms, i);
        ms := ms[1..];
        i := i + 1;
      }
    }

    /** The first of the messages `ms` in memory is let go of. */
    method LetGoOne(id: nat, ghost ms: seq<Q.Chain>)
      requires pool.Valid() && Held(pool.nodes, pool.layout, ms) && ms != [] && ms[0].id == id
      modifies pool
      ensures pool.Valid() && Held(pool.nodes, pool.layout, ms[1..])
    {
      ghost var nodes0, l0 := pool.nodes, pool.layout;
      FirstHeld(nodes0, l0, ms);
      pool.FreeSharedChain(id);
      HeldTail(nodes0, l0, ms);
      HeldSame(nodes0, l0, pool.nodes, pool.layout, ms[1..]);
    }

    /** Copies a payload into a new shared chain and adds the headers; the messages `ms` in memory stay as they are. */
    method Build(h: Header, lh: Option<Header>, input: seq<seq<byte>>, ghost payload: seq<byte>, ghost ms: seq<Q.Chain>)
      returns (ok: bool, id: nat, m: Q.Chain)
      requires cfg.Valid() && pool.Valid() && pool.chunkSize == cfg.chunkSize && Held(pool.nodes, pool.layout, ms)
      requires input != [] && h.csid >= 2 && payload == Concat(input) && |payload| < TWO32
      modifies pool
      ensures pool.Valid() && Owns(pool.nodes, pool.layout, ms, id, m) && ok == (h.csid < cfg.maxStreams)
      ensures ok ==> Q.Sendable(m) && Concat(m.bufs) == Wire(cfg.timeFix, h, lh, payload, cfg.chunkSize)
    {
      HeldNames(pool.nodes, pool.layout, ms);
      ghost var nodes0, l0 := pool.nodes, pool.layout;
      id := pool.AppendSharedBufs(NULL, input);
      HeldKept(nodes0, l0, pool.nodes, pool.layout, id, ms);
      assert pool.layout.chains[id] != [] by {
        assert Known(id);
      }
      assert [] + payload == payload;
      nodes0 := pool.nodes;
      ok, m := PrepareShared(cfg, pool, id, h, lh, payload);
      HeldKept(nodes0, pool.layout, pool.nodes, pool.layout, id, ms);
    }

    /** The queue takes its own reference if it has accepted the chain, and the module lets go of the chain. */
    method HandOver(id: nat, kept: bool, ghost ms: seq<Q.Chain>, ghost m: Q.Chain)
      requires pool.Valid() && Owns(pool.nodes, pool.layout, ms, id, m)
      modifies pool
      ensures pool.Valid() && Held(pool.nodes, pool.layout, if kept then ms + [m] else ms)
    {
      ghost var nodes0, l0 := pool.nodes, pool.layout;
      if kept {
        pool.AcquireSharedChain(id);
      }
      pool.FreeSharedChain(id);
      if kept {
        HeldMore(nodes0, l0, ms, m);
        HeldSame(nodes0, l0, pool.nodes, pool.layout, ms + [m]);
      } else {
        HeldSame(nodes0, l0, pool.nodes, pool.layout, ms);
      }
    }

    /**
      * A module sends a message: the payload is copied into a new shared chain, headers are added, the queue takes
      * its own reference if it accepts the message, and the module lets go of the chain.
      */
    method Submit(h: Header, lh: Option<Header>, input: seq<seq<byte>>, priority: nat, cork: nat, buffered: bool,
                  answers: seq<Q.Sent>) returns (ok: bool)
      requires Valid() && |q.queued| < q.out.Length && input != [] && h.csid >= 2 && |Concat(input)| < TWO32
      modifies this`sent, pool, q, q.out
      ensures Valid()
      ensures sent == if ok then old(sent) + [OutMessage(h, lh, Concat(input))] else old(sent)
      ensures ok <==> h.csid < cfg.maxStreams && old(Takes(q, priority))
    {
      ghost var msg, m := OutMessage(h, lh, Concat(input)), Q.Chain(0, []);
      ok, m := Push(h, lh, input, msg.payload, priority, cork, buffered, answers);
      PrefixKept(old(q.wire), q.wire, got);
      if ok {
        CarriesMore(cfg, old(q.accepted), sent, m, msg);
        sent := sent + [msg];
      }
    }

    /** The sending side of Submit. */
    method Push(h: Header, lh: Option<Header>, input: seq<seq<byte>>, ghost payload: seq<byte>, priority: nat,
                cork: nat, buffered: bool, answers: seq<Q.Sent>) returns (ok: bool, ghost m: Q.Chain)
      requires cfg.Valid() && pool.chunkSize == cfg.chunkSize && Sending() && |q.queued| < q.out.Length
      requires input != [] && h.csid >= 2 && payload == Concat(input) && |payload| < TWO32
      modifies pool, q, q.out
      ensures Sending() && old(q.wire) <= q.wire
      ensures ok <==> h.csid < cfg.maxStreams && old(Takes(q, priority))
      ensures q.accepted == if ok then old(q.accepted) + [m] else old(q.accepted)
      ensures ok ==> Concat(m.bufs) == Wire(cfg.timeFix, h, lh, payload, cfg.chunkSize)
    {
      assert Open(0);
      var id, built;
      ok, id, built := Build(h, lh, input, payload, q.queued);
      m := built;
      if ok {
        ok := Enqueue(id, built, priority, cork, buffered, answers);
      } else {
        q.Finalize();
        HandOver(id, false, q.queued, m);
      }
    }

    /** A prepared chain goes to the queue; what the socket takes at once is released. */
    method Enqueue(id: nat, m: Q.Chain, priority: nat, cork: nat, buffered: bool, answers: seq<Q.Sent>)
      returns (ok: bool)
      requires pool.Valid() && q.Valid() && |q.queued| < q.out.Length && Q.Sendable(m)
               && Owns(pool.nodes, pool.layout, q.queued, id, m)
      modifies pool, q, q.out
      ensures Sending() && old(q.wire) <= q.wire
      ensures ok <==> old(Takes(q, priority))
      ensures q.accepted == if ok then old(q.accepted) + [m] else old(q.accepted)
    {
      var n := |q.released|;
      ghost var queued := q.queued;
      ok := Offer(m, priority, cork, buffered, answers);
      HandOver(id, ok, queued, m);
      LetGo(n);
    }

    /** The queue alone: what it has not released before is what was queued and, if it is accepted, the message. */
    method Offer(m: Q.Chain, priority: nat, cork: nat, buffered: bool, answers: seq<Q.Sent>) returns (ok: bool)
      requires q.Valid() && |q.queued| < q.out.Length && Q.Sendable(m)
      modifies q, q.out
      ensures q.Valid() && old(q.wire) <= q.wire && (ok <==> old(Takes(q, priority)))
      ensures q.accepted == if ok then old(q.accepted) + [m] else old(q.accepted)
      ensures old(|q.released|) <= |q.released| <= |q.accepted|
      ensures q.accepted[old(|q.released|)..] == if ok then old(q.queued) + [m] else old(q.queued)
    {
      Q.BooksSay(q.accepted, q.queued, q.at, q.wire, q.released);
      TailGrows(q.accepted, |q.released|, q.queued, m);
      ok := q.SendMessage(m, priority, cork, buffered, answers);
      Q.BooksSay(q.accepted, q.queued, q.at, q.wire, q.released);
    }

    /** The socket is writable again, or has timed out. */
    method Flush(timedOut: bool, answers: seq<Q.Sent>)
      requires Valid()
      modifies pool, q`at, q`outChain, q`active, q`outPos, q`slots, q`queued, q`wire, q`released, q`destroyed
      ensures Valid() && old(q.wire) <= q.wire
    {
      Drain(timedOut, answers);
      PrefixKept(old(q.wire), q.wire, got);
    }

    /** Writes what the socket takes, and lets go of the messages that are finished. */
    method Drain(timedOut: bool, answers: seq<Q.Sent>)
      requires Sending()
      modifies pool, q`at, q`outChain, q`active, q`outPos, q`slots, q`queued, q`wire, q`released, q`destroyed
      ensures Sending() && old(q.wire) <= q.wire && q.accepted == old(q.accepted)
    {
      assert Open(0);
      Q.BooksSay(q.accepted, q.queued, q.at, q.wire, q.released);
      var n := |q.released|;
      var _ := q.Send(timedOut, answers);
      Q.BooksSay(q.accepted, q.queued, q.at, q.wire, q.released);
      LetGo(n);
    }

    /** The receiver reads what has crossed the network, in reads of the given sizes. */
    method Receive(sizes: seq<nat>)
      requires Valid()
      modifies this`got, this`seen, session
      ensures Valid() && got >= old(got)
    {
      var avail := q.wire[got..];
      var taken := Read(cfg, session, seen, avail, sizes);
      ghost var more := seen + avail[..taken];
      assert Sending() && Receiving(cfg, session, more);
      PrefixGrows(q.wire, got, taken);
      got, seen := got + taken, more;
    }
  }

  /** The receiver, which has seen `bytes`, reads some of the bytes in `avail`. */
  method Read(cfg: Config, session: R.Session, ghost bytes: seq<byte>, avail: seq<byte>, sizes: seq<nat>)
    returns (taken: nat)
    requires Receiving(cfg, session, bytes)
    modifies session
    ensures taken <= |avail| && Receiving(cfg, session, bytes + avail[..taken])
  {
    assert Open(0);
    ghost var r := session.model;
    var calls, eof;
    taken, calls, eof := session.Recv(avail, sizes);
    SeenMore(cfg, bytes, r, avail[..taken], session.model, bytes + avail[..taken]);
  }

  /** Whatever has happened so far, the receiver has delivered a prefix of the messages accepted, unchanged. */
  lemma DeliveredInOrder(l: Link)
    requires l.Valid() && Disciplined(l.cfg, map[], l.sent)
    ensures l.session.delivered <= Deliveries(l.sent)
    ensures l.got == |Q.Flat(l.q.accepted)| ==> l.session.delivered == Deliveries(l.sent)
  {
    assert l.q.wire <= Q.Flat(l.q.accepted) && Seen(l.cfg, l.seen, l.session.model)
           && l.session.delivered == l.session.model.delivered by {
      assert Open(0);
      Q.BooksSay(l.q.accepted, l.q.queued, l.q.at, l.q.wire, l.q.released);
    }
    SeenIsDelivered(l.cfg, l.q.accepted, l.sent, l.seen, l.session.model);
  }

  /** The same, of the bytes seen. */
  lemma SeenIsDelivered(cfg: Config, accepted: seq<Q.Chain>, msgs: seq<OutMessage>, bytes: seq<byte>, r: Receiver)
    requires Carries(cfg, accepted, msgs) && Disciplined(cfg, map[], msgs)
    requires bytes <= Q.Flat(accepted) && Seen(cfg, bytes, r)
    ensures r.delivered <= Deliveries(msgs)
    ensures bytes == Q.Flat(accepted) ==> r.delivered == Deliveries(msgs)
  {
    FedIsDelivered(cfg, accepted, msgs, bytes);
  }

  /** A new receiver that is fed some of the bytes of the accepted messages. */
  lemma FedIsDelivered(cfg: Config, accepted: seq<Q.Chain>, msgs: seq<OutMessage>, bytes: seq<byte>)
    requires Carries(cfg, accepted, msgs) && Disciplined(cfg, map[], msgs) && bytes <= Q.Flat(accepted)
    ensures Feed(cfg, NewReceiver(cfg), bytes).delivered <= Deliveries(msgs)
    ensures bytes == Q.Flat(accepted) ==> Feed(cfg, NewReceiver(cfg), bytes).delivered == Deliveries(msgs)
  {
    var r, all := NewReceiver(cfg), Deliveries(msgs);
    AcceptedIsDelivered(cfg, r, map[], accepted, msgs, bytes);
    assert r.delivered == [] && [] + all == all;
  }

  /** If the queue size divides 2^64, a message can be submitted in every state. */
  lemma AlwaysRoom(l: Link)
    requires l.Valid() && l.q.out.Length > 0 && TWO64 % l.q.out.Length == 0
    ensures |l.q.queued| < l.q.out.Length
  {
    assert Open(0);
    l.q.NeverFull();
  }

  /** As long as a message is queued, its shared buffers hold its bytes and are not free. */
  lemma QueuedStaysInMemory(l: Link, k: nat)
    requires l.Valid() && k < |l.q.queued|
    ensures InMemory(l.pool.nodes, l.pool.layout, l.q.queued[k])
    ensures forall i, j :: 0 <= i < |l.pool.layout.chains[l.q.queued[k].id]| && 0 <= j < |l.pool.layout.free| ==>
              l.pool.layout.chains[l.q.queued[k].id][i] != l.pool.layout.free[j]
  {
    assert Open(0);
    QueuedNotFree(l.pool.nodes, l.pool.layout, l.pool.home, l.q.queued, k);
  }

  lemma QueuedNotFree(nodes: seq<Node>, l: Layout, home: seq<Home>, ms: seq<Q.Chain>, k: nat)
    requires LayoutOk(l, home) && Held(nodes, l, ms) && k < |ms|
    ensures InMemory(nodes, l, ms[k])
    ensures forall i, j :: 0 <= i < |l.chains[ms[k].id]| && 0 <= j < |l.free| ==> l.chains[ms[k].id][i] != l.free[j]
  {
    assert Known(k);
    var c := ms[k].id;
    forall i, j | 0 <= i < |l.chains[c]| && 0 <= j < |l.free| ensures l.chains[c][i] != l.free[j] {
      assert Slot(c, i) && Slot(FREE, j);
    }
  }
}
