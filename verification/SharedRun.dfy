/**
  * Whole runs of the server's output side: code that builds chains and holds references, and sessions whose
  * queues hold one reference per slot. Closing a session releases the slots one at a time.
  */
module SharedRun {
  import opened Bytes
  import opened SharedLayout

  /** `code` counts the references held outside the queues; `queues[s]` names the chains queued on session s. */
  datatype Server = Server(layout: Layout, size: nat, code: multiset<nat>, queues: seq<seq<nat>>)

  datatype Step =
    | Alloc
    | Extend(h: nat)
    | Hold(h: nat)
    | Enqueue(s: nat, h: nat)
    | Refuse(s: nat, h: nat)
    | Sent(s: nat)
    | Drop(h: nat)
    | Close(s: nat)
    | Open

  ghost function Slots(queues: seq<seq<nat>>): multiset<nat> {
    if queues == [] then multiset{} else multiset(queues[0]) + Slots(queues[1..])
  }

  /** How many references to chain `h` exist. */
  ghost function Holders(v: Server, h: nat): nat {
    v.code[h] + Slots(v.queues)[h]
  }

  /** Code may only use chains it holds; a session sends from and closes its own queue. */
  ghost predicate Allowed(v: Server, step: Step) {
    match step
    case Alloc => true
    case Extend(h) => h in v.code
    case Hold(h) => h in v.code
    case Enqueue(s, h) => s < |v.queues| && h in v.code
    case Refuse(s, h) => s < |v.queues| && h in v.code
    case Sent(s) => s < |v.queues| && v.queues[s] != []
    case Drop(h) => h in v.code
    case Close(s) => s < |v.queues|
    case Open => true
  }

  /** `Acquired` and `Released`, on any chain name. */
  ghost function Take(l: Layout, h: nat): Layout {
    if h in l.refs then Acquired(l, h) else l
  }

  ghost function Free(l: Layout, h: nat): Layout {
    if h in l.refs && h in l.chains then Released(l, h) else l
  }

  /** The number of buffers ever made grows when an allocation finds the free list empty. */
  ghost function SizeAfter(v: Server): nat {
    if v.layout.free == [] then v.size + 1 else v.size
  }

  ghost function FreeAll(l: Layout, hs: seq<nat>): Layout
    decreases |hs|
  {
    if hs == [] then l else FreeAll(Free(l, hs[0]), hs[1..])
  }

  ghost function Next(v: Server, step: Step): Server
    requires Allowed(v, step)
  {
    match step
    case Alloc =>
      Server(Allocated(v.layout, v.size), SizeAfter(v), v.code + multiset{AllocatedId(v.layout, v.size)}, v.queues)
    case Extend(h) => Server(Grown(v.layout, v.size, h), SizeAfter(v), v.code, v.queues)
    case Hold(h) => v.(layout := Take(v.layout, h), code := v.code + multiset{h})
    case Enqueue(s, h) => v.(layout := Take(v.layout, h), queues := v.queues[s := v.queues[s] + [h]])
    case Refuse(s, h) => v
    case Sent(s) => v.(layout := Free(v.layout, v.queues[s][0]), queues := v.queues[s := v.queues[s][1..]])
    case Drop(h) => v.(layout := Free(v.layout, h), code := v.code - multiset{h})
    case Close(s) => v.(layout := FreeAll(v.layout, v.queues[s]), queues := v.queues[s := []])
    case Open => v.(queues := v.queues + [[]])
  }

  // ----- The invariant

  /** Reference counts are exactly the references that exist. */
  ghost predicate Exact(l: Layout, holders: multiset<nat>) {
    forall h: nat {:trigger Known(h)} :: Known(h) ==>
      (h in l.refs <==> h in l.chains) && (if h in l.refs then l.refs[h] else 0) == holders[h]
  }

  /** Every buffer is in one place, and every count is exact. */
  ghost predicate Sound(l: Layout, n: nat, holders: multiset<nat>) {
    Exact(l, holders) && exists home :: |home| == n && LayoutOk(l, home)
  }

  ghost predicate Conserved(v: Server) {
    Sound(v.layout, v.size, v.code + Slots(v.queues))
  }

  const START := Server(Layout([], map[], map[]), 0, multiset{}, [])

  ghost predicate Runs(v: Server, steps: seq<Step>, w: Server)
    decreases |steps|
  {
    if steps == [] then v == w
    else Allowed(v, steps[0]) && Runs(Next(v, steps[0]), steps[1..], w)
  }

  // ----- Slots

  lemma {:induction false} SlotsUpdate(queues: seq<seq<nat>>, s: nat, q: seq<nat>, h: nat)
    requires s < |queues|
    ensures Slots(queues[s := q])[h] + multiset(queues[s])[h] == Slots(queues)[h] + multiset(q)[h]
  {
    if s == 0 {
      assert queues[s := q][1..] == queues[1..];
    } else {
      assert queues[s := q][1..] == queues[1..][s - 1 := q];
      SlotsUpdate(queues[1..], s - 1, q, h);
    }
  }

  lemma MultisetPop(q: seq<nat>, h: nat)
    requires q != []
    ensures multiset(q)[h] == multiset(q[1..])[h] + if h == q[0] then 1 else 0
  {
    assert q == [q[0]] + q[1..];
    assert multiset(q) == multiset([q[0]]) + multiset(q[1..]);
  }

  lemma {:induction false} SlotsOpen(queues: seq<seq<nat>>)
    ensures Slots(queues + [[]]) == Slots(queues)
  {
    if queues == [] {
      assert queues + [[]] == [[]];
      assert Slots([[]]) == multiset([]) + Slots([]);
    } else {
      assert (queues + [[]])[1..] == queues[1..] + [[]];
      SlotsOpen(queues[1..]);
    }
  }

  // ----- Each step keeps the invariant

  lemma SoundAlloc(l: Layout, n: nat, holders: multiset<nat>)
    requires Sound(l, n, holders)
    ensures Sound(Allocated(l, n), if l.free == [] then n + 1 else n, holders + multiset{AllocatedId(l, n)})
  {
    var home :| |home| == n && LayoutOk(l, home);
    AllocKeeps(l, home);
    NotAChain(l, home, AllocatedId(l, n));
    var l', home' := Allocated(l, n), AllocatedHomes(l, home);
    assert LayoutOk(l', home');
    assert |home'| == if l.free == [] then n + 1 else n;
  }

  lemma SoundGrow(l: Layout, n: nat, holders: multiset<nat>, h: nat)
    requires Sound(l, n, holders) && h in holders
    ensures Sound(Grown(l, n, h), if l.free == [] then n + 1 else n, holders)
  {
    var home :| |home| == n && LayoutOk(l, home);
    assert Known(h);
    var id := AllocatedId(l, n);
    NotAChain(l, home, id);
    AllocKeeps(l, home);
    JoinKeeps(Allocated(l, n), AllocatedHomes(l, home), h, id);
    var l', home' := Grown(l, n, h), JoinedHomes(Allocated(l, n), AllocatedHomes(l, home), h, id);
    assert LayoutOk(l', home');
    assert |home'| == if l.free == [] then n + 1 else n;
    forall g: nat | Known(g)
      ensures (g in l'.refs <==> g in l'.chains) && (if g in l'.refs then l'.refs[g] else 0) == holders[g]
    {
    }
  }

  lemma SoundTake(l: Layout, n: nat, holders: multiset<nat>, h: nat)
    requires Sound(l, n, holders) && h in holders
    ensures Sound(Take(l, h), n, holders + multiset{h})
  {
    var home :| |home| == n && LayoutOk(l, home);
    assert Known(h);
    AcquireKeeps(l, home, h);
  }

  lemma SoundFree(l: Layout, n: nat, holders: multiset<nat>, h: nat)
    requires Sound(l, n, holders) && h in holders
    ensures Sound(Free(l, h), n, holders - multiset{h})
  {
    var home :| |home| == n && LayoutOk(l, home);
    assert Known(h);
    ReleaseKeeps(l, home, h);
    var l', home' := Free(l, h), ReleasedHomes(l, home, h);
    assert |home'| == n && LayoutOk(l', home');
  }

  lemma {:induction false} SoundFreeAll(l: Layout, n: nat, holders: multiset<nat>, hs: seq<nat>)
    requires Sound(l, n, holders) && multiset(hs) <= holders
    ensures Sound(FreeAll(l, hs), n, holders - multiset(hs))
    decreases |hs|
  {
    if hs == [] {
      assert holders - multiset(hs) == holders;
    } else {
      assert hs == [hs[0]] + hs[1..];
      assert hs[0] in multiset(hs);
      SoundFree(l, n, holders, hs[0]);
      assert multiset(hs) == multiset{hs[0]} + multiset(hs[1..]);
      SoundFreeAll(Free(l, hs[0]), n, holders - multiset{hs[0]}, hs[1..]);
      assert holders - multiset{hs[0]} - multiset(hs[1..]) == holders - multiset(hs);
    }
  }

  lemma QueueWithin(v: Server, s: nat)
    requires s < |v.queues|
    ensures multiset(v.queues[s]) <= Slots(v.queues)
  {
    forall h: nat ensures multiset(v.queues[s])[h] <= Slots(v.queues)[h] {
      SlotsUpdate(v.queues, s, [], h);
    }
  }

  lemma StepEnqueue(v: Server, s: nat, h: nat)
    requires Conserved(v) && Allowed(v, Enqueue(s, h))
    ensures Conserved(Next(v, Enqueue(s, h)))
  {
    var holders := v.code + Slots(v.queues);
    SoundTake(v.layout, v.size, holders, h);
    var queues' := v.queues[s := v.queues[s] + [h]];
    forall g: nat ensures (v.code + Slots(queues'))[g] == (holders + multiset{h})[g] {
      SlotsUpdate(v.queues, s, v.queues[s] + [h], g);
    }
    assert v.code + Slots(queues') == holders + multiset{h};
  }

  lemma StepSent(v: Server, s: nat)
    requires Conserved(v) && Allowed(v, Sent(s))
    ensures Conserved(Next(v, Sent(s)))
  {
    var holders := v.code + Slots(v.queues);
    var q := v.queues[s];
    QueueWithin(v, s);
    assert q[0] in multiset(q);
    SoundFree(v.layout, v.size, holders, q[0]);
    var queues' := v.queues[s := q[1..]];
    forall g: nat ensures (v.code + Slots(queues'))[g] == (holders - multiset{q[0]})[g] {
      SlotsUpdate(v.queues, s, q[1..], g);
      MultisetPop(q, g);
    }
    assert v.code + Slots(queues') == holders - multiset{q[0]};
  }

  lemma StepClose(v: Server, s: nat)
    requires Conserved(v) && Allowed(v, Close(s))
    ensures Conserved(Next(v, Close(s)))
  {
    var holders := v.code + Slots(v.queues);
    QueueWithin(v, s);
    SoundFreeAll(v.layout, v.size, holders, v.queues[s]);
    var queues' := v.queues[s := []];
    forall g: nat ensures (v.code + Slots(queues'))[g] == (holders - multiset(v.queues[s]))[g] {
      SlotsUpdate(v.queues, s, [], g);
    }
    assert v.code + Slots(queues') == holders - multiset(v.queues[s]);
  }

  lemma StepKeeps(v: Server, step: Step)
    requires Conserved(v) && Allowed(v, step)
    ensures Conserved(Next(v, step))
  {
    var holders := v.code + Slots(v.queues);
    match step
    case Alloc =>
      SoundAlloc(v.layout, v.size, holders);
      var id := AllocatedId(v.layout, v.size);
      assert v.code + multiset{id} + Slots(v.queues) == holders + multiset{id};
    case Extend(h) => SoundGrow(v.layout, v.size, holders, h);
    case Hold(h) =>
      SoundTake(v.layout, v.size, holders, h);
      assert v.code + multiset{h} + Slots(v.queues) == holders + multiset{h};
    case Enqueue(s, h) => StepEnqueue(v, s, h);
    case Refuse(s, h) =>
    case Sent(s) => StepSent(v, s);
    case Drop(h) =>
      SoundFree(v.layout, v.size, holders, h);
      assert v.code - multiset{h} + Slots(v.queues) == holders - multiset{h};
    case Close(s) => StepClose(v, s);
    case Open => SlotsOpen(v.queues);
  }

  lemma {:induction false} RunKeeps(v: Server, steps: seq<Step>, w: Server)
    requires Conserved(v) && Runs(v, steps, w)
    ensures Conserved(w)
    decreases |steps|
  {
    if steps != [] {
      StepKeeps(v, steps[0]);
      RunKeeps(Next(v, steps[0]), steps[1..], w);
    }
  }

  // ----- What each step does

  /** The buffer that is taken: the first free one, or a new one. */
  ghost function Taken(v: Server): nat {
    if v.layout.free == [] then v.size else v.layout.free[0]
  }

  /** Who holds what after a step, and which buffers the chains consist of. */
  lemma StepDoes(v: Server, step: Step)
    requires Conserved(v) && Allowed(v, step)
    ensures var w, b := Next(v, step), Taken(v);
            match step
            case Alloc =>
              && w.code == v.code + multiset{b} && w.queues == v.queues && b !in v.layout.chains
              && w.layout.chains == v.layout.chains[b := [b]]
            case Extend(h) =>
              && w.code == v.code && w.queues == v.queues && h in v.layout.chains
              && w.layout.chains == v.layout.chains[h := v.layout.chains[h] + [b]]
            case Hold(h) => w.code == v.code + multiset{h} && w.queues == v.queues
            case Enqueue(s, h) => w.code == v.code && w.queues == v.queues[s := v.queues[s] + [h]]
            case Refuse(s, h) => w == v
            case Sent(s) => w.code == v.code && w.queues == v.queues[s := v.queues[s][1..]]
            case Drop(h) => w.code == v.code - multiset{h} && w.queues == v.queues
            case Close(s) => w.code == v.code && w.queues == v.queues[s := []]
            case Open => w.code == v.code && w.queues == v.queues + [[]] && w.layout == v.layout
  {
    var home :| |home| == v.size && LayoutOk(v.layout, home);
    NotAChain(v.layout, home, AllocatedId(v.layout, v.size));
    if step.Extend? {
      assert Known(step.h);
      var l, b := v.layout, Taken(v);
      assert l.chains[b := [b]][step.h := l.chains[step.h] + [b]] - {b} == l.chains[step.h := l.chains[step.h] + [b]];
    }
  }

  // ----- What the invariant gives in every reachable state

  /**
    * In every state a run can reach, a chain is live exactly while something holds it, and its count is the number
    * of its holders.
    */
  lemma CountsAreHolders(steps: seq<Step>, w: Server, h: nat)
    requires Runs(START, steps, w)
    ensures h in w.layout.chains <==> Holders(w, h) > 0
    ensures h in w.layout.chains ==> h in w.layout.refs && w.layout.refs[h] == Holders(w, h)
  {
    StartSound();
    RunKeeps(START, steps, w);
    assert Known(h);
  }

  /** Buffer `k` is at this place of this list. */
  ghost predicate Lies(l: Layout, p: Home, k: nat) {
    p.place < |ListOf(l, p.list)| && ListOf(l, p.list)[p.place] == k
  }

  /** Each buffer ever made lies in exactly one place, of the free list or of one live chain. */
  lemma EveryBufferOnce(steps: seq<Step>, w: Server, k: nat) returns (p: Home)
    requires Runs(START, steps, w) && k < w.size
    ensures Lies(w.layout, p, k)
    ensures forall q: Home :: Lies(w.layout, q, k) ==> q == p
  {
    StartSound();
    RunKeeps(START, steps, w);
    var home: seq<Home> :| |home| == w.size && LayoutOk(w.layout, home);
    p := home[k];
    assert Known(k);
    forall q: Home | Lies(w.layout, q, k) ensures q == p {
      assert Slot(q.list, q.place);
    }
  }

  lemma StartSound()
    ensures Conserved(START)
  {
    var home: seq<Home> := [];
    assert LayoutOk(START.layout, home);
  }

  /** When nobody holds anything any more, every buffer is back on the free list. */
  lemma NothingLeaks(steps: seq<Step>, w: Server, k: nat)
    requires Runs(START, steps, w) && k < w.size
    requires w.code == multiset{} && Slots(w.queues) == multiset{}
    ensures k in w.layout.free
  {
    var p := EveryBufferOnce(steps, w, k);
    if p.list != FREE {
      assert p.list in w.layout.chains;
      CountsAreHolders(steps, w, p.list);
      assert false;
    }
  }
}
