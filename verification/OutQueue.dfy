/**
  * The output side of a session: a circular queue of message chains, filled by ngx_rtmp_send_message and
  * emptied onto the socket by ngx_rtmp_send, one partial write after another.
  */
module OutQueue {
  import opened Bytes

  /** A message: the name of its first buffer and the bytes of its buffers. */
  datatype Chain = Chain(id: nat, bufs: seq<seq<byte>>)

  /** A prepared chain: every buffer starts with a chunk header, so none is empty. */
  ghost predicate Sendable(m: Chain) {
    m.bufs != [] && forall i :: 0 <= i < |m.bufs| ==> m.bufs[i] != []
  }

  // ----- The acceptance rule

  /** `(out_last - out_pos) % out_queue`, in 64-bit unsigned arithmetic. */
  function Occupancy(pos: nat, last: nat, size: nat): nat
    requires size > 0
  {
    (last - pos) % TWO64 % size
  }

  /** How many slots are really in use. */
  function InUse(pos: nat, last: nat, size: nat): nat
    requires pos < size && last < size
  {
    if last >= pos then last - pos else size - (pos - last)
  }

  /** One wrapped subtraction counts right if and only if the queue size divides 2^64. */
  lemma WrapCounts(d: nat, q: nat)
    requires 0 < d < q
    ensures (TWO64 - d) % q == q - d <==> TWO64 % q == 0
  {
    var x := TWO64 - d;
    if TWO64 % q == 0 {
      var k := TWO64 / q;
      assert TWO64 == k * q;
      assert x == (k - 1) * q + (q - d) by {
        assert (k - 1) * q == k * q - q;
      }
      ModUnique(x, k - 1, q, q - d);
    }
    if x % q == q - d {
      var k := x / q;
      assert x == k * q + (q - d);
      assert TWO64 == (k + 1) * q + 0 by {
        assert (k + 1) * q == k * q + q;
      }
      ModUnique(TWO64, k + 1, q, 0);
    }
  }

  /** The formula counts the slots in use, for every state of the queue, exactly when the size divides 2^64. */
  lemma OccupancyExact(size: nat)
    requires 0 < size < TWO64
    ensures (forall pos: nat, last: nat :: pos < size && last < size ==>
              Occupancy(pos, last, size) == InUse(pos, last, size))
            <==> TWO64 % size == 0
  {
    if TWO64 % size == 0 {
      forall pos: nat, last: nat | pos < size && last < size
        ensures Occupancy(pos, last, size) == InUse(pos, last, size)
      {
        OccupancyRight(pos, last, size);
      }
    } else {
      assert size > 1;
      WrapCounts(1, size);
      assert (0 - 1) % TWO64 == TWO64 - 1;
      assert Occupancy(1, 0, size) != InUse(1, 0, size);
    }
  }

  /** In one state, the formula is right exactly when the size divides 2^64 or the ring has not wrapped. */
  lemma OccupancyRight(pos: nat, last: nat, size: nat)
    requires pos < size < TWO64 && last < size
    ensures Occupancy(pos, last, size) == InUse(pos, last, size) <==> TWO64 % size == 0 || pos <= last
  {
    if last >= pos {
      assert (last - pos) % TWO64 == last - pos;
      ModUnique(last - pos, 0, size, last - pos);
    } else {
      assert (last - pos) % TWO64 == TWO64 - (pos - last);
      WrapCounts(pos - last, size);
    }
  }

  /** Whether a message of this priority is queued when `used` slots are in use; 0 is the most urgent. */
  predicate Accepts(used: nat, priority: nat, size: nat) {
    used + 1 + (if priority > 3 then 3 else priority) * size / 4 < size
  }

  /** Acceptance at one priority implies acceptance at every more urgent one, and always leaves a slot free. */
  lemma UrgentFirst(used: nat, p: nat, q: nat, size: nat)
    requires Accepts(used, p, size) && q <= p
    ensures Accepts(used, q, size) && used + 1 < size
  {
  }

  /** At priority 0 all slots but one are filled; each step of priority, up to 3, keeps another quarter of them free. */
  lemma Shares(used: nat, size: nat, priority: nat)
    ensures Accepts(used, 0, size) <==> used + 1 < size
    ensures Accepts(used, 1, size) <==> used + 1 + size / 4 < size
    ensures Accepts(used, 2, size) <==> used + 1 + size / 2 < size
    ensures priority >= 3 ==> (Accepts(used, priority, size) <==> used + 1 + 3 * size / 4 < size)
  {
  }

  /** For a size that does not divide 2^64, a ring whose last slot before the first one is free looks almost empty. */
  lemma FullLooksFree(size: nat)
    requires 0 < size < TWO64 && TWO64 % size != 0
    ensures size > 2 && Accepts(Occupancy(1, 0, size), 0, size) && InUse(1, 0, size) + 1 == size
  {
    var r := TWO64 % size;
    assert size > 2;
    ModUnique(TWO64 - 1, TWO64 / size, size, r - 1);
    assert (0 - 1) % TWO64 == TWO64 - 1;
  }

  /** The queue never accepts into a full ring, whatever its positions, exactly when its size divides 2^64. */
  lemma PositionRule(size: nat)
    requires 0 < size < TWO64
    ensures (forall pos: nat, last: nat ::
               pos < size && last < size && Accepts(Occupancy(pos, last, size), 0, size) ==>
                     InUse(pos, last, size) + 1 < size)
            <==> TWO64 % size == 0
  {
    if TWO64 % size == 0 {
      OccupancyExact(size);
    } else {
      FullLooksFree(size);
    }
  }

  // ----- Runs of the positions

  /** A message of the highest priority comes, or the first one is finished. */
  datatype Event = Comes | Finishes

  /** The positions of the queue, and how many messages there really are. */
  datatype Marks = Marks(pos: nat, last: nat, used: nat)

  function Moves(size: nat, x: Marks, e: Event): (y: Marks)
    requires x.pos < size && x.last < size
    ensures y.pos < size && y.last < size
  {
    match e
    case Comes =>
      if Accepts(Occupancy(x.pos, x.last, size), 0, size) then Marks(x.pos, Wrap(x.last + 1, size), x.used + 1) else x
    case Finishes =>
      if x.pos != x.last && x.used > 0 then Marks(Wrap(x.pos + 1, size), x.last, x.used - 1) else x
  }

  function MovesAll(size: nat, es: seq<Event>): (x: Marks)
    requires size > 0
    ensures x.pos < size && x.last < size
  {
    if es == [] then Marks(0, 0, 0) else Moves(size, MovesAll(size, es[..|es| - 1]), es[|es| - 1])
  }

  /** If the size divides 2^64, the positions always say how many messages there are. */
  lemma {:induction false} DividesKeeps(size: nat, es: seq<Event>)
    requires 0 < size < TWO64 && TWO64 % size == 0
    ensures var x := MovesAll(size, es); x.used < size && x.last == Wrap(x.pos + x.used, size)
  {
    if es != [] {
      DividesKeeps(size, es[..|es| - 1]);
      var x := MovesAll(size, es[..|es| - 1]);
      OccupancyRight(x.pos, x.last, size);
    }
  }

  /** One message comes and goes, and then `n` messages come. */
  function Overrun(n: nat): seq<Event> {
    if n == 0 then [Comes, Finishes] else Overrun(n - 1) + [Comes]
  }

  lemma ComesNext(size: nat, n: nat)
    requires 0 < size < TWO64 && TWO64 % size != 0 && n < size
    ensures size > 2 && Moves(size, Marks(1, Wrap(1 + n, size), n), Comes) == Marks(1, Wrap(2 + n, size), n + 1)
  {
    FullLooksFree(size);
    if n + 1 < size {
      OccupancyRight(1, n + 1, size);
    }
  }

  lemma FirstGoes(size: nat)
    requires 2 < size < TWO64
    ensures MovesAll(size, [Comes, Finishes]) == Marks(1, 1, 0)
  {
    assert [Comes, Finishes][..1] == [Comes] && [Comes][..0] == [];
    OccupancyRight(0, 0, size);
    assert MovesAll(size, [Comes]) == Marks(0, 1, 1);
  }

  lemma MovesMore(size: nat, es: seq<Event>, e: Event)
    requires size > 0
    ensures MovesAll(size, es + [e]) == Moves(size, MovesAll(size, es), e)
  {
    assert (es + [e])[..|es|] == es;
  }

  /** All of them are accepted, as many as there are slots. */
  lemma {:induction false} OverrunAccepted(size: nat, n: nat)
    requires 0 < size < TWO64 && TWO64 % size != 0 && n <= size
    ensures size > 2 && MovesAll(size, Overrun(n)) == Marks(1, Wrap(1 + n, size), n)
  {
    FullLooksFree(size);
    if n == 0 {
      FirstGoes(size);
    } else {
      OverrunAccepted(size, n - 1);
      ComesNext(size, n - 1);
      MovesMore(size, Overrun(n - 1), Comes);
    }
  }

  /**
    * In every run there are fewer messages than slots, so that none is overwritten, exactly when the size divides 2^64.
    */
  lemma SizeRule(size: nat)
    requires 0 < size < TWO64
    ensures (forall es: seq<Event> :: MovesAll(size, es).used < size) <==> TWO64 % size == 0
  {
    if TWO64 % size == 0 {
      forall es: seq<Event> ensures MovesAll(size, es).used < size {
        DividesKeeps(size, es);
      }
    } else {
      OverrunAccepted(size, size);
    }
  }

  // ----- Byte streams

  function Flat(ms: seq<Chain>): seq<byte> {
    if ms == [] then [] else Concat(ms[0].bufs) + Flat(ms[1..])
  }

  lemma {:induction false} FlatAppend(a: seq<Chain>, b: seq<Chain>)
    ensures Flat(a + b) == Flat(a) + Flat(b)
  {
    if a == [] {
      assert a + b == b;
    } else {
      assert (a + b)[1..] == a[1..] + b;
      FlatAppend(a[1..], b);
    }
  }

  lemma FlatOne(m: Chain)
    ensures Flat([m]) == Concat(m.bufs)
  {
    assert Flat([m]) == Concat(m.bufs) + Flat([]);
  }

  /** Where the socket is in the first queued message. */
  datatype Position = Idle | Sending(buf: nat, off: nat)

  /** The bytes of message `m` behind its buffer `i`. */
  ghost function Behind(m: Chain, i: nat): seq<byte>
    requires i < |m.bufs|
  {
    Concat(m.bufs[i + 1..])
  }

  /** The bytes of message `m` from a position on. */
  ghost function From(m: Chain, at: Position): seq<byte> {
    match at
    case Idle => Concat(m.bufs)
    case Sending(i, off) =>
      if i < |m.bufs| && off <= |m.bufs[i]| then m.bufs[i][off..] + Behind(m, i) else []
  }

  /** The bytes of the messages behind the first one. */
  ghost function Later(queued: seq<Chain>): seq<byte>
    requires queued != []
  {
    Flat(queued[1..])
  }

  /** Everything accepted and not yet on the wire. */
  ghost function Unsent(queued: seq<Chain>, at: Position): seq<byte> {
    if queued == [] then [] else From(queued[0], at) + Later(queued)
  }

  ghost predicate PositionOk(queued: seq<Chain>, at: Position) {
    at.Sending? ==> queued != [] && at.buf < |queued[0].bufs| && at.off < |queued[0].bufs[at.buf]|
  }

  lemma UnsentAppend(queued: seq<Chain>, at: Position, m: Chain)
    requires PositionOk(queued, at)
    ensures Unsent(queued + [m], at) == Unsent(queued, at) + Concat(m.bufs)
  {
    FlatOne(m);
    if queued == [] {
      assert queued + [m] == [m] && [m][1..] == [];
    } else {
      assert (queued + [m])[1..] == queued[1..] + [m];
      FlatAppend(queued[1..], [m]);
    }
  }

  lemma SplitFront(b: seq<byte>, off: nat, n: nat, x: seq<byte>, y: seq<byte>)
    requires off + n <= |b|
    ensures b[off..] + x + y == b[off..off + n] + (b[off + n..] + x + y)
  {
    assert b[off..] == b[off..off + n] + b[off + n..];
  }

  /** `n` more bytes of the current buffer leave the unsent ones. */
  lemma UnsentAdvance(queued: seq<Chain>, at: Position, n: nat)
    requires at.Sending? && PositionOk(queued, at) && at.off + n <= |queued[0].bufs[at.buf]|
    ensures Unsent(queued, at)
            == queued[0].bufs[at.buf][at.off..at.off + n] + Unsent(queued, Sending(at.buf, at.off + n))
  {
    SplitFront(queued[0].bufs[at.buf], at.off, n, Behind(queued[0], at.buf), Later(queued));
  }

  /** From the start of a later buffer on, the unsent part is what the buffers hold. */
  lemma FromBuf(m: Chain, i: nat)
    requires i < |m.bufs|
    ensures From(m, Sending(i, 0)) == Concat(m.bufs[i..])
  {
    var tail := m.bufs[i..];
    assert tail[0] == m.bufs[i] && tail[1..] == m.bufs[i + 1..];
    assert Concat(tail) == tail[0] + Concat(tail[1..]);
  }

  /** A finished message gives way to the next one. */
  lemma UnsentNextMessage(queued: seq<Chain>, i: nat)
    requires queued != [] && i + 1 == |queued[0].bufs|
    ensures Unsent(queued, Sending(i, |queued[0].bufs[i]|)) == Unsent(queued[1..], Idle)
  {
    var bufs := queued[0].bufs;
    assert From(queued[0], Sending(i, |bufs[i]|)) == [];
  }

  lemma UnsentStart(queued: seq<Chain>)
    requires queued != [] && queued[0].bufs != []
    ensures Unsent(queued, Idle) == Unsent(queued, Sending(0, 0))
  {
    var bufs := queued[0].bufs;
    assert bufs[0][0..] == bufs[0];
  }

  // ----- The ring

  function Wrap(x: nat, size: nat): nat
    requires x < 2 * size
  {
    if x < size then x else x - size
  }

  lemma ModIsWrap(x: nat, size: nat)
    requires x < 2 * size
    ensures x % size == Wrap(x, size)
  {
    ModUnique(x, if x < size then 0 else 1, size, Wrap(x, size));
  }

  /**
    * Slots `pos`, `pos + 1`, ... of the ring hold the queued messages, in order. If no slot is free, the positions are
    * those of an empty ring.
    */
  ghost predicate Ring(out: seq<Chain>, pos: nat, last: nat, queued: seq<Chain>) {
    && pos < |out| && last < |out|
    && |queued| <= |out|
    && last == Wrap(pos + |queued|, |out|)
    && forall k: int {:trigger Known(k)} :: Known(k) && 0 <= k < |queued| ==> out[Wrap(pos + k, |out|)] == queued[k]
  }

  lemma RingInUse(out: seq<Chain>, pos: nat, last: nat, queued: seq<Chain>)
    requires Ring(out, pos, last, queued)
    ensures InUse(pos, last, |out|) == if |queued| < |out| then |queued| else 0
  {
  }

  /** Storing at `last` overwrites no queued message. */
  lemma RingPush(out: seq<Chain>, pos: nat, last: nat, queued: seq<Chain>, m: Chain)
    requires Ring(out, pos, last, queued) && |queued| < |out|
    ensures Ring(out[last := m], pos, Wrap(last + 1, |out|), queued + [m])
  {
  }

  lemma RingFront(out: seq<Chain>, pos: nat, last: nat, queued: seq<Chain>)
    requires Ring(out, pos, last, queued) && queued != []
    ensures out[pos] == queued[0]
  {
    assert Known(0);
  }

  lemma RingPop(out: seq<Chain>, pos: nat, last: nat, queued: seq<Chain>)
    requires Ring(out, pos, last, queued) && queued != []
    ensures out[pos] == queued[0]
    ensures Ring(out, Wrap(pos + 1, |out|), last, queued[1..])
  {
    assert Known(0);
    forall k | 0 <= k < |queued| - 1
      ensures out[Wrap(Wrap(pos + 1, |out|) + k, |out|)] == queued[1..][k]
    {
      assert Known(k + 1);
    }
  }

  // ----- The books: every accepted message is released, or still queued; every accepted byte is sent, or still unsent

  ghost function Ids(ms: seq<Chain>): seq<nat> {
    seq(|ms|, i requires 0 <= i < |ms| => ms[i].id)
  }

  ghost predicate Books(accepted: seq<Chain>, queued: seq<Chain>, at: Position, wire: seq<byte>, released: seq<nat>) {
    && PositionOk(queued, at)
    && forall k: int {:trigger Unfold(k)} :: Unfold(k) ==>
         && (forall i :: 0 <= i < |queued| ==> Sendable(queued[i]))
         && Ids(accepted) == released + Ids(queued)
         && |released| <= |accepted| && queued == accepted[|released|..]
         && Flat(accepted) == wire + Unsent(queued, at)
  }

  /** The queue is what has been accepted and not yet released; the wire is the front of what has been accepted. */
  lemma BooksSay(accepted: seq<Chain>, queued: seq<Chain>, at: Position, wire: seq<byte>, released: seq<nat>)
    requires Books(accepted, queued, at, wire, released)
    ensures |released| <= |accepted| && queued == accepted[|released|..]
    ensures forall i :: 0 <= i < |released| ==> released[i] == accepted[i].id
    ensures wire <= Flat(accepted)
  {
    assert Unfold(0);
    forall i | 0 <= i < |released| ensures released[i] == accepted[i].id {
      assert Ids(accepted)[i] == released[i];
    }
  }

  /** The messages that have been released. */
  ghost function Released(accepted: seq<Chain>, released: seq<nat>): seq<Chain> {
    if |released| <= |accepted| then accepted[..|released|] else accepted
  }

  /** Forgetting all that is queued and not begun, and queueing one message, leaves the books in order. */
  lemma BooksForget(accepted: seq<Chain>, queued: seq<Chain>, wire: seq<byte>, released: seq<nat>, done: seq<Chain>,
                    m: Chain)
    requires Books(accepted, queued, Idle, wire, released) && done == Released(accepted, released) && Sendable(m)
    ensures Books(done + [m], [m], Idle, wire, released)
  {
    BooksSay(accepted, queued, Idle, wire, released);
    assert done + queued == accepted;
    assert Books(done, [], Idle, wire, released) by {
      assert Unfold(0);
      FlatAppend(done, queued);
      UnsentIdle(queued);
      assert wire == Flat(done);
      assert Ids(done) == released;
    }
    BooksEnqueue(done, [], Idle, wire, released, m);
    assert [] + [m] == [m];
  }

  /** What the source has in its slot while another message is being sent from there: the new name, the old bytes. */
  ghost function Renamed(m: Chain, id: nat): Chain {
    Chain(id, m.bufs)
  }

  /**
    * Forgetting all that is queued behind the message being sent, which is released under the name `id`, leaves the
    * books in order.
    */
  lemma BooksCross(accepted: seq<Chain>, queued: seq<Chain>, at: Position, wire: seq<byte>, released: seq<nat>,
                   done: seq<Chain>, id: nat)
    requires Books(accepted, queued, at, wire, released) && at.Sending? && done == Released(accepted, released)
    ensures Books(done + [Renamed(queued[0], id)], [Renamed(queued[0], id)], at, wire, released)
  {
    BooksSay(accepted, queued, at, wire, released);
    var p := Renamed(queued[0], id);
    assert accepted == done + queued;
    assert Flat(done + [p]) == wire + Unsent([p], at) by {
      assert Unfold(0);
      FlatAppend(done, queued);
      FlatAppend(done, [p]);
      FlatOne(p);
      CrossBytes(Flat(done), Concat(p.bufs), wire, From(queued[0], at), Later(queued));
      assert [p][1..] == [];
    }
    assert Ids(done + [p]) == released + Ids([p]) && (done + [p])[|released|..] == [p];
    assert Unfold(0);
    assert Sendable(queued[0]);
  }

  lemma CrossBytes(done: seq<byte>, first: seq<byte>, wire: seq<byte>, rest: seq<byte>, later: seq<byte>)
    requires done + (first + later) == wire + (rest + later)
    ensures done + first == wire + (rest + [])
  {
    Assoc(done, first, later);
    Assoc(wire, rest, later);
    var n := |done + first|;
    assert (done + first + later)[..n] == done + first && (wire + rest + later)[..n] == wire + rest;
    assert rest + [] == rest;
  }

  lemma UnsentIdle(queued: seq<Chain>)
    ensures Unsent(queued, Idle) == Flat(queued)
  {
  }

  /** With everything accepted on the wire, nothing is queued. */
  lemma BooksEmpty(accepted: seq<Chain>, queued: seq<Chain>, at: Position, wire: seq<byte>, released: seq<nat>)
    requires Books(accepted, queued, at, wire, released) && wire == Flat(accepted)
    ensures queued == [] && at == Idle && released == Ids(accepted)
  {
    assert Unfold(0);
    if queued != [] {
      UnsentSome(queued, at);
    }
  }

  lemma UnsentSome(queued: seq<Chain>, at: Position)
    requires queued != [] && PositionOk(queued, at) && Sendable(queued[0])
    ensures |Unsent(queued, at)| > 0
  {
    if at == Idle {
      assert Concat(queued[0].bufs) == queued[0].bufs[0] + Concat(queued[0].bufs[1..]);
    }
  }

  /** With nothing queued, everything accepted is on the wire and released. */
  lemma BooksDone(accepted: seq<Chain>, at: Position, wire: seq<byte>, released: seq<nat>)
    requires Books(accepted, [], at, wire, released)
    ensures wire == Flat(accepted) && released == Ids(accepted)
  {
    assert Unfold(0);
  }

  lemma BooksEnqueue(accepted: seq<Chain>, queued: seq<Chain>, at: Position, wire: seq<byte>, released: seq<nat>,
                     m: Chain)
    requires Books(accepted, queued, at, wire, released) && Sendable(m)
    ensures Books(accepted + [m], queued + [m], at, wire, released)
  {
    assert Unfold(0);
    BytesEnqueue(accepted, queued, at, wire, m);
    IdsEnqueue(accepted, queued, released, m);
  }

  lemma BytesEnqueue(accepted: seq<Chain>, queued: seq<Chain>, at: Position, wire: seq<byte>, m: Chain)
    requires PositionOk(queued, at) && Flat(accepted) == wire + Unsent(queued, at)
    ensures Flat(accepted + [m]) == wire + Unsent(queued + [m], at)
  {
    UnsentAppend(queued, at, m);
    FlatAppend(accepted, [m]);
    FlatOne(m);
    Assoc(wire, Unsent(queued, at), Concat(m.bufs));
  }

  lemma IdsEnqueue(accepted: seq<Chain>, queued: seq<Chain>, released: seq<nat>, m: Chain)
    requires Ids(accepted) == released + Ids(queued) && |released| <= |accepted| && queued == accepted[|released|..]
    ensures Ids(accepted + [m]) == released + Ids(queued + [m]) && queued + [m] == (accepted + [m])[|released|..]
  {
    assert Ids(accepted + [m]) == Ids(accepted) + [m.id];
    assert Ids(queued + [m]) == Ids(queued) + [m.id];
  }

  lemma BooksStart(accepted: seq<Chain>, queued: seq<Chain>, wire: seq<byte>, released: seq<nat>)
    requires Books(accepted, queued, Idle, wire, released) && queued != []
    ensures Books(accepted, queued, Sending(0, 0), wire, released)
  {
    assert Unfold(0);
    assert Sendable(queued[0]);
    UnsentStart(queued);
  }

  lemma BooksAdvance(accepted: seq<Chain>, queued: seq<Chain>, at: Position, wire: seq<byte>, released: seq<nat>,
                     n: nat, wire': seq<byte>)
    requires Books(accepted, queued, at, wire, released) && at.Sending? && at.off + n < |queued[0].bufs[at.buf]|
    requires wire' == wire + queued[0].bufs[at.buf][at.off..at.off + n]
    ensures Books(accepted, queued, Sending(at.buf, at.off + n), wire', released)
  {
    assert Unfold(0);
    UnsentAdvance(queued, at, n);
    Assoc(wire, queued[0].bufs[at.buf][at.off..at.off + n], Unsent(queued, Sending(at.buf, at.off + n)));
  }

  /** The rest of the current buffer leaves the unsent bytes. */
  lemma UnsentRest(queued: seq<Chain>, at: Position)
    requires at.Sending? && PositionOk(queued, at)
    ensures Unsent(queued, at)
            == queued[0].bufs[at.buf][at.off..] + Unsent(queued, Sending(at.buf, |queued[0].bufs[at.buf]|))
  {
    SplitRest(queued[0].bufs[at.buf], at.off, Behind(queued[0], at.buf), Later(queued));
  }

  lemma SplitRest(b: seq<byte>, off: nat, x: seq<byte>, y: seq<byte>)
    requires off <= |b|
    ensures b[off..] + x + y == b[off..] + (b[|b|..] + x + y)
  {
    assert b[|b|..] + x == x;
  }

  /** The same, when another buffer of the message follows. */
  lemma UnsentRestNext(queued: seq<Chain>, at: Position)
    requires at.Sending? && PositionOk(queued, at) && at.buf + 1 < |queued[0].bufs|
    ensures Unsent(queued, at) == queued[0].bufs[at.buf][at.off..] + Unsent(queued, Sending(at.buf + 1, 0))
  {
    FromBuf(queued[0], at.buf + 1);
    Assoc(queued[0].bufs[at.buf][at.off..], Behind(queued[0], at.buf), Later(queued));
  }

  lemma BooksNextBuf(accepted: seq<Chain>, queued: seq<Chain>, at: Position, wire: seq<byte>, released: seq<nat>,
                     wire': seq<byte>)
    requires Books(accepted, queued, at, wire, released) && at.Sending? && at.buf + 1 < |queued[0].bufs|
    requires wire' == wire + queued[0].bufs[at.buf][at.off..]
    ensures Books(accepted, queued, Sending(at.buf + 1, 0), wire', released)
  {
    assert Unfold(0);
    assert Sendable(queued[0]);
    UnsentRestNext(queued, at);
    Assoc(wire, queued[0].bufs[at.buf][at.off..], Unsent(queued, Sending(at.buf + 1, 0)));
  }

  lemma BooksNextMessage(accepted: seq<Chain>, queued: seq<Chain>, at: Position, wire: seq<byte>, released: seq<nat>,
                         wire': seq<byte>, released': seq<nat>)
    requires Books(accepted, queued, at, wire, released) && at.Sending? && at.buf + 1 == |queued[0].bufs|
    requires wire' == wire + queued[0].bufs[at.buf][at.off..] && released' == released + [queued[0].id]
    ensures Books(accepted, queued[1..], Idle, wire', released')
  {
    assert Unfold(0);
    UnsentDone(queued, at);
    Assoc(wire, queued[0].bufs[at.buf][at.off..], Unsent(queued[1..], Idle));
    IdsPop(queued, released);
    DropOne(accepted, queued, |released|);
  }

  /** The rest of the last buffer of a message, when the next message follows. */
  lemma UnsentDone(queued: seq<Chain>, at: Position)
    requires at.Sending? && PositionOk(queued, at) && at.buf + 1 == |queued[0].bufs|
    ensures Unsent(queued, at) == queued[0].bufs[at.buf][at.off..] + Unsent(queued[1..], Idle)
  {
    UnsentRest(queued, at);
    UnsentNextMessage(queued, at.buf);
  }

  lemma DropOne<T>(all: seq<T>, tail: seq<T>, n: nat)
    requires n < |all| && tail == all[n..]
    ensures tail[1..] == all[n + 1..]
  {
  }

  lemma IdsPop(queued: seq<Chain>, released: seq<nat>)
    requires queued != []
    ensures released + Ids(queued) == released + [queued[0].id] + Ids(queued[1..])
  {
    assert Ids(queued) == [queued[0].id] + Ids(queued[1..]);
  }

  // ----- The session's output side

  /** A slot is free besides `n`, if the size divides 2^64. */
  ghost predicate Spare(size: nat, n: nat)
    requires size > 0
  {
    forall u: int {:trigger Unfold(u)} :: Unfold(u) ==> (TWO64 % size == 0 ==> n < size)
  }

  lemma SpareIs(size: nat, n: nat)
    requires size > 0
    ensures Spare(size, n) <==> (TWO64 % size == 0 ==> n < size)
  {
    assert Unfold(0);
  }

  /** With a slot to spare there is one for fewer messages; without one, there need not be any. */
  lemma SpareLess(size: nat, n: nat, k: nat)
    requires size > 0 && Spare(size, n) && (k <= n || size <= n)
    ensures Spare(size, k)
  {
    assert Unfold(0);
  }

  /** The slots hold the messages queued; while a message is being sent, its slot need only have its name. */
  ghost predicate Holds(slots: seq<Chain>, queued: seq<Chain>, at: Position) {
    && |slots| == |queued| && (at == Idle ==> slots == queued)
    && (queued != [] ==> slots[0].id == queued[0].id && slots[1..] == queued[1..])
  }

  lemma HoldsMore(slots: seq<Chain>, queued: seq<Chain>, at: Position, m: Chain)
    requires Holds(slots, queued, at) && PositionOk(queued, at)
    ensures Holds(slots + [m], queued + [m], at)
  {
    if queued != [] {
      assert (slots + [m])[1..] == slots[1..] + [m] && (queued + [m])[1..] == queued[1..] + [m];
    }
  }

  /** What a message that is accepted into a full ring leaves of the messages accepted. */
  ghost function Overwritten(accepted: seq<Chain>, released: seq<nat>, queued: seq<Chain>, at: Position, m: Chain)
    : seq<Chain>
  {
    Released(accepted, released) + [if at.Sending? && queued != [] then Renamed(queued[0], m.id) else m]
  }

  /**
    * What one call of the socket's send function may answer. Error is also the answer of a socket that takes nothing
    * and whose write event cannot be armed.
    */
  datatype Sent = Again | Error | Wrote(n: nat)

  class Output {
    const out: array<Chain>
    var outPos: nat
    var outLast: nat
    var outChain: seq<seq<byte>>
    var at: Position
    var active: bool
    var destroyed: bool
    var wire: seq<byte>
    var released: seq<nat>
    ghost var slots: seq<Chain>
    ghost var queued: seq<Chain>
    ghost var accepted: seq<Chain>

    /** The write event is active only while a message is being sent. */
    ghost predicate Valid()
      reads this, out
    {
      Sound() && (active ==> at.Sending?)
    }

    /** What the queue holds; only if the size does not divide 2^64, it may be full. */
    ghost predicate Sound()
      reads this, out
    {
      && 0 < out.Length < TWO64 && Spare(out.Length, |queued|)
      && Ring(out[..], outPos, outLast, slots) && Holds(slots, queued, at)
      && Books(accepted, queued, at, wire, released)
      && (at.Sending? ==> outChain == queued[0].bufs)
    }

    constructor (size: nat)
      requires 0 < size < TWO64
      ensures Valid() && fresh(out) && out.Length == size
      ensures queued == [] && accepted == [] && wire == [] && released == [] && !destroyed
      ensures outPos == outLast == 0 && at == Idle && !active
    {
      out := new Chain[size](_ => Chain(0, []));
      outPos, outLast, outChain, at, active, destroyed := 0, 0, [], Idle, false, false;
      wire, released, slots, queued, accepted := [], [], [], [], [];
    }

    /** ngx_rtmp_finalize_session: closing is only posted, so the queue stays as it is. */
    method Finalize()
      requires Sound()
      modifies this`destroyed
      ensures Sound() && destroyed
    {
      destroyed := true;
    }

    /**
      * The message takes the slot at the end. In a full queue that is the first one, and the messages queued are
      * forgotten: they are neither sent nor released any more, and if one is being sent, the new message is released in
      * its place.
      */
    method Store(m: Chain)
      requires Valid() && Sendable(m) && Spare(out.Length, |queued| + 1)
      modifies this`outLast, this`slots, this`queued, this`accepted, out
      ensures Valid() && outLast == Wrap(old(outLast) + 1, out.Length)
      ensures !old(Full()) ==> queued == old(queued) + [m] && accepted == old(accepted) + [m]
      ensures old(Full()) ==> |queued| == 1 && accepted == Overwritten(old(accepted), released, old(queued), at, m)
    {
      Enter(m);
      ModIsWrap(outLast + 1, out.Length);
      out[outLast] := m;
      outLast := (outLast + 1) % out.Length;
      assert out[..] == old(out[..])[old(outLast) := m];
    }

    /** What the books say once `m` is in the slot at the end. */
    ghost predicate Entered(m: Chain)
      reads this, out
      requires outLast < out.Length
    {
      && Spare(out.Length, |queued|)
      && Ring(out[..][outLast := m], outPos, Wrap(outLast + 1, out.Length), slots) && Holds(slots, queued, at)
      && Books(accepted, queued, at, wire, released) && (at.Sending? ==> outChain == queued[0].bufs)
    }

    ghost method Enter(m: Chain)
      requires Valid() && Sendable(m) && Spare(out.Length, |queued| + 1)
      modifies this`slots, this`queued, this`accepted
      ensures Entered(m)
      ensures !old(Full()) ==> queued == old(queued) + [m] && accepted == old(accepted) + [m]
      ensures old(Full()) ==> |queued| == 1 && accepted == Overwritten(old(accepted), released, old(queued), at, m)
    {
      if !Full() {
        RingPush(out[..], outPos, outLast, slots, m);
        HoldsMore(slots, queued, at, m);
        BooksEnqueue(accepted, queued, at, wire, released, m);
        slots, queued, accepted := slots + [m], queued + [m], accepted + [m];
      } else {
        SpareLess(out.Length, |queued|, 1);
        Overwrite(m);
      }
    }

    /** The books of a full queue when its first slot is overwritten. */
    ghost method Overwrite(m: Chain)
      requires Valid() && Full() && Sendable(m)
      modifies this`slots, this`queued, this`accepted
      ensures slots == [m] && |queued| == 1 && Holds(slots, queued, at) && Books(accepted, queued, at, wire, released)
      ensures at.Sending? ==> outChain == queued[0].bufs
      ensures accepted == Overwritten(old(accepted), released, old(queued), at, m)
    {
      var done := Released(accepted, released);
      if at == Idle {
        BooksForget(accepted, queued, wire, released, done, m);
        slots, queued, accepted := [m], [m], done + [m];
      } else {
        BooksCross(accepted, queued, at, wire, released, done, m.id);
        var p := Renamed(queued[0], m.id);
        slots, queued, accepted := [m], [p], done + [p];
        assert slots[1..] == [] && queued[1..] == [];
      }
    }

    /** No slot is free. */
    ghost predicate Full()
      reads this
    {
      |queued| == out.Length
    }

    /** The occupancy formula counts right in this state, as long as a slot is free. */
    ghost predicate Counts()
      reads this
    {
      out.Length > 0 && (TWO64 % out.Length == 0 || outPos <= outLast)
    }

    /** The queue is full and nothing is being sent: it looks empty, and nothing will be. */
    ghost predicate Stuck()
      reads this
    {
      Full() && at == Idle
    }

    /** As long as something is queued, the write event is active. */
    ghost predicate Flowing()
      reads this
    {
      destroyed || active || queued == []
    }

    /** Whether a message of this priority is accepted, by the formula. */
    ghost predicate Takes(priority: nat)
      reads this
    {
      out.Length > 0 && Accepts(Occupancy(outPos, outLast, out.Length), priority, out.Length)
    }

    /** Whether an accepted message of this priority is left in the queue without trying the socket. */
    ghost predicate Corked(priority: nat, cork: nat, buffered: bool)
      reads this
    {
      out.Length > 0 && priority > 0 && buffered && Occupancy(outPos, outLast, out.Length) + 1 < cork
    }

    /** The most urgent messages are never corked; of the others, those that make up less than the cork. */
    lemma CorkedIs(priority: nat, cork: nat, buffered: bool)
      requires Valid() && |queued| < out.Length && Counts()
      ensures Corked(priority, cork, buffered) <==> priority >= 1 && buffered && |queued| + 1 < cork
    {
      OccupancyRight(outPos, outLast, out.Length);
      RingInUse(out[..], outPos, outLast, slots);
    }

    /** A queue whose size divides 2^64 is never full. */
    lemma NeverFull()
      requires Valid() && TWO64 % out.Length == 0
      ensures |queued| < out.Length
    {
      SpareIs(out.Length, |queued|);
    }

    /** Where the formula counts right, acceptance goes by the number of messages queued. */
    lemma TakesRightly(priority: nat)
      requires Valid() && |queued| < out.Length && Counts()
      ensures Takes(priority) <==> Accepts(|queued|, priority, out.Length)
    {
      OccupancyRight(outPos, outLast, out.Length);
      RingInUse(out[..], outPos, outLast, slots);
    }

    /** The number of messages as the source counts them, with the next one. */
    method Count() returns (nmsg: nat)
      requires Valid()
      ensures nmsg == Occupancy(outPos, outLast, out.Length) + 1
      ensures |queued| < out.Length && Counts() ==> nmsg == |queued| + 1
    {
      OccupancyRight(outPos, outLast, out.Length);
      RingInUse(out[..], outPos, outLast, slots);
      nmsg := (outLast - outPos) % TWO64 % out.Length + 1;
    }

    /** What is accepted leaves a slot free, if the size divides 2^64. */
    lemma Accepting(nmsg: nat)
      requires Valid() && nmsg == Occupancy(outPos, outLast, out.Length) + 1 && nmsg < out.Length
      ensures Spare(out.Length, |queued| + 1)
    {
      SpareIs(out.Length, |queued|);
      SpareIs(out.Length, |queued| + 1);
      OccupancyRight(outPos, outLast, out.Length);
      RingInUse(out[..], outPos, outLast, slots);
    }

    /** A message is accepted and stored, or refused, by its priority; `nmsg` is the count with it. */
    method Admit(m: Chain, priority: nat) returns (ok: bool, nmsg: nat)
      requires Valid() && Sendable(m)
      modifies this`outLast, this`slots, this`queued, this`accepted, out
      ensures Valid() && nmsg == old(Occupancy(outPos, outLast, out.Length)) + 1 && (ok <==> old(Takes(priority)))
      ensures old(Counts() && !Full()) ==> nmsg == old(|queued|) + 1
      ensures !ok ==> outLast == old(outLast) && queued == old(queued) && accepted == old(accepted)
      ensures ok ==> out.Length > 1 && outLast == Wrap(old(outLast) + 1, out.Length)
      ensures ok && !old(Full()) ==> queued == old(queued) + [m] && accepted == old(accepted) + [m]
      ensures ok && old(Full()) ==>
                |queued| == 1 && accepted == Overwritten(old(accepted), released, old(queued), at, m)
    {
      nmsg := Count();
      if nmsg + (if priority > 3 then 3 else priority) * out.Length / 4 >= out.Length {
        return false, nmsg;
      }
      UrgentFirst(nmsg - 1, priority, 0, out.Length);
      Accepting(nmsg);
      Store(m);
      return true, nmsg;
    }

    /**
      * ngx_rtmp_send_message. An accepted message goes to the end of the queue; a refused one changes nothing.
      * The socket is then tried, unless the message is corked or the write event is active.
      */
    method SendMessage(m: Chain, priority: nat, cork: nat, buffered: bool, answers: seq<Sent>) returns (ok: bool)
      requires Valid() && Sendable(m)
      modifies this, out
      ensures Valid()
      ensures ok <==> old(Takes(priority))
      ensures old(Counts() && !Full()) ==> (ok <==> Accepts(old(|queued|), priority, out.Length))
      ensures accepted == if !ok then old(accepted)
                          else if old(Full()) then old(Overwritten(accepted, released, queued, at, m))
                          else old(accepted) + [m]
      ensures outLast == if ok then Wrap(old(outLast) + 1, out.Length) else old(outLast)
      ensures old(wire) <= wire && old(released) <= released && (old(destroyed) ==> destroyed)
      ensures !ok || answers == [] || old(active || destroyed || Corked(priority, cork, buffered)) ==>
                wire == old(wire) && released == old(released) && outPos == old(outPos) && destroyed == old(destroyed)
      ensures !ok || old(active || destroyed || Corked(priority, cork, buffered)) ==>
                at == old(at) && active == old(active)
      ensures old(Flowing() && !Corked(priority, cork, buffered)) ==> Flowing()
    {
      var nmsg;
      ok, nmsg := Admit(m, priority);
      if !ok || (priority > 0 && buffered && nmsg < cork) {
        return;
      }
      if !active {
        var _ := Send(false, answers);
      }
    }

    /**
      * ngx_rtmp_send: writes what the socket takes and stops at the first refusal, error, or empty queue. Every
      * answer of the socket is at most the length it was offered; after the last one the socket takes nothing.
      */
    method Send(timedOut: bool, answers: seq<Sent>) returns (used: nat)
      requires Valid()
      modifies this`at, this`outChain, this`active, this`outPos, this`slots, this`queued, this`wire, this`released,
               this`destroyed
      ensures Valid() && accepted == old(accepted)
      ensures old(wire) <= wire && old(released) <= released
      ensures old(destroyed || Stuck()) || answers == [] ==>
                wire == old(wire) && released == old(released) && outPos == old(outPos)
      ensures old(destroyed || Stuck()) ==> at == old(at) && active == old(active)
      ensures used <= |answers| && old(|wire|) + used <= |wire|
      ensures old(destroyed) || timedOut ==> destroyed
      ensures old(Stuck()) || answers == [] ==> destroyed == (old(destroyed) || timedOut)
      ensures destroyed ==> old(destroyed) || timedOut || (used < |answers| && answers[used] == Error)
      ensures destroyed || used == |answers| || answers[used] == Again || answers[used] == Wrote(0)
              || wire == Flat(accepted) || old(Stuck())
      ensures Flowing() || old(Stuck())
    {
      used := 0;
      if destroyed {
        return;
      }
      if timedOut {
        Finalize();
        return;
      }
      used := Resume(answers);
    }

    /** The rest of ngx_rtmp_send: the message being sent goes on, or the first one queued starts. */
    method Resume(answers: seq<Sent>) returns (used: nat)
      requires Valid() && !destroyed
      modifies this`at, this`outChain, this`active, this`outPos, this`slots, this`queued, this`wire, this`released,
               this`destroyed
      ensures Valid() && accepted == old(accepted)
      ensures old(wire) <= wire && old(released) <= released
      ensures old(Stuck()) || answers == [] ==>
                wire == old(wire) && released == old(released) && outPos == old(outPos) && !destroyed
      ensures old(Stuck()) ==> at == old(at) && active == old(active)
      ensures used <= |answers| && old(|wire|) + used <= |wire|
      ensures destroyed ==> used < |answers| && answers[used] == Error
      ensures destroyed || used == |answers| || answers[used] == Again || answers[used] == Wrote(0)
              || wire == Flat(accepted) || old(Stuck())
      ensures Flowing() || old(Stuck())
    {
      used := 0;
      if at == Idle {
        StartNext();
      }
      if at == Idle {
        return;
      }
      used := WriteOut(answers);
      if at == Idle && active {
        active := false;
      }
    }

    /** The loop of ngx_rtmp_send. A socket that takes nothing has its write event armed. */
    method WriteOut(answers: seq<Sent>) returns (used: nat)
      requires Sound() && at.Sending? && !destroyed
      modifies this`at, this`outChain, this`active, this`outPos, this`slots, this`queued, this`wire, this`released,
               this`destroyed
      ensures Sound() && accepted == old(accepted)
      ensures old(wire) <= wire && old(released) <= released
      ensures answers == [] ==> wire == old(wire) && released == old(released) && outPos == old(outPos) && !destroyed
      ensures used <= |answers| && old(|wire|) + used <= |wire|
      ensures destroyed ==> used < |answers| && answers[used] == Error
      ensures destroyed || used == |answers| || answers[used] == Again || answers[used] == Wrote(0)
              || wire == Flat(accepted)
      ensures if at.Sending? then destroyed || active else queued == []
    {
      used := 0;
      ghost var total, over: seq<nat> := [], [];
      while at != Idle && used < |answers|
        invariant Sound() && accepted == old(accepted) && !destroyed
        invariant wire == old(wire) + total && released == old(released) + over
        invariant used <= |answers| && used <= |total|
        invariant used == 0 ==> total == [] && over == [] && outPos == old(outPos)
        invariant at == Idle ==> queued == []
        decreases |answers| - used
      {
        match answers[used] {
          case Again => active := true; return;
          case Error => Finalize(); return;
          case Wrote(n) =>
            if n == 0 {
              active := true;
              return;
            }
            ghost var sent, gone := Written(n);
            Assoc(old(wire), total, sent);
            Assoc(old(released), over, gone);
            total, over := total + sent, over + gone;
        }
        used := used + 1;
      }
      if at == Idle {
        BooksDone(accepted, at, wire, released);
      } else {
        active := true;
      }
    }

    /** The socket took up to `n` bytes of the current buffer. */
    method Written(n: nat) returns (ghost sent: seq<byte>, ghost gone: seq<nat>)
      requires Sound() && at.Sending?
      modifies this`at, this`outChain, this`outPos, this`slots, this`queued, this`wire, this`released
      ensures Sound() && (at == Idle ==> queued == [])
      ensures wire == old(wire) + sent && released == old(released) + gone
      ensures |sent| == old(Min(n, |queued[0].bufs[at.buf]| - at.off))
    {
      RingFront(out[..], outPos, outLast, slots);
      var buf := outChain[at.buf];
      assert released + [] == released;
      if n < |buf| - at.off {
        sent, gone := buf[at.off..at.off + n], [];
        FinishPart(n);
      } else if at.buf + 1 < |outChain| {
        sent, gone := buf[at.off..], [];
        FinishBuffer();
      } else {
        sent, gone := buf[at.off..], [out[outPos].id];
        FinishMessage();
      }
    }

    /** Some bytes of a buffer, but not all. */
    method FinishPart(n: nat)
      requires Sound() && at.Sending? && at.off + n < |queued[0].bufs[at.buf]|
      modifies this`at, this`wire
      ensures Sound() && at == old(Sending(at.buf, at.off + n))
      ensures wire == old(wire + queued[0].bufs[at.buf][at.off..at.off + n])
    {
      var more := wire + outChain[at.buf][at.off..at.off + n];
      BooksAdvance(accepted, queued, at, wire, released, n, more);
      wire, at := more, Sending(at.buf, at.off + n);
      assert out[..] == old(out[..]);
    }

    /** The last bytes of a buffer that is not the last of its message. */
    method FinishBuffer()
      requires Sound() && at.Sending? && at.buf + 1 < |queued[0].bufs|
      modifies this`at, this`wire
      ensures Sound() && at == old(Sending(at.buf + 1, 0))
      ensures wire == old(wire + queued[0].bufs[at.buf][at.off..])
    {
      var more := wire + outChain[at.buf][at.off..];
      BooksNextBuf(accepted, queued, at, wire, released, more);
      wire, at := more, Sending(at.buf + 1, 0);
      assert out[..] == old(out[..]);
    }

    /**
      * The last bytes of the first message are out: what is in its slot is released, which is another message if the
      * slot has been overwritten, and the next one becomes current.
      */
    method FinishMessage()
      requires Sound() && at.Sending? && at.buf + 1 == |queued[0].bufs|
      modifies this`at, this`outChain, this`outPos, this`slots, this`queued, this`wire, this`released
      ensures Sound() && (at == Idle ==> queued == [])
      ensures wire == old(wire + queued[0].bufs[at.buf][at.off..])
      ensures released == old(released + [slots[0].id]) && queued == old(queued[1..])
    {
      RingPop(out[..], outPos, outLast, slots);
      var more, gone := wire + outChain[at.buf][at.off..], released + [out[outPos].id];
      BooksNextMessage(accepted, queued, at, wire, released, more, gone);
      SpareLess(out.Length, |queued|, |queued| - 1);
      wire, released := more, gone;
      ModIsWrap(outPos + 1, out.Length);
      outPos := (outPos + 1) % out.Length;
      slots, queued, at := slots[1..], queued[1..], Idle;
      StartNext();
    }

    /** If a message is queued, its first buffer is the next to be sent; a full queue looks empty. */
    method StartNext()
      requires Sound() && at == Idle
      modifies this`at, this`outChain
      ensures Sound() && (at == Idle <==> queued == [] || |queued| == out.Length)
      ensures queued == [] ==> wire == Flat(accepted)
    {
      if queued == [] {
        BooksDone(accepted, at, wire, released);
      }
      if outPos != outLast {
        RingFront(out[..], outPos, outLast, slots);
        BooksStart(accepted, queued, wire, released);
        at, outChain := Sending(0, 0), out[outPos].bufs;
      }
    }

    /**
      * Closing the session gives back every message still queued, so each accepted one is released exactly once; of a
      * full queue it gives back none.
      */
    method Close()
      requires Valid()
      modifies this
      ensures old(|queued|) < out.Length ==> released == Ids(accepted)
      ensures old(|queued|) == out.Length ==> released == old(released)
      ensures wire == old(wire) <= Flat(accepted) && accepted == old(accepted)
    {
      assert wire <= Flat(accepted) && Ids(accepted) == released + Ids(queued) by {
        assert Unfold(0);
      }
      SameIds(slots, queued, at);
      ReleaseAll();
    }

    /** Releases from the first slot on, until the queue looks empty. */
    method ReleaseAll()
      requires Ring(out[..], outPos, outLast, slots) && Ids(accepted) == released + Ids(slots)
      modifies this`released, this`outPos, this`slots
      ensures old(|slots|) < out.Length ==> released == Ids(accepted)
      ensures old(|slots|) == out.Length ==> released == old(released)
    {
      while outPos != outLast
        invariant Ring(out[..], outPos, outLast, slots)
        invariant old(|slots|) < out.Length ==> |slots| < out.Length
        invariant old(|slots|) == out.Length ==> outPos == outLast && released == old(released)
        invariant Ids(accepted) == released + Ids(slots)
        decreases |slots|
      {
        RingPop(out[..], outPos, outLast, slots);
        IdsPop(slots, released);
        released := released + [out[outPos].id];
        ModIsWrap(outPos + 1, out.Length);
        outPos := (outPos + 1) % out.Length;
        slots := slots[1..];
      }
    }
  }

  lemma SameIds(slots: seq<Chain>, queued: seq<Chain>, at: Position)
    requires Holds(slots, queued, at)
    ensures Ids(slots) == Ids(queued)
  {
    if queued != [] {
      IdsPop(slots, []);
      IdsPop(queued, []);
    }
  }
}
