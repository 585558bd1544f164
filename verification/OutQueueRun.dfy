/** What happens to an output queue whose size does not divide 2^64: runs of the queue from its beginning. */
module OutQueueRun {
  import opened Bytes
  import opened OutQueue

  /** Message number `id`, of one byte. */
  function Message(id: nat, b: byte): Chain {
    Chain(id, [[b]])
  }

  function Numbered(n: nat, b: byte): seq<Chain> {
    seq(n, i requires 0 <= i < n => Message(i, b))
  }

  lemma NumberedMore(n: nat, b: byte)
    ensures Numbered(n + 1, b) == Numbered(n, b) + [Message(n, b)]
  {
  }

  lemma MessageFlat(id: nat, b: byte)
    ensures Sendable(Message(id, b)) && Flat([Message(id, b)]) == [b]
  {
    FlatOne(Message(id, b));
    assert Concat([[b]]) == [b] + Concat([]);
  }

  lemma {:induction false} NumberedFlat(n: nat, b: byte)
    ensures |Flat(Numbered(n, b))| == n
  {
    if n > 0 {
      NumberedFlat(n - 1, b);
      NumberedMore(n - 1, b);
      FlatAppend(Numbered(n - 1, b), [Message(n - 1, b)]);
      MessageFlat(n - 1, b);
    }
  }

  /** What is said of the wire and the releases, when everything accepted is on the wire. */
  lemma AllSent(q: Output)
    requires q.Valid() && |q.wire| >= |Flat(q.accepted)|
    ensures q.wire == Flat(q.accepted) && q.queued == [] && q.at == Idle && !q.active && q.released == Ids(q.accepted)
    ensures q.outPos == q.outLast
  {
    BooksSay(q.accepted, q.queued, q.at, q.wire, q.released);
    BooksEmpty(q.accepted, q.queued, q.at, q.wire, q.released);
  }

  /** A message comes to a queue whose socket takes nothing. */
  method Arrives(q: Output, id: nat, b: byte) returns (ok: bool)
    requires q.Valid() && q.Flowing() && !q.destroyed
    modifies q, q.out
    ensures q.Valid() && !q.destroyed && (ok <==> old(q.Takes(0)))
    ensures q.accepted == if !ok then old(q.accepted)
                          else if old(q.Full()) then
                            old(Overwritten(q.accepted, q.released, q.queued, q.at, Message(id, b)))
                          else old(q.accepted) + [Message(id, b)]
    ensures q.outLast == if ok then Wrap(old(q.outLast) + 1, q.out.Length) else old(q.outLast)
    ensures q.wire == old(q.wire) && q.released == old(q.released) && q.outPos == old(q.outPos)
    ensures |q.released| <= |q.accepted| && q.queued == q.accepted[|q.released|..] && (ok ==> q.active)
  {
    MessageFlat(id, b);
    ok := q.SendMessage(Message(id, b), 0, 0, false, []);
    BooksSay(q.accepted, q.queued, q.at, q.wire, q.released);
    BooksSize(q);
  }

  lemma BooksSize(q: Output)
    requires q.Valid()
    ensures |q.released| <= |q.accepted| && q.queued == q.accepted[|q.released|..]
  {
    BooksSay(q.accepted, q.queued, q.at, q.wire, q.released);
  }

  /** A new queue that has sent message 0. */
  method FirstSent(size: nat, b: byte) returns (q: Output)
    requires 2 < size < TWO64
    ensures fresh(q) && fresh(q.out) && q.Valid() && q.out.Length == size && q.outPos == q.outLast == 1
    ensures q.queued == [] && q.accepted == Numbered(1, b) && q.at == Idle && !q.active && !q.destroyed
    ensures q.released == [0] && q.wire == [b]
  {
    q := new Output(size);
    OccupancyRight(0, 0, size);
    var ok := Arrives(q, 0, b);
    var _ := q.Send(false, [Wrote(1)]);
    assert q.accepted == [Message(0, b)] == Numbered(1, b);
    MessageFlat(0, b);
    AllSent(q);
  }

  /**
    * For every size that does not divide 2^64: message 0 is sent. Then the socket takes nothing, and as many messages
    * are accepted as there are slots. The first of them is being sent, and the positions are those of an empty queue.
    */
  method Fill(size: nat, b: byte) returns (q: Output)
    requires 0 < size < TWO64 && TWO64 % size != 0
    ensures size > 2 && fresh(q) && fresh(q.out) && q.Valid() && q.out.Length == size
    ensures q.accepted == Numbered(size + 1, b) && q.queued == q.accepted[1..] && q.Full() && q.outPos == q.outLast
    ensures q.released == [0] && q.wire == [b] && q.active && !q.destroyed
  {
    FullLooksFree(size);
    q := FirstSent(size, b);
    var i: nat := 0;
    while i < size
      invariant q.Valid() && fresh(q) && fresh(q.out) && q.out.Length == size && i <= size
      invariant q.outPos == 1 && q.outLast == Wrap(1 + i, size) && !q.destroyed && (i == 0 || q.active)
      invariant q.accepted == Numbered(i + 1, b) && q.queued == q.accepted[1..] && q.released == [0] && q.wire == [b]
    {
      ComesNext(size, i);
      NumberedMore(i + 1, b);
      var ok := Arrives(q, i + 1, b);
      i := i + 1;
    }
  }

  /** If nothing more comes, all of them are sent once the socket takes them. */
  method FullIsSent(size: nat, b: byte) returns (q: Output)
    requires 0 < size < TWO64 && TWO64 % size != 0
    ensures fresh(q) && q.Valid() && q.accepted == Numbered(size + 1, b) && q.queued == [] && !q.destroyed
    ensures q.wire == Flat(q.accepted) && q.released == Ids(q.accepted)
  {
    q := Fill(size, b);
    NumberedFlat(size + 1, b);
    var _ := q.Send(false, seq(size, _ => Wrote(1)));
    AllSent(q);
  }

  /**
    * If one more message comes, it is accepted into the slot of the message being sent. When that one is done the new
    * one is released in its place, and the queue looks empty and is idle: of `size + 2` messages accepted, two are sent
    * and two are released, and the new one is released without being sent.
    */
  method OneTooMany(size: nat, b: byte, c: byte) returns (ok: bool, q: Output)
    requires 0 < size < TWO64 && TWO64 % size != 0
    ensures ok && fresh(q) && q.Valid() && q.outPos == q.outLast && q.at == Idle && !q.active && !q.destroyed
    ensures q.wire == [b, b] && q.released == [0, size + 1]
  {
    q := Fill(size, b);
    OccupancyRight(1, 1, size);
    ghost var m := Message(1, b);
    assert Released(q.accepted, q.released) == [Message(0, b)] && q.queued[0] == m;
    ok := Arrives(q, size + 1, c);
    ghost var p := Renamed(m, size + 1);
    assert ok && q.accepted == [Message(0, b), p];
    TwoFlat(b, size + 1);
    var _ := q.Send(false, [Wrote(1)]);
    AllSent(q);
    assert Ids(q.accepted) == [0, size + 1];
  }

  lemma TwoFlat(b: byte, id: nat)
    ensures Flat([Message(0, b), Message(id, b)]) == [b, b]
  {
    assert [Message(0, b), Message(id, b)] == [Message(0, b)] + [Message(id, b)];
    FlatAppend([Message(0, b)], [Message(id, b)]);
    MessageFlat(0, b);
    MessageFlat(id, b);
  }

  /**
    * With messages that are corked the queue fills up while nothing is being sent, here with three slots. It then looks
    * empty, and none of them is sent, whatever the socket would take.
    */
  method CorkedGetStuck(b: byte, cork: nat, answers: seq<Sent>) returns (q: Output)
    requires cork >= 3
    ensures fresh(q) && q.Valid() && q.out.Length == 3 && q.Stuck() && q.outPos == q.outLast && !q.destroyed
    ensures q.accepted == Numbered(4, b) && q.released == [0] && q.wire == [b]
  {
    q := FirstSent(3, b);
    var i: nat := 0;
    while i < 3
      invariant q.Valid() && fresh(q) && fresh(q.out) && q.out.Length == 3 && i <= 3
      invariant q.outPos == 1 && q.outLast == Wrap(1 + i, 3) && !q.destroyed && q.at == Idle && !q.active
      invariant q.accepted == Numbered(i + 1, b) && q.queued == q.accepted[1..] && q.released == [0] && q.wire == [b]
    {
      CorkedAtThree(i);
      MessageFlat(i + 1, b);
      NumberedMore(i + 1, b);
      var ok := q.SendMessage(Message(i + 1, b), 1, cork, true, []);
      BooksSize(q);
      i := i + 1;
    }
    var _ := q.Send(false, answers);
    BooksSize(q);
  }

  /** With three slots, three messages of priority 1 are accepted one after another, and counted as at most two. */
  lemma CorkedAtThree(i: nat)
    requires i < 3
    ensures Occupancy(1, Wrap(1 + i, 3), 3) < 2 && Accepts(Occupancy(1, Wrap(1 + i, 3), 3), 1, 3)
  {
    assert TWO64 % 3 == 1;
    if i < 2 {
      OccupancyRight(1, 1 + i, 3);
    } else {
      assert (0 - 1) % TWO64 == TWO64 - 1;
    }
  }

  /** How many messages of one priority a new queue takes while its socket takes nothing. */
  function Share(size: nat, priority: nat): nat {
    var kept := if priority == 0 then 0 else if priority == 1 then size / 4
                else if priority == 2 then size / 2 else 3 * size / 4;
    if kept + 1 <= size then size - kept - 1 else 0
  }

  /** Messages of one priority come until one is refused: a quarter of the slots is kept free for each step of it. */
  method Saturate(size: nat, priority: nat, b: byte) returns (q: Output, n: nat)
    requires 0 < size < TWO64
    ensures fresh(q) && q.Valid() && q.out.Length == size && n == Share(size, priority)
    ensures q.accepted == Numbered(n, b) && q.queued == q.accepted && q.wire == [] && !q.Takes(priority)
  {
    q := new Output(size);
    n := 0;
    var ok := true;
    while ok
      invariant q.Valid() && fresh(q) && fresh(q.out) && q.out.Length == size && n <= Share(size, priority) < size
      invariant q.outPos == 0 && q.outLast == n && !q.destroyed && q.released == [] && q.wire == []
      invariant q.accepted == Numbered(n, b) && q.queued == q.accepted
      invariant !ok ==> !q.Takes(priority)
      decreases Share(size, priority) - n, ok
    {
      MessageFlat(n, b);
      NumberedMore(n, b);
      Shares(n, size, priority);
      OccupancyRight(0, n, size);
      ok := q.SendMessage(Message(n, b), priority, 0, false, []);
      BooksSize(q);
      if ok {
        n := n + 1;
      }
    }
    Shares(n, size, priority);
    OccupancyRight(0, n, size);
  }
}
