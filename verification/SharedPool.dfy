/**
  * ngx_rtmp_shared.c: reference-counted output buffers linked through `next` pointers, with a free list.
  * The pointers are proved to spell out the lists of SharedLayout.
  */
module SharedPool {
  import opened Bytes
  import opened ChunkFormat
  import opened ChunkBuffers
  import opened SharedLayout

  /** A chain link, its reference count and its buffer; `next` is NULL or the index of the next link. */
  datatype Node = Node(next: int, ref: uint32, buf: Buf)

  ghost predicate LinkOk(nodes: seq<Node>, l: Layout, c: int, i: int) {
    var list := ListOf(l, c);
    0 <= i < |list| ==> list[i] < |nodes| && nodes[list[i]].next == if i + 1 < |list| then list[i + 1] else NULL
  }

  ghost predicate NodeOk(nodes: seq<Node>, l: Layout, capacity: nat, k: int) {
    0 <= k < |nodes| ==>
      && nodes[k].buf.Valid(capacity)
      && (k in l.chains ==> k in l.refs && nodes[k].ref == l.refs[k])
  }

  /** The pointers and counts in memory agree with the layout. */
  ghost predicate Spells(nodes: seq<Node>, free: int, l: Layout, capacity: nat) {
    && free == (if l.free == [] then NULL else l.free[0])
    && (forall c: int, i: int {:trigger Slot(c, i)} :: Slot(c, i) ==> LinkOk(nodes, l, c, i))
    && (forall k: int {:trigger Known(k)} :: Known(k) ==> NodeOk(nodes, l, capacity, k))
  }

  ghost function BufsOf(nodes: seq<Node>): (bufs: seq<Buf>)
    ensures |bufs| == |nodes| && forall k :: 0 <= k < |nodes| ==> bufs[k] == nodes[k].buf
  {
    seq(|nodes|, k requires 0 <= k < |nodes| => nodes[k].buf)
  }

  /** The bytes a chain holds. */
  ghost function Payload(nodes: seq<Node>, ids: seq<nat>): seq<byte> {
    Gather(BufsOf(nodes), ids)
  }

  /** Headers not yet written, and every buffer but the last is full. */
  ghost predicate Packed(nodes: seq<Node>, ids: seq<nat>, capacity: nat) {
    forall i :: 0 <= i < |ids| ==>
      && ids[i] < |nodes| && nodes[ids[i]].buf.pos == MAX_CHUNK_HEADER <= nodes[ids[i]].buf.last
      && (i + 1 < |ids| ==> nodes[ids[i]].buf.last == capacity)
  }

  /** Only the first buffer may be empty. */
  ghost predicate NoEmptyTail(nodes: seq<Node>, ids: seq<nat>) {
    forall i :: 0 < i < |ids| ==> ids[i] < |nodes| && nodes[ids[i]].buf.last > MAX_CHUNK_HEADER
  }

  ghost predicate SameBufs(nodes: seq<Node>, nodes': seq<Node>, ids: seq<nat>) {
    forall i :: 0 <= i < |ids| ==> ids[i] < |nodes| && ids[i] < |nodes'| && nodes'[ids[i]].buf == nodes[ids[i]].buf
  }

  /** `bufs` are the buffers named by `ids`. */
  ghost predicate BufsAre(nodes: seq<Node>, ids: seq<nat>, bufs: seq<Buf>) {
    |bufs| == |ids| && forall i :: 0 <= i < |ids| ==> ids[i] < |nodes| && nodes[ids[i]].buf == bufs[i]
  }

  lemma BufsMore(nodes: seq<Node>, nodes': seq<Node>, ids: seq<nat>, bufs: seq<Buf>, i: nat)
    requires i < |ids| == |bufs| && ids[i] < |nodes| && ids[i] !in ids[..i] && BufsAre(nodes, ids[..i], bufs[..i])
    requires nodes' == nodes[ids[i] := nodes[ids[i]].(buf := bufs[i])]
    ensures BufsAre(nodes', ids[..i + 1], bufs[..i + 1])
  {
    forall j | 0 <= j <= i ensures ids[j] < |nodes| && nodes'[ids[j]].buf == bufs[j] {
      if j < i {
        assert ids[..i][j] == ids[j] && bufs[..i][j] == bufs[j];
      }
    }
  }

  lemma ChainDistinct(l: Layout, home: seq<Home>, h: nat, i: nat)
    requires LayoutOk(l, home) && h in l.chains && i < |l.chains[h]|
    ensures l.chains[h][i] < |home| && l.chains[h][i] !in l.chains[h][..i]
  {
    assert Slot(h, i);
    forall j | 0 <= j < i ensures l.chains[h][j] != l.chains[h][i] {
      assert Slot(h, j);
    }
  }

  /** Every chain but `h` is as it was. */
  ghost predicate OthersKept(nodes: seq<Node>, l: Layout, nodes': seq<Node>, l': Layout, h: int) {
    forall c: int {:trigger Known(c)} :: Known(c) && c in l.chains && c != h ==>
      && c in l'.chains && l'.chains[c] == l.chains[c]
      && c in l.refs && c in l'.refs && l'.refs[c] == l.refs[c]
      && SameBufs(nodes, nodes', l.chains[c])
  }

  lemma PayloadKept(nodes: seq<Node>, nodes': seq<Node>, ids: seq<nat>)
    requires SameBufs(nodes, nodes', ids)
    ensures Payload(nodes', ids) == Payload(nodes, ids)
  {
    GatherFrame(BufsOf(nodes), BufsOf(nodes'), ids);
  }

  /** Writing to the last buffer of a chain adds to its payload. */
  lemma PayloadGrows(nodes: seq<Node>, nodes': seq<Node>, ids: seq<nat>, k: nat, b: Buf, copied: seq<byte>)
    requires k < |nodes| && nodes' == nodes[k := nodes[k].(buf := b)] && Added(nodes[k].buf, b, copied)
    requires ids != [] && ids[|ids| - 1] == k && k !in ids[..|ids| - 1]
    requires forall i :: 0 <= i < |ids| ==> ids[i] < |nodes|
    ensures Payload(nodes', ids) == Payload(nodes, ids) + copied
  {
    var front := ids[..|ids| - 1];
    assert ids == front + [k];
    GatherSnoc(BufsOf(nodes), front, k);
    GatherSnoc(BufsOf(nodes'), front, k);
    assert SameBufs(nodes, nodes', front);
    PayloadKept(nodes, nodes', front);
    Assoc(Payload(nodes, front), nodes[k].buf.Live(), copied);
  }

  // ----- Copying input into a buffer

  /** Adds bytes behind the live part. */
  function Write(b: Buf, bytes: seq<byte>): (r: Buf)
    requires b.pos <= b.last && b.last + |bytes| <= |b.data|
    ensures r.Live() == b.Live() + bytes
    ensures r.pos == b.pos && r.last == b.last + |bytes| && |r.data| == |b.data|
  {
    var data := b.data[..b.last] + bytes + b.data[b.last + |bytes|..];
    assert data[b.pos..b.last + |bytes|] == b.data[b.pos..b.last] + bytes;
    Buf(b.pos, b.last + |bytes|, data)
  }

  /** What is left of the input chain from byte `p` of its buffer `j` on. */
  function Rest(input: seq<seq<byte>>, j: nat, p: nat): seq<byte>
    requires j < |input| && p <= |input[j]|
  {
    input[j][p..] + Concat(input[j + 1..])
  }

  lemma RestNext(input: seq<seq<byte>>, j: nat, p: nat)
    requires j < |input| && p <= |input[j]|
    ensures j + 1 < |input| ==> Rest(input, j, p) == input[j][p..] + Rest(input, j + 1, 0)
    ensures j + 1 == |input| ==> Rest(input, j, p) == input[j][p..]
  {
    if j + 1 < |input| {
      assert input[j + 1..][1..] == input[j + 2..];
      assert input[j + 1][0..] == input[j + 1];
    } else {
      assert input[j + 1..] == [];
    }
  }

  /** `b` is `b0` with `copied` added. */
  ghost predicate Added(b0: Buf, b: Buf, copied: seq<byte>) {
    && b0.pos <= b0.last && b.pos == b0.pos && |b.data| == |b0.data|
    && b.last == b0.last + |copied| <= |b.data| && b.Live() == b0.Live() + copied
  }

  method Add(ghost b0: Buf, b: Buf, ghost copied: seq<byte>, bytes: seq<byte>) returns (r: Buf)
    requires Added(b0, b, copied) && b.last + |bytes| <= |b.data|
    ensures Added(b0, r, copied + bytes)
  {
    r := Write(b, bytes);
    Assoc(b0.Live(), copied, bytes);
  }

  /** Copies whole input buffers for as long as they fit; `done` when all of the input has been copied. */
  method FillWhole(b0: Buf, input: seq<seq<byte>>, j0: nat, p0: nat)
    returns (b: Buf, j: nat, p: nat, done: bool, ghost copied: seq<byte>)
    requires j0 < |input| && p0 <= |input[j0]| && b0.pos <= b0.last <= |b0.data|
    ensures Added(b0, b, copied)
    ensures done ==> Rest(input, j0, p0) == copied
    ensures !done ==> j < |input| && p <= |input[j]| && Rest(input, j0, p0) == copied + Rest(input, j, p)
    ensures !done ==> |b.data| - b.last < |input[j]| - p
  {
    b, j, p, copied, done := b0, j0, p0, [], false;
    assert b0.Live() + [] == b0.Live();
    while |b.data| - b.last >= |input[j]| - p
      invariant j < |input| && p <= |input[j]| && Added(b0, b, copied)
      invariant Rest(input, j0, p0) == copied + Rest(input, j, p)
      decreases |input| - j
    {
      RestNext(input, j, p);
      b := Add(b0, b, copied, input[j][p..]);
      if j + 1 == |input| {
        return b, j, p, true, copied + input[j][p..];
      }
      Assoc(copied, input[j][p..], Rest(input, j + 1, 0));
      j, p, copied := j + 1, 0, copied + input[j][p..];
    }
  }

  /** Copies as much of the rest of the input as fits; `done` when that was all of it. */
  method Fill(b0: Buf, input: seq<seq<byte>>, j0: nat, p0: nat)
    returns (b: Buf, j: nat, p: nat, done: bool, ghost copied: seq<byte>)
    requires j0 < |input| && p0 <= |input[j0]| && b0.pos <= b0.last <= |b0.data|
    ensures Added(b0, b, copied)
    ensures done ==> Rest(input, j0, p0) == copied
    ensures !done ==> j < |input| && p < |input[j]| && b.last == |b.data|
    ensures !done ==> Rest(input, j0, p0) == copied + Rest(input, j, p)
  {
    b, j, p, done, copied := FillWhole(b0, input, j0, p0);
    if !done {
      var size := |b.data| - b.last;
      var part := input[j][p..p + size];
      RestSplit(input, j, p, size);
      Assoc(copied, part, Rest(input, j, p + size));
      b := Add(b0, b, copied, part);
      p, copied := p + size, copied + part;
    }
  }

  lemma RestSplit(input: seq<seq<byte>>, j: nat, p: nat, n: nat)
    requires j < |input| && p + n <= |input[j]|
    ensures Rest(input, j, p) == input[j][p..p + n] + Rest(input, j, p + n)
  {
    assert input[j][p..] == input[j][p..p + n] + input[j][p + n..];
  }

  class Pool {
    const chunkSize: nat
    var nodes: seq<Node>
    var free: int
    ghost var layout: Layout
    ghost var home: seq<Home>

    ghost function Capacity(): nat {
      chunkSize + MAX_CHUNK_HEADER
    }

    ghost predicate Valid()
      reads this
    {
      |home| == |nodes| && LayoutOk(layout, home) && Spells(nodes, free, layout, Capacity())
    }

    constructor (chunkSize: nat)
      requires chunkSize > 0
      ensures Valid() && this.chunkSize == chunkSize && layout == Layout([], map[], map[])
    {
      this.chunkSize := chunkSize;
      nodes, free, layout, home := [], NULL, Layout([], map[], map[]), [];
    }

    /** A chain of one empty buffer with one reference: recycled if possible, otherwise new. */
    method AllocSharedBuf() returns (id: nat)
      requires Valid()
      modifies this
      ensures Valid()
      ensures id == AllocatedId(old(layout), |old(nodes)|) && layout == Allocated(old(layout), |old(nodes)|)
      ensures id < |nodes| && |nodes| >= |old(nodes)|
      ensures nodes[id].next == NULL && nodes[id].buf.pos == nodes[id].buf.last == MAX_CHUNK_HEADER
      ensures forall k :: 0 <= k < |old(nodes)| && k != id ==> nodes[k] == old(nodes)[k]
    {
      AllocKeeps(layout, home);
      ghost var l0, nodes0 := layout, nodes;
      NotAChain(layout, home, AllocatedId(layout, |home|));
      assert Slot(FREE, 0) && Slot(FREE, 1);
      layout, home := Allocated(layout, |home|), AllocatedHomes(layout, home);
      if free != NULL {
        id := free;
        assert Known(id);
        free := nodes[id].next;
      } else {
        id := |nodes|;
        nodes := nodes + [Node(NULL, 0, Buf(0, 0, seq(chunkSize + MAX_CHUNK_HEADER, i => 0)))];
      }
      var b := nodes[id].buf.(pos := MAX_CHUNK_HEADER, last := MAX_CHUNK_HEADER);
      nodes := nodes[id := Node(NULL, 1, b)];
      AllocSpells(nodes0, nodes, l0, Capacity(), id);
    }

    /** One more holder of the chain. */
    method AcquireSharedChain(h: nat)
      requires Valid() && h in layout.chains && layout.refs[h] + 1 < TWO32
      modifies this
      ensures Valid() && layout == Acquired(old(layout), h)
      ensures h < |old(nodes)| && nodes == old(nodes)[h := old(nodes)[h].(ref := Add32(old(nodes)[h].ref, 1))]
    {
      assert Known(h) && Slot(h, 0);
      AcquireKeeps(layout, home, h);
      var count := Add32(nodes[h].ref, 1);
      CountSpells(nodes, free, layout, Acquired(layout, h), Capacity(), h, count);
      nodes := nodes[h := nodes[h].(ref := count)];
      layout := Acquired(layout, h);
    }

    /** One holder less; the last one to let go returns the whole chain to the free list. */
    method FreeSharedChain(h: nat)
      requires Valid() && h in layout.chains
      modifies this
      ensures Valid() && h in old(layout).refs && layout == Released(old(layout), h)
      ensures |nodes| == |old(nodes)| && forall k :: 0 <= k < |nodes| ==> nodes[k].buf == old(nodes)[k].buf
    {
      assert Known(h) && Slot(h, 0);
      var count := Sub32(nodes[h].ref, 1);
      if count != 0 {
        ReleaseKeeps(layout, home, h);
        CountSpells(nodes, free, layout, Released(layout, h), Capacity(), h, count);
        nodes := nodes[h := nodes[h].(ref := count)];
        layout := Released(layout, h);
      } else {
        GiveBack(h);
      }
    }

    /** The last holder has let go: the chain goes in front of the free list. */
    method GiveBack(h: nat)
      requires Valid() && h in layout.chains && h in layout.refs && layout.refs[h] == 1 && h < |nodes|
      modifies this
      ensures Valid() && layout == Released(old(layout), h)
      ensures |nodes| == |old(nodes)| && forall k :: 0 <= k < |nodes| ==> nodes[k].buf == old(nodes)[k].buf
    {
      var cl := LastLink(h);
      ReleaseKeeps(layout, home, h);
      ReleaseSpells(nodes, free, layout, Capacity(), h, home, cl);
      nodes := nodes[h := nodes[h].(ref := 0)];
      nodes := nodes[cl := nodes[cl].(next := free)];
      layout, home := Released(layout, h), ReleasedHomes(layout, home, h);
      free := h;
    }

    /** The end of a chain, found by following its links. */
    method LastLink(h: nat) returns (cl: nat)
      requires Valid() && h in layout.chains
      ensures layout.chains[h] != [] && cl == layout.chains[h][|layout.chains[h]| - 1] < |nodes|
    {
      assert Known(h) && Slot(h, 0);
      ghost var chain := layout.chains[h];
      ghost var i := 0;
      cl := h;
      while nodes[cl].next != NULL
        invariant 0 <= i < |chain| && cl == chain[i] && cl < |nodes|
        invariant nodes[cl].next == if i + 1 < |chain| then chain[i + 1] else NULL
        decreases |chain| - i
      {
        assert Slot(h, i + 1);
        cl := nodes[cl].next;
        i := i + 1;
      }
    }

    /** The buffers of a chain, found by following its links. */
    method ReadChain(h: nat) returns (ids: seq<nat>, bufs: seq<Buf>)
      requires Valid() && h in layout.chains
      ensures ids == layout.chains[h] != [] && BufsAre(nodes, ids, bufs)
    {
      assert Known(h) && Slot(h, 0);
      ghost var chain := layout.chains[h];
      var l: int := h;
      ids, bufs := [], [];
      while l != NULL
        invariant |ids| <= |chain| && ids == chain[..|ids|] && BufsAre(nodes, ids, bufs)
        invariant l == if |ids| < |chain| then chain[|ids|] else NULL
        decreases |chain| - |ids|
      {
        assert Slot(h, |ids|);
        ids, bufs, l := ids + [l], bufs + [nodes[l].buf], nodes[l].next;
      }
    }

    /** Writes new contents into the buffers of a chain. */
    method WriteChain(h: nat, ids: seq<nat>, bufs: seq<Buf>)
      requires Valid() && h in layout.chains && ids == layout.chains[h] && |bufs| == |ids|
      requires forall i :: 0 <= i < |bufs| ==> bufs[i].Valid(Capacity())
      modifies this`nodes
      ensures Valid() && BufsAre(nodes, ids, bufs)
      ensures OthersKept(old(nodes), layout, nodes, layout, h)
    {
      OthersSelf(nodes, layout, home, h);
      var i := 0;
      while i < |ids|
        invariant Valid() && i <= |ids| && BufsAre(nodes, ids[..i], bufs[..i])
        invariant OthersKept(old(nodes), layout, nodes, layout, h)
      {
        ChainDistinct(layout, home, h, i);
        ghost var before := nodes;
        SetBuf(ids[i], bufs[i], h, i);
        OthersTwice(old(nodes), layout, before, layout, nodes, layout, h);
        BufsMore(before, nodes, ids, bufs, i);
        i := i + 1;
      }
      assert ids[..i] == ids && bufs[..i] == bufs;
    }

    /** Replaces the contents of buffer `k`, which only the chain `h` holds. */
    method SetBuf(k: nat, b: Buf, ghost h: nat, ghost i: nat)
      requires Valid() && k < |nodes| && b.Valid(Capacity())
      requires h in layout.chains && i < |layout.chains[h]| && layout.chains[h][i] == k
      modifies this`nodes
      ensures Valid() && nodes == old(nodes)[k := old(nodes)[k].(buf := b)]
      ensures OthersKept(old(nodes), layout, nodes, layout, h)
    {
      SetBufSpells(nodes, free, layout, Capacity(), k, b);
      SetBufOthers(nodes, layout, home, h, i, b);
      nodes := nodes[k := nodes[k].(buf := b)];
    }

    /** Hooks a new empty buffer to the end `cl` of chain `h`. */
    method Extend(h: nat, cl: nat) returns (id: nat)
      requires Valid() && h in layout.chains && layout.chains[h] != []
               && cl == layout.chains[h][|layout.chains[h]| - 1] < |nodes|
      modifies this
      ensures Valid() && id < |nodes| && layout == Grown(old(layout), |old(nodes)|, h)
      ensures h in layout.chains && layout.chains[h] == old(layout).chains[h] + [id]
      ensures id !in old(layout).chains[h] && h in layout.refs && h in old(layout).refs
              && layout.refs[h] == old(layout).refs[h]
      ensures nodes[id].buf.pos == nodes[id].buf.last == MAX_CHUNK_HEADER && |nodes[id].buf.data| == Capacity()
      ensures SameBufs(old(nodes), nodes, old(layout).chains[h])
      ensures OthersKept(old(nodes), old(layout), nodes, layout, h)
    {
      ghost var l0, nodes0, home0 := layout, nodes, home;
      ExtendLayout(layout, home, h);
      id := AllocSharedBuf();
      assert Known(id);
      JoinKeeps(layout, home, h, id);
      JoinSpells(nodes, free, layout, home, Capacity(), h, id, cl);
      nodes := nodes[cl := nodes[cl].(next := id)];
      layout, home := Joined(layout, h, id), JoinedHomes(layout, home, h, id);
      ExtendOthers(nodes0, l0, home0, nodes, layout, h, id);
    }

    /** Chain `h` ends in buffer `cl`, and is ready for more. */
    ghost predicate Open(h: nat, cl: nat)
      reads this
    {
      && h in layout.chains && layout.chains[h] != [] && cl == layout.chains[h][|layout.chains[h]| - 1] < |nodes|
      && Packed(nodes, layout.chains[h], Capacity())
    }

    /** The last buffer of chain `h` is not full. */
    ghost predicate HasRoom(h: int)
      reads this
    {
      && h in layout.chains && layout.chains[h] != []
      && var cl := layout.chains[h][|layout.chains[h]| - 1];
      cl < |nodes| && nodes[cl].buf.last < |nodes[cl].buf.data|
    }

    /** The end of chain `h`, in a new buffer if the last one is full. */
    method MakeRoom(h: nat, cl0: nat) returns (cl: nat)
      requires Valid() && chunkSize > 0 && Open(h, cl0)
      modifies this
      ensures Valid() && Open(h, cl) && h in layout.refs && h in old(layout).refs
              && layout.refs[h] == old(layout).refs[h]
      ensures |nodes[cl].buf.data| == Capacity() > nodes[cl].buf.last
      ensures Payload(nodes, layout.chains[h]) == old(Payload(nodes, layout.chains[h]))
      ensures OthersKept(old(nodes), old(layout), nodes, layout, h)
      ensures old(NoEmptyTail(nodes, layout.chains[h])) ==>
                NoEmptyTail(nodes, layout.chains[h][..|layout.chains[h]| - 1])
      ensures old(nodes[cl0].buf.last < |nodes[cl0].buf.data|) ==> layout == old(layout) && nodes == old(nodes)
    {
      assert Known(h) && Known(cl0);
      cl := cl0;
      ghost var nodes0, ids := nodes, layout.chains[h];
      if nodes[cl].buf.last == |nodes[cl].buf.data| {
        cl := Extend(h, cl);
        ExtendedPayload(nodes0, nodes, ids, cl);
        ExtendedShape(nodes0, nodes, ids, cl, Capacity());
      } else {
        OthersSelf(nodes, layout, home, h);
        assert NoEmptyTail(nodes, ids) ==> NoEmptyTail(nodes, ids[..|ids| - 1]);
      }
    }

    /** Copies as much of the input as fits into the last buffer of chain `h`. */
    method FillLast(h: nat, cl: nat, input: seq<seq<byte>>, j0: nat, p0: nat)
      returns (j: nat, p: nat, done: bool, ghost copied: seq<byte>)
      requires Valid() && Open(h, cl) && j0 < |input| && p0 <= |input[j0]|
      requires |nodes[cl].buf.data| == Capacity() > nodes[cl].buf.last
      modifies this`nodes
      ensures Valid() && Open(h, cl)
      ensures Payload(nodes, layout.chains[h]) == old(Payload(nodes, layout.chains[h])) + copied
      ensures done ==> Rest(input, j0, p0) == copied
      ensures !done ==>
                j < |input| && p < |input[j]| && Rest(input, j0, p0) == copied + Rest(input, j, p) && copied != []
      ensures OthersKept(old(nodes), layout, nodes, layout, h)
      ensures old(NoEmptyTail(nodes, layout.chains[h][..|layout.chains[h]| - 1]))
              && (copied != [] || |layout.chains[h]| == 1 || old(nodes[cl].buf.last) > MAX_CHUNK_HEADER) ==>
                NoEmptyTail(nodes, layout.chains[h])
    {
      ghost var nodes1 := nodes;
      var b;
      b, j, p, done, copied := Fill(nodes[cl].buf, input, j0, p0);
      SetBuf(cl, b, h, |layout.chains[h]| - 1);
      FilledPayload(nodes1, nodes, layout, home, h, cl, b, copied);
      FilledShape(nodes1, nodes, layout.chains[h], cl, b, Capacity());
    }

    /**
      * Appends the bytes of the input chain to chain `head`, or to a new chain when `head` is NULL; the
      * result keeps every buffer but the last one full.
      */
    method AppendSharedBufs(head: int, input: seq<seq<byte>>) returns (h: nat)
      requires Valid() && chunkSize > 0 && input != []
      requires head != NULL ==> head in layout.chains && Packed(nodes, layout.chains[head], Capacity())
      modifies this
      ensures Valid() && h in layout.chains && h in layout.refs && Packed(nodes, layout.chains[h], Capacity())
      ensures head != NULL ==> h == head && h in old(layout).refs && layout.refs[h] == old(layout).refs[h]
      ensures head == NULL ==> h !in old(layout).chains && layout.refs[h] == 1 && NoEmptyTail(nodes, layout.chains[h])
      ensures head != NULL && old(NoEmptyTail(nodes, layout.chains[head]))
              && (Concat(input) != [] || old(HasRoom(head))) ==>
                NoEmptyTail(nodes, layout.chains[h])
      ensures Payload(nodes, layout.chains[h])
           == (if head == NULL then [] else old(Payload(nodes, layout.chains[head]))) + Concat(input)
      ensures OthersKept(old(nodes), old(layout), nodes, layout, h)
    {
      ghost var nodes0, l0 := nodes, layout;
      var cl;
      if head == NULL {
        h := StartChain();
        cl := h;
      } else {
        h := head;
        cl := LastLink(h);
        OthersSelf(nodes, layout, home, h);
      }
      AppendAll(h, cl, input, Concat(input), nodes0, l0);
    }

    /** The copying loop, as part of a run that started from `nodes0` and `l0`; `all` is the input. */
    method AppendAll(h: nat, cl0: nat, input: seq<seq<byte>>, ghost all: seq<byte>, ghost nodes0: seq<Node>,
                     ghost l0: Layout)
      requires Valid() && chunkSize > 0 && Open(h, cl0) && input != [] && all == Concat(input) && h in layout.refs
      requires OthersKept(nodes0, l0, nodes, layout, h)
      modifies this
      ensures Valid() && h in layout.chains && Packed(nodes, layout.chains[h], Capacity())
      ensures h in layout.refs && layout.refs[h] == old(layout.refs[h])
      ensures OthersKept(nodes0, l0, nodes, layout, h)
      ensures Payload(nodes, layout.chains[h]) == old(Payload(nodes, layout.chains[h])) + all
      ensures old(NoEmptyTail(nodes, layout.chains[h])
              && (all != [] || nodes[cl0].buf.last < |nodes[cl0].buf.data|)) ==>
                NoEmptyTail(nodes, layout.chains[h])
    {
      ghost var base, refs := Payload(nodes, layout.chains[h]), layout.refs[h];
      ghost var tidy := NoEmptyTail(nodes, layout.chains[h])
          && (all != [] || nodes[cl0].buf.last < |nodes[cl0].buf.data|);
      var cl, j: nat, p: nat, done := cl0, 0, 0, false;
      ghost var copied: seq<byte> := [];
      assert Rest(input, 0, 0) == all by {
        assert input[0][0..] == input[0];
      }
      assert base + [] == base;
      while !done
        invariant Valid() && Open(h, cl) && h in layout.refs && layout.refs[h] == refs
        invariant OthersKept(nodes0, l0, nodes, layout, h)
        invariant Payload(nodes, layout.chains[h]) == base + copied
        invariant !done ==> j < |input| && p <= |input[j]| && all == copied + Rest(input, j, p)
        invariant done ==> all == copied
        invariant tidy ==> NoEmptyTail(nodes, layout.chains[h])
        invariant tidy && !done ==> Rest(input, j, p) != [] || nodes[cl].buf.last < |nodes[cl].buf.data|
        decreases !done, if done then 0 else |Rest(input, j, p)|
      {
        ghost var more;
        cl, j, p, done, more := AppendRound(h, cl, input, j, p, nodes0, l0);
        Assoc(base, copied, more);
        if !done {
          Assoc(copied, more, Rest(input, j, p));
        }
        copied := copied + more;
      }
    }

    /** One buffer's worth of input, as part of a run that started from `nodes0` and `l0`. */
    method AppendRound(h: nat, cl0: nat, input: seq<seq<byte>>, j0: nat, p0: nat, ghost nodes0: seq<Node>,
                       ghost l0: Layout)
      returns (cl: nat, j: nat, p: nat, done: bool, ghost more: seq<byte>)
      requires Valid() && chunkSize > 0 && Open(h, cl0) && j0 < |input| && p0 <= |input[j0]|
      requires OthersKept(nodes0, l0, nodes, layout, h)
      modifies this
      ensures Valid() && Open(h, cl) && h in layout.refs && h in old(layout).refs
              && layout.refs[h] == old(layout).refs[h]
      ensures OthersKept(nodes0, l0, nodes, layout, h)
      ensures Payload(nodes, layout.chains[h]) == old(Payload(nodes, layout.chains[h])) + more
      ensures done ==> Rest(input, j0, p0) == more
      ensures !done ==> j < |input| && p < |input[j]| && Rest(input, j0, p0) == more + Rest(input, j, p) && more != []
      ensures old(NoEmptyTail(nodes, layout.chains[h]))
              && (Rest(input, j0, p0) != [] || old(nodes[cl0].buf.last < |nodes[cl0].buf.data|)) ==>
                NoEmptyTail(nodes, layout.chains[h])
    {
      ghost var nodes1, l1 := nodes, layout;
      cl := MakeRoom(h, cl0);
      OthersTwice(nodes0, l0, nodes1, l1, nodes, layout, h);
      nodes1, l1 := nodes, layout;
      j, p, done, more := FillLast(h, cl, input, j0, p0);
      OthersTwice(nodes0, l0, nodes1, l1, nodes, layout, h);
    }

    /** A new chain of one empty buffer. */
    method StartChain() returns (h: nat)
      requires Valid() && chunkSize > 0
      modifies this
      ensures Valid() && Open(h, h) && h !in old(layout).chains && h in layout.refs && layout.refs[h] == 1
      ensures layout.chains[h] == [h] && Payload(nodes, layout.chains[h]) == []
      ensures nodes[h].buf.last < |nodes[h].buf.data|
      ensures OthersKept(old(nodes), old(layout), nodes, layout, h)
    {
      ghost var nodes0, l0, home0 := nodes, layout, home;
      h := AllocSharedBuf();
      NewBufIsNew(l0, home0, h);
      assert Known(h);
      StartOthers(nodes0, l0, home0, nodes, layout, h);
      assert SameBufs(nodes, nodes, []) && [] + [h] == [h];
      ExtendedPayload(nodes, nodes, [], h);
    }
  }

  lemma OthersSelf(nodes: seq<Node>, l: Layout, home: seq<Home>, h: int)
    requires LayoutOk(l, home) && |home| == |nodes|
    ensures OthersKept(nodes, l, nodes, l, h)
  {
    forall c: int | Known(c) && c in l.chains ensures c in l.refs && SameBufs(nodes, nodes, l.chains[c]) {
      forall i | 0 <= i < |l.chains[c]| ensures l.chains[c][i] < |nodes| {
        assert Slot(c, i);
      }
    }
  }

  lemma StartOthers(nodes0: seq<Node>, l0: Layout, home0: seq<Home>, nodes: seq<Node>, l: Layout, h: nat)
    requires LayoutOk(l0, home0) && |home0| == |nodes0| <= |nodes| && h == AllocatedId(l0, |home0|)
             && l == Allocated(l0, |home0|)
    requires forall k :: 0 <= k < |nodes0| && k != h ==> nodes[k] == nodes0[k]
    ensures OthersKept(nodes0, l0, nodes, l, h)
  {
    NewBufIsNew(l0, home0, h);
    forall c: int | Known(c) && c in l0.chains ensures c in l0.refs && SameBufs(nodes0, nodes, l0.chains[c]) {
      forall j | 0 <= j < |l0.chains[c]| ensures l0.chains[c][j] < |nodes0| && l0.chains[c][j] != h {
        assert Slot(c, j);
      }
    }
  }

  lemma FilledShape(nodes: seq<Node>, nodes': seq<Node>, ids: seq<nat>, cl: nat, b: Buf, capacity: nat)
    requires Packed(nodes, ids, capacity) && ids != [] && cl == ids[|ids| - 1] < |nodes| && cl !in ids[..|ids| - 1]
    requires nodes' == nodes[cl := nodes[cl].(buf := b)] && b.pos == MAX_CHUNK_HEADER <= b.last
    ensures Packed(nodes', ids, capacity)
    ensures NoEmptyTail(nodes, ids[..|ids| - 1]) && (b.last > MAX_CHUNK_HEADER || |ids| == 1) ==>
              NoEmptyTail(nodes', ids)
  {
    var front := ids[..|ids| - 1];
    assert forall i :: 0 <= i < |front| ==> ids[i] == front[i] && ids[i] != cl;
  }

  /** A new empty buffer adds nothing to the payload. */
  lemma ExtendedPayload(nodes: seq<Node>, nodes': seq<Node>, ids: seq<nat>, id: nat)
    requires SameBufs(nodes, nodes', ids) && id < |nodes'|
             && nodes'[id].buf.pos == nodes'[id].buf.last <= |nodes'[id].buf.data|
    ensures Payload(nodes', ids + [id]) == Payload(nodes, ids)
  {
    PayloadKept(nodes, nodes', ids);
    GatherSnoc(BufsOf(nodes'), ids, id);
    assert nodes'[id].buf.Live() == [];
  }

  lemma ExtendedShape(nodes: seq<Node>, nodes': seq<Node>, ids: seq<nat>, id: nat, capacity: nat)
    requires SameBufs(nodes, nodes', ids) && Packed(nodes, ids, capacity) && ids != []
    requires nodes[ids[|ids| - 1]].buf.last == capacity
    requires id < |nodes'| && nodes'[id].buf.pos == nodes'[id].buf.last == MAX_CHUNK_HEADER
    ensures Packed(nodes', ids + [id], capacity) && (ids + [id])[..|ids + [id]| - 1] == ids
    ensures NoEmptyTail(nodes, ids) ==> NoEmptyTail(nodes', ids)
  {
  }

  lemma FilledPayload(nodes: seq<Node>, nodes': seq<Node>, l: Layout, home: seq<Home>, h: nat, cl: nat, b: Buf,
                      copied: seq<byte>)
    requires LayoutOk(l, home) && |home| == |nodes| && h in l.chains && l.chains[h] != []
    requires cl == l.chains[h][|l.chains[h]| - 1] < |nodes| && nodes' == nodes[cl := nodes[cl].(buf := b)]
    requires Added(nodes[cl].buf, b, copied)
    ensures Payload(nodes', l.chains[h]) == Payload(nodes, l.chains[h]) + copied
    ensures cl !in l.chains[h][..|l.chains[h]| - 1]
  {
    var ids := l.chains[h];
    forall i | 0 <= i < |ids| ensures ids[i] < |nodes| && (i < |ids| - 1 ==> ids[i] != cl) {
      assert Slot(h, i) && Slot(h, |ids| - 1);
    }
    PayloadGrows(nodes, nodes', ids, cl, b, copied);
  }

  lemma OthersTwice(nodes0: seq<Node>, l0: Layout, nodes1: seq<Node>, l1: Layout, nodes2: seq<Node>, l2: Layout, h: int)
    requires OthersKept(nodes0, l0, nodes1, l1, h) && OthersKept(nodes1, l1, nodes2, l2, h)
    ensures OthersKept(nodes0, l0, nodes2, l2, h)
  {
  }

  lemma SetBufSpells(nodes: seq<Node>, free: int, l: Layout, capacity: nat, k: nat, b: Buf)
    requires Spells(nodes, free, l, capacity) && k < |nodes| && b.Valid(capacity)
    ensures Spells(nodes[k := nodes[k].(buf := b)], free, l, capacity)
  {
  }

  lemma SetBufOthers(nodes: seq<Node>, l: Layout, home: seq<Home>, h: nat, i: nat, b: Buf)
    requires LayoutOk(l, home) && |home| == |nodes| && h in l.chains && i < |l.chains[h]| && l.chains[h][i] < |nodes|
    ensures var k := l.chains[h][i]; OthersKept(nodes, l, nodes[k := nodes[k].(buf := b)], l, h)
  {
    var k := l.chains[h][i];
    var nodes' := nodes[k := nodes[k].(buf := b)];
    forall c: int | Known(c) && c in l.chains && c != h ensures c in l.refs && SameBufs(nodes, nodes', l.chains[c]) {
      forall j | 0 <= j < |l.chains[c]| ensures l.chains[c][j] < |nodes| && l.chains[c][j] != k {
        assert Slot(c, j) && Slot(h, i);
      }
    }
  }

  /** The buffer an allocation returns is in no chain. */
  lemma NewBufIsNew(l: Layout, home: seq<Home>, id: nat)
    requires LayoutOk(l, home) && id == AllocatedId(l, |home|)
    ensures forall c: int, i: int {:trigger Slot(c, i)} :: Slot(c, i) && c in l.chains && 0 <= i < |l.chains[c]| ==>
              l.chains[c][i] != id && l.chains[c][i] < |home|
    ensures id !in l.chains
  {
    NotAChain(l, home, id);
    assert Slot(FREE, 0);
  }

  /** What the layout looks like once a new buffer has joined chain `h`. */
  lemma ExtendLayout(l: Layout, home: seq<Home>, h: nat)
    requires LayoutOk(l, home) && h in l.chains
    ensures var id := AllocatedId(l, |home|);
            var l1 := Allocated(l, |home|);
            && h != id && h in l1.chains && id in l1.chains && id in l1.refs && h in l1.refs && h in l.refs
            && l1.chains[id] == [id] && l1.chains[h] == l.chains[h] && id !in l.chains[h]
            && Joined(l1, h, id).chains[h] == l.chains[h] + [id] && Joined(l1, h, id).refs[h] == l.refs[h]
  {
    var id := AllocatedId(l, |home|);
    NewBufIsNew(l, home, id);
    assert Known(h);
    forall i | 0 <= i < |l.chains[h]| ensures l.chains[h][i] != id {
      assert Slot(h, i);
    }
  }

  lemma JoinSpells(nodes: seq<Node>, free: int, l: Layout, home: seq<Home>, capacity: nat, h: nat, id: nat, cl: nat)
    requires LayoutOk(l, home) && |home| == |nodes| && Spells(nodes, free, l, capacity)
    requires h in l.chains && id in l.chains && id in l.refs && h != id && l.chains[id] == [id] && l.chains[h] != []
    requires cl == l.chains[h][|l.chains[h]| - 1] < |nodes|
    ensures Spells(nodes[cl := nodes[cl].(next := id)], free, Joined(l, h, id), capacity)
  {
    var l', nodes', n := Joined(l, h, id), nodes[cl := nodes[cl].(next := id)], |l.chains[h]|;
    assert Known(h) && Known(id) && Slot(h, n - 1);
    forall c: int, i: int | Slot(c, i) ensures LinkOk(nodes', l', c, i) {
      JoinLink(nodes, free, l, home, capacity, h, id, cl, c, i);
    }
    forall k: int | Known(k) ensures NodeOk(nodes', l', capacity, k) {
    }
  }

  /** Place `i` of list `c` after the chain of one `id` has been hooked to chain `h`, which ended in `cl`. */
  lemma JoinLink(nodes: seq<Node>, free: int, l: Layout, home: seq<Home>, capacity: nat, h: nat, id: nat, cl: nat,
                 c: int, i: int)
    requires LayoutOk(l, home) && |home| == |nodes| && Spells(nodes, free, l, capacity)
    requires h in l.chains && id in l.chains && id in l.refs && h != id && l.chains[id] == [id] && l.chains[h] != []
    requires cl == l.chains[h][|l.chains[h]| - 1] < |nodes|
    ensures LinkOk(nodes[cl := nodes[cl].(next := id)], Joined(l, h, id), c, i)
  {
    var n := |l.chains[h]|;
    assert Slot(c, i) && Slot(h, n - 1) && Slot(id, 0);
    if c == h {
      assert ListOf(Joined(l, h, id), c) == l.chains[h] + [id];
    } else if c != id {
      assert ListOf(Joined(l, h, id), c) == ListOf(l, c);
    }
  }

  lemma ExtendOthers(nodes0: seq<Node>, l0: Layout, home0: seq<Home>, nodes: seq<Node>, l: Layout, h: nat, id: nat)
    requires LayoutOk(l0, home0) && |home0| == |nodes0| <= |nodes| && h in l0.chains && id == AllocatedId(l0, |home0|)
             && h != id
    requires id in Allocated(l0, |home0|).chains && l == Joined(Allocated(l0, |home0|), h, id)
    requires forall k :: 0 <= k < |nodes0| && k != id ==> nodes[k].buf == nodes0[k].buf
    ensures OthersKept(nodes0, l0, nodes, l, h) && SameBufs(nodes0, nodes, l0.chains[h])
  {
    NewBufIsNew(l0, home0, id);
    forall c: int | Known(c) && c in l0.chains ensures SameBufs(nodes0, nodes, l0.chains[c]) {
      forall j | 0 <= j < |l0.chains[c]| ensures l0.chains[c][j] < |nodes0| && l0.chains[c][j] != id {
        assert Slot(c, j);
      }
    }
    assert Known(h);
  }

  /** Memory after a change of one reference count. */
  lemma CountSpells(nodes: seq<Node>, free: int, l: Layout, l': Layout, capacity: nat, h: nat, count: uint32)
    requires Spells(nodes, free, l, capacity) && h < |nodes| && h in l.refs
    requires l' == l.(refs := l.refs[h := count])
    ensures Spells(nodes[h := nodes[h].(ref := count)], free, l', capacity)
  {
    var nodes' := nodes[h := nodes[h].(ref := count)];
    forall c: int, i: int | Slot(c, i) ensures LinkOk(nodes', l', c, i) {
      assert ListOf(l', c) == ListOf(l, c);
    }
    assert Known(h);
  }

  /** Memory after the last holder of `h` has let go and the end `cl` of its chain points to the old free list. */
  lemma ReleaseSpells(nodes: seq<Node>, free: int, l: Layout, capacity: nat, h: nat, home: seq<Home>, cl: nat)
    requires LayoutOk(l, home) && |home| == |nodes| && Spells(nodes, free, l, capacity)
    requires h in l.chains && h < |nodes| && l.refs[h] == 1 && l.chains[h] != []
             && cl == l.chains[h][|l.chains[h]| - 1] < |nodes|
    ensures var nodes1 := nodes[h := nodes[h].(ref := 0)];
            Spells(nodes1[cl := nodes1[cl].(next := free)], h, Released(l, h), capacity)
  {
    var l', n := Released(l, h), |l.chains[h]|;
    var nodes1 := nodes[h := nodes[h].(ref := 0)];
    var nodes' := nodes1[cl := nodes1[cl].(next := free)];
    assert Known(h) && Known(cl) && Slot(h, n - 1);
    forall c: int, i: int | Slot(c, i) ensures LinkOk(nodes', l', c, i) {
      assert Slot(h, i) && Slot(FREE, i - n);
    }
    forall k: int | Known(k) ensures NodeOk(nodes', l', capacity, k) {
    }
  }

  lemma AllocSpells(nodes: seq<Node>, nodes': seq<Node>, l: Layout, capacity: nat, id: nat)
    requires Spells(nodes, if l.free == [] then NULL else l.free[0], l, capacity)
    requires id == AllocatedId(l, |nodes|) && id < |nodes'| && id !in l.chains && |nodes'| >= |nodes|
    requires l.free == [] ==> |nodes'| == |nodes| + 1
    requires l.free != [] ==> |nodes'| == |nodes|
    requires nodes'[id].next == NULL && nodes'[id].ref == 1 && nodes'[id].buf.Valid(capacity)
    requires forall k :: 0 <= k < |nodes| && k != id ==> nodes'[k] == nodes[k]
    requires forall c: int, i: int {:trigger Slot(c, i)} :: Slot(c, i) && 0 <= i < |ListOf(l, c)| ==>
               (ListOf(l, c)[i] == id <==> l.free != [] && c == FREE && i == 0)
    ensures Spells(nodes', if |l.free| <= 1 then NULL else l.free[1], Allocated(l, |nodes|), capacity)
  {
    var l' := Allocated(l, |nodes|);
    forall c: int, i: int | Slot(c, i) ensures LinkOk(nodes', l', c, i) {
      assert Slot(c, if c == FREE then i + 1 else i);
    }
  }
}
