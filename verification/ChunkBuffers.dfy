/**
  * The receiver's buffer lists.  A buffer is named by its index in the store; list 0 holds the buffers free
  * for reuse (the next one first) and list c > 0 the buffers of the unfinished message of chunk stream c
  * (the newest last).  Every buffer sits in exactly one place of one list.
  */
module ChunkBuffers {
  import opened Bytes

  /** A buffer of `|data|` bytes whose live part is `data[pos..last]`. */
  datatype Buf = Buf(pos: nat, last: nat, data: seq<byte>) {
    ghost predicate Valid(capacity: nat) {
      pos <= last <= |data| == capacity
    }

    function Live(): seq<byte> {
      if pos <= last <= |data| then data[pos..last] else []
    }
  }

  ghost predicate BufferOk(capacity: nat, bufs: seq<Buf>, chains: seq<seq<nat>>, home: seq<Home>, k: int)
    requires |home| == |bufs|
  {
    0 <= k < |bufs| ==>
      && bufs[k].Valid(capacity)
      && 0 <= home[k].list < |chains| && home[k].place < |chains[home[k].list]|
      && chains[home[k].list][home[k].place] == k
  }

  ghost predicate SlotOk(bufs: seq<Buf>, chains: seq<seq<nat>>, home: seq<Home>, c: int, i: int)
    requires |home| == |bufs|
  {
    0 <= c < |chains| && 0 <= i < |chains[c]| ==> chains[c][i] < |bufs| && home[chains[c][i]] == Home(c, i)
  }

  /** Every buffer is in the list and place its home says, and every place is the home of the buffer there. */
  ghost predicate Owned(capacity: nat, bufs: seq<Buf>, chains: seq<seq<nat>>, home: seq<Home>) {
    && |home| == |bufs|
    && (forall k: int {:trigger Known(k)} :: Known(k) ==> BufferOk(capacity, bufs, chains, home, k))
    && (forall c: int, i: int {:trigger Slot(c, i)} :: Slot(c, i) ==> SlotOk(bufs, chains, home, c, i))
  }

  /** The live bytes of the listed buffers, in order. */
  ghost function Gather(bufs: seq<Buf>, ids: seq<nat>): seq<byte> {
    if ids == [] then [] else (if ids[0] < |bufs| then bufs[ids[0]].Live() else []) + Gather(bufs, ids[1..])
  }

  lemma {:induction false} GatherSnoc(bufs: seq<Buf>, ids: seq<nat>, k: nat)
    requires k < |bufs|
    ensures Gather(bufs, ids + [k]) == Gather(bufs, ids) + bufs[k].Live()
  {
    if ids == [] {
      assert ids + [k] == [k];
      assert Gather(bufs, [k]) == bufs[k].Live() + Gather(bufs, []);
    } else {
      assert (ids + [k])[1..] == ids[1..] + [k];
      GatherSnoc(bufs, ids[1..], k);
    }
  }

  /** Gathering reads only the listed buffers. */
  lemma {:induction false} GatherFrame(bufs: seq<Buf>, bufs': seq<Buf>, ids: seq<nat>)
    requires forall i :: 0 <= i < |ids| ==> ids[i] < |bufs| && ids[i] < |bufs'| && bufs'[ids[i]] == bufs[ids[i]]
    ensures Gather(bufs', ids) == Gather(bufs, ids)
  {
    if ids != [] {
      GatherFrame(bufs, bufs', ids[1..]);
    }
  }

  /** The homes after the head of list 0 has moved to the end of list `c`. */
  ghost function LinkedHomes(chains: seq<seq<nat>>, home: seq<Home>, c: nat): seq<Home>
    requires 0 < c < |chains| && chains[0] != []
  {
    seq(|home|, k requires 0 <= k < |home| =>
      if k == chains[0][0] then Home(c, |chains[c]|)
      else if home[k].list == 0 && home[k].place > 0 then Home(0, home[k].place - 1)
      else home[k])
  }

  function Linked(chains: seq<seq<nat>>, c: nat): seq<seq<nat>>
    requires 0 < c < |chains| && chains[0] != []
  {
    chains[0 := chains[0][1..]][c := chains[c] + [chains[0][0]]]
  }

  /** List `c` has the orphan at its end, and only list 0 has changed besides. */
  lemma LinkedLists(chains: seq<seq<nat>>, c: nat)
    requires 0 < c < |chains| && chains[0] != []
    ensures var l := Linked(chains, c)[c];
            l != [] && l[|l| - 1] == chains[0][0] && l[..|l| - 1] == chains[c]
    ensures forall d :: 0 < d < |chains| && d != c ==> Linked(chains, c)[d] == chains[d]
  {
  }

  lemma LinkKeepsOwned(capacity: nat, bufs: seq<Buf>, chains: seq<seq<nat>>, home: seq<Home>, c: nat)
    requires Owned(capacity, bufs, chains, home)
    requires 0 < c < |chains| && chains[0] != []
    ensures Owned(capacity, bufs, Linked(chains, c), LinkedHomes(chains, home, c))
  {
    var chains' := Linked(chains, c);
    var home' := LinkedHomes(chains, home, c);
    assert Slot(0, 0);
    forall k: int | Known(k) ensures BufferOk(capacity, bufs, chains', home', k) {
    }
    forall d: int, i: int | Slot(d, i) ensures SlotOk(bufs, chains', home', d, i) {
      assert Slot(d, if d == 0 then i + 1 else i);
    }
  }

  /** The homes after list `c` has been put in front of list 0. */
  ghost function RecycledHomes(chains: seq<seq<nat>>, home: seq<Home>, c: nat): seq<Home>
    requires 0 < c < |chains|
  {
    seq(|home|, k requires 0 <= k < |home| =>
      if home[k].list == c then Home(0, home[k].place)
      else if home[k].list == 0 then Home(0, home[k].place + |chains[c]|)
      else home[k])
  }

  function Recycled(chains: seq<seq<nat>>, c: nat): seq<seq<nat>>
    requires 0 < c < |chains|
  {
    chains[0 := chains[c] + chains[0]][c := []]
  }

  lemma RecycleKeepsOwned(capacity: nat, bufs: seq<Buf>, chains: seq<seq<nat>>, home: seq<Home>, c: nat)
    requires Owned(capacity, bufs, chains, home)
    requires 0 < c < |chains|
    ensures Owned(capacity, bufs, Recycled(chains, c), RecycledHomes(chains, home, c))
  {
    var chains' := Recycled(chains, c);
    var home' := RecycledHomes(chains, home, c);
    forall d: int, i: int | Slot(d, i) ensures SlotOk(bufs, chains', home', d, i) {
      assert Slot(c, i) && Slot(0, i - |chains[c]|);
    }
  }

  /** A fresh buffer becomes the only free one. */
  lemma AllocKeepsOwned(capacity: nat, bufs: seq<Buf>, chains: seq<seq<nat>>, home: seq<Home>, b: Buf)
    requires Owned(capacity, bufs, chains, home)
    requires |chains| > 0 && chains[0] == [] && b.Valid(capacity)
    ensures Owned(capacity, bufs + [b], chains[0 := [|bufs|]], home + [Home(0, 0)])
  {
  }

  lemma StoreKeepsOwned(capacity: nat, bufs: seq<Buf>, chains: seq<seq<nat>>, home: seq<Home>, id: nat, b: Buf)
    requires Owned(capacity, bufs, chains, home)
    requires id < |bufs| && b.Valid(capacity)
    ensures Owned(capacity, bufs[id := b], chains, home)
  {
  }

  /** A buffer is in no other place of any list. */
  lemma OnePlace(capacity: nat, bufs: seq<Buf>, chains: seq<seq<nat>>, home: seq<Home>, c: nat, i: nat, d: nat, j: nat)
    requires Owned(capacity, bufs, chains, home)
    requires c < |chains| && i < |chains[c]| && d < |chains| && j < |chains[d]|
    requires c != d || i != j
    ensures chains[c][i] != chains[d][j] && chains[c][i] < |bufs|
  {
    assert Slot(c, i) && Slot(d, j);
  }

  lemma InStore(capacity: nat, bufs: seq<Buf>, chains: seq<seq<nat>>, home: seq<Home>, c: nat, i: nat)
    requires Owned(capacity, bufs, chains, home)
    requires c < |chains| && i < |chains[c]|
    ensures chains[c][i] < |bufs| && bufs[chains[c][i]].Valid(capacity)
  {
    assert Slot(c, i) && Known(chains[c][i]);
  }
}
