/**
  * Shared output buffers seen as lists: the free list, and the live chains with their reference counts.
  * Buffers are named by their index; a chain is named by its first buffer.
  */
module SharedLayout {
  import opened Bytes

  const FREE: int := -1
  const NULL: int := -1

  datatype Layout = Layout(free: seq<nat>, chains: map<nat, seq<nat>>, refs: map<nat, nat>)

  /** The free list for FREE, otherwise the chain of that name. */
  ghost function ListOf(l: Layout, c: int): seq<nat> {
    if c == FREE then l.free else if c in l.chains then l.chains[c] else []
  }

  ghost predicate HomeOk(l: Layout, home: seq<Home>, k: int) {
    0 <= k < |home| ==>
      && home[k].place < |ListOf(l, home[k].list)| && ListOf(l, home[k].list)[home[k].place] == k
  }

  ghost predicate SlotOk(l: Layout, home: seq<Home>, c: int, i: int) {
    0 <= i < |ListOf(l, c)| ==> ListOf(l, c)[i] < |home| && home[ListOf(l, c)[i]] == Home(c, i)
  }

  /** Every one of the |home| buffers is in exactly one place of exactly one list. */
  ghost predicate Partitioned(l: Layout, home: seq<Home>) {
    && (forall k: int {:trigger Known(k)} :: Known(k) ==> HomeOk(l, home, k))
    && (forall c: int, i: int {:trigger Slot(c, i)} :: Slot(c, i) ==> SlotOk(l, home, c, i))
  }

  /** A chain is named by its first buffer and is referenced. */
  ghost predicate Counted(l: Layout) {
    && l.refs.Keys == l.chains.Keys
    && (forall h: int {:trigger Known(h)} :: Known(h) && h in l.chains ==>
          h >= 0 && l.chains[h] != [] && l.chains[h][0] == h && l.refs[h] > 0)
  }

  ghost predicate LayoutOk(l: Layout, home: seq<Home>) {
    Partitioned(l, home) && Counted(l)
  }

  // ----- The four operations

  /** A buffer for a new chain of one: the first free one, or a new one numbered `n`. */
  function AllocatedId(l: Layout, n: nat): nat {
    if l.free != [] then l.free[0] else n
  }

  function Allocated(l: Layout, n: nat): Layout {
    var id := AllocatedId(l, n);
    Layout(if l.free != [] then l.free[1..] else [], l.chains[id := [id]], l.refs[id := 1])
  }

  function Acquired(l: Layout, h: nat): Layout
    requires h in l.refs
  {
    l.(refs := l.refs[h := l.refs[h] + 1])
  }

  /** One reference less; with the last one the whole chain goes to the front of the free list. */
  function Released(l: Layout, h: nat): Layout
    requires h in l.refs && h in l.chains
  {
    if l.refs[h] > 1 then l.(refs := l.refs[h := l.refs[h] - 1])
    else Layout(l.chains[h] + l.free, l.chains - {h}, l.refs - {h})
  }

  /** The chain of one `id` is hooked to the end of chain `h`. */
  function Joined(l: Layout, h: nat, id: nat): Layout
    requires h in l.chains && id in l.chains && id in l.refs && h != id
  {
    Layout(l.free, l.chains[h := l.chains[h] + l.chains[id]] - {id}, l.refs - {id})
  }

  /** A new buffer, out of `n`, is hooked to the end of chain `h`. */
  ghost function Grown(l: Layout, n: nat, h: nat): Layout {
    var id := AllocatedId(l, n);
    var m := Allocated(l, n);
    if h in m.chains && h != id then Joined(m, h, id) else l
  }

  // ----- Each keeps every buffer in exactly one place

  ghost function AllocatedHomes(l: Layout, home: seq<Home>): seq<Home> {
    if l.free == [] then home + [Home(|home|, 0)]
    else
      seq(|home|, k requires 0 <= k < |home| =>
        if k == l.free[0] then Home(k, 0)
        else if home[k].list == FREE && home[k].place > 0 then Home(FREE, home[k].place - 1)
        else home[k])
  }

  lemma NotAChain(l: Layout, home: seq<Home>, id: nat)
    requires LayoutOk(l, home) && (id == |home| || (l.free != [] && id == l.free[0]))
    ensures id !in l.chains && (l.free != [] && id == l.free[0] ==> id < |home|)
  {
    assert Slot(FREE, 0);
    if id in l.chains {
      assert Known(id) && Slot(id, 0);
    }
  }

  lemma AllocKeeps(l: Layout, home: seq<Home>)
    requires LayoutOk(l, home)
    ensures LayoutOk(Allocated(l, |home|), AllocatedHomes(l, home))
  {
    var id := AllocatedId(l, |home|);
    var l', home' := Allocated(l, |home|), AllocatedHomes(l, home);
    NotAChain(l, home, id);
    assert Slot(FREE, 0);
    forall k: int | Known(k) ensures HomeOk(l', home', k) {
    }
    forall c: int, i: int | Slot(c, i) ensures SlotOk(l', home', c, i) {
      assert Slot(c, if c == FREE then i + 1 else i);
    }
  }

  lemma AcquireKeeps(l: Layout, home: seq<Home>, h: nat)
    requires LayoutOk(l, home) && h in l.refs
    ensures LayoutOk(Acquired(l, h), home)
  {
    assert forall c :: ListOf(Acquired(l, h), c) == ListOf(l, c);
  }

  ghost function ReleasedHomes(l: Layout, home: seq<Home>, h: nat): seq<Home>
    requires h in l.refs && h in l.chains
  {
    if l.refs[h] > 1 then home
    else
      seq(|home|, k requires 0 <= k < |home| =>
        if home[k].list == h then Home(FREE, home[k].place)
        else if home[k].list == FREE then Home(FREE, home[k].place + |l.chains[h]|)
        else home[k])
  }

  lemma ReleaseKeeps(l: Layout, home: seq<Home>, h: nat)
    requires LayoutOk(l, home) && h in l.refs && l.refs[h] > 0
    ensures LayoutOk(Released(l, h), ReleasedHomes(l, home, h))
  {
    var l', home' := Released(l, h), ReleasedHomes(l, home, h);
    if l.refs[h] > 1 {
      assert forall c :: ListOf(l', c) == ListOf(l, c);
    } else {
      var n := |l.chains[h]|;
      forall k: int | Known(k) ensures HomeOk(l', home', k) {
      }
      forall c: int, i: int | Slot(c, i) ensures SlotOk(l', home', c, i) {
        assert Slot(h, i) && Slot(FREE, i - n);
      }
    }
  }

  ghost function JoinedHomes(l: Layout, home: seq<Home>, h: nat, id: nat): seq<Home>
    requires h in l.chains && id in l.chains
  {
    seq(|home|, k requires 0 <= k < |home| =>
      if home[k].list == id then Home(h, home[k].place + |l.chains[h]|) else home[k])
  }

  lemma JoinKeeps(l: Layout, home: seq<Home>, h: nat, id: nat)
    requires LayoutOk(l, home) && h in l.chains && id in l.chains && h != id
    ensures LayoutOk(Joined(l, h, id), JoinedHomes(l, home, h, id))
  {
    var l', home' := Joined(l, h, id), JoinedHomes(l, home, h, id);
    var n := |l.chains[h]|;
    assert Known(h) && Known(id);
    forall k: int | Known(k) ensures HomeOk(l', home', k) {
    }
    forall c: int, i: int | Slot(c, i) ensures SlotOk(l', home', c, i) {
      assert Slot(id, i - n) && Slot(h, i);
    }
  }
}
