/**
  * ngx_rtmp_amf.c over chains of buffers of any sizes: getting and putting bytes, and the recursive reader and
  * writer on top of them, proved equal to the reader and writer on flat bytes.
  */
module AmfChain {
  import opened Bytes
  import opened Amf
  import opened AmfRoundTrip

  /** What is left of a chain from byte `offset` of buffer `link` on. */
  function RestOf(chain: seq<seq<byte>>, link: nat, offset: nat): seq<byte> {
    if link < |chain| && offset <= |chain[link]| then chain[link][offset..] + Concat(chain[link + 1..]) else []
  }

  lemma RestNext(chain: seq<seq<byte>>, link: nat, offset: nat)
    requires link < |chain| && offset <= |chain[link]|
    ensures RestOf(chain, link, offset) == chain[link][offset..] + RestOf(chain, link + 1, 0)
  {
    if link + 1 < |chain| {
      assert chain[link + 1..][0] == chain[link + 1] && chain[link + 1..][1..] == chain[link + 2..];
      assert chain[link + 1][0..] == chain[link + 1];
    } else {
      assert chain[link + 1..] == [];
    }
  }

  lemma SplitFront(b: seq<byte>, i: nat, n: nat, x: seq<byte>)
    requires i + n <= |b|
    ensures b[i..] + x == b[i..i + n] + (b[i + n..] + x)
  {
    assert b[i..] == b[i..i + n] + b[i + n..];
  }

  lemma RestSplit(chain: seq<seq<byte>>, link: nat, offset: nat, n: nat)
    requires link < |chain| && offset + n <= |chain[link]|
    ensures RestOf(chain, link, offset) == chain[link][offset..offset + n] + RestOf(chain, link, offset + n)
  {
    SplitFront(chain[link], offset, n, Concat(chain[link + 1..]));
  }

  /** `s` is `taken` followed by `rest`. */
  lemma Cut(s: seq<byte>, taken: seq<byte>, rest: seq<byte>)
    requires s == taken + rest
    ensures s[..|taken|] == taken && s[|taken|..] == rest
  {
  }

  /** `got` has been taken off the front of `all`; the chain goes on at byte `off` of buffer `l`. */
  ghost predicate Taken(chain: seq<seq<byte>>, l: nat, off: nat, got: seq<byte>, all: seq<byte>) {
    forall k: int {:trigger Unfold(k)} :: Unfold(k) ==> all == got + RestOf(chain, l, off)
  }

  lemma TakeNone(chain: seq<seq<byte>>, l: nat, off: nat)
    ensures Taken(chain, l, off, [], RestOf(chain, l, off))
  {
  }

  lemma TakeWhole(chain: seq<seq<byte>>, l: nat, off: nat, got: seq<byte>, all: seq<byte>)
    requires l < |chain| && off <= |chain[l]| && Taken(chain, l, off, got, all)
    ensures Taken(chain, l + 1, 0, got + chain[l][off..], all)
  {
    assert Unfold(0);
    RestNext(chain, l, off);
    Assoc(got, chain[l][off..], RestOf(chain, l + 1, 0));
  }

  lemma TakePart(chain: seq<seq<byte>>, l: nat, off: nat, got: seq<byte>, all: seq<byte>, n: nat)
    requires l < |chain| && off + n <= |chain[l]| && Taken(chain, l, off, got, all)
    ensures var bytes, rest := got + chain[l][off..off + n], RestOf(chain, l, off + n);
            |bytes| <= |all| && all[..|bytes|] == bytes && all[|bytes|..] == rest
  {
    assert Unfold(0);
    RestSplit(chain, l, off, n);
    Assoc(got, chain[l][off..off + n], RestOf(chain, l, off + n));
    Cut(all, got + chain[l][off..off + n], RestOf(chain, l, off + n));
  }

  lemma TakenAll(chain: seq<seq<byte>>, l: nat, off: nat, got: seq<byte>, all: seq<byte>)
    requires l >= |chain| && Taken(chain, l, off, got, all)
    ensures all == got
  {
    assert Unfold(0);
  }

  /** `n` bytes from wherever they are in the chain, and where the chain goes on; or nothing at all. */
  method Pull(chain: seq<seq<byte>>, link: nat, offset: nat, n: nat)
    returns (ok: bool, bytes: seq<byte>, l: nat, off: nat)
    requires link < |chain| ==> offset <= |chain[link]|
    ensures ok <==> n <= |RestOf(chain, link, offset)|
    ensures ok ==> (l < |chain| ==> off <= |chain[l]|)
    ensures ok ==>
              bytes == RestOf(chain, link, offset)[..n] && RestOf(chain, l, off) == RestOf(chain, link, offset)[n..]
  {
    l, off, bytes := link, offset, [];
    ghost var all := RestOf(chain, link, offset);
    if n == 0 {
      assert all == [] + all;
      return true, bytes, l, off;
    }
    var need: nat := n;
    TakeNone(chain, link, offset);
    while l < |chain|
      invariant need > 0 && |bytes| + need == n && (l < |chain| ==> off <= |chain[l]|)
      invariant Taken(chain, l, off, bytes, all)
      decreases |chain| - l
    {
      if |chain[l]| >= off + need {
        TakePart(chain, l, off, bytes, all, need);
        return true, bytes + chain[l][off..off + need], l, off + need;
      }
      TakeWhole(chain, l, off, bytes, all);
      bytes := bytes + chain[l][off..];
      need := need - (|chain[l]| - off);
      l, off := l + 1, 0;
    }
    TakenAll(chain, l, off, bytes, all);
    return false, [], l, off;
  }

  // The reader's results, named so that they are not unfolded where they are only passed on.

  ghost predicate GivesContent(e: Option<Elt>, data: bool, code: nat, s: seq<byte>, r: Read) {
    forall k: int {:trigger Unfold(k)} :: Unfold(k) ==> Content(e, data, code, s) == r
  }

  ghost predicate GivesVariant(e: Option<Elt>, data: bool, s: seq<byte>, r: Read) {
    forall k: int {:trigger Unfold(k)} :: Unfold(k) ==> ReadVariant(e, data, s) == r
  }

  ghost predicate GivesList(elts: seq<Elt>, s: seq<byte>, n: nat, xs: seq<Elt>, rest: seq<byte>) {
    forall k: int {:trigger Unfold(k)} :: Unfold(k) && n <= |elts| ==>
          Prepended(xs, ReadList(elts[n..], rest)) == ReadList(elts, s)
  }

  lemma VariantStep(e: Option<Elt>, data: bool, s: seq<byte>, r: Read)
    requires s != []
    requires var elts := Fields(e, data);
             var n := PickVariant(elts, s[0]);
             GivesContent(if n < |elts| then Some(elts[n]) else None, n < |elts| && elts[n].data, s[0], s[1..], r)
    ensures var elts := Fields(e, data);
            var n := PickVariant(elts, s[0]);
            GivesVariant(e, data, s,
              if r.Fail? then Fail
              else Next(if n < |elts| && r.elt.Some? then Some(e.value.(elts := elts[n := r.elt.value]))
                  else e, r.rest))
  {
    assert Unfold(0);
  }

  lemma ListNext(elts: seq<Elt>, s: seq<byte>, n: nat, xs: seq<Elt>, rest: seq<byte>)
    requires GivesList(elts, s, n, xs, rest) && n < |elts|
    ensures var r := ReadOne(Some(elts[n]), rest);
            var first := if !r.Fail? && r.elt.Some? then r.elt.value else elts[n];
            && (r.Fail? ==> ReadList(elts, s).FailAll?)
            && (r.Stop? ==> ReadList(elts, s) == Done(xs + [first] + elts[n + 1..], r.rest))
            && (r.Next? ==> GivesList(elts, s, n + 1, xs + [first], r.rest))
  {
    assert Unfold(0);
    ListStep(elts, n, rest);
    var r := ReadOne(Some(elts[n]), rest);
    if !r.Fail? {
      var first := if r.elt.Some? then r.elt.value else elts[n];
      PrependMore(xs, first, if r.Stop? then Done(elts[n + 1..], r.rest) else ReadList(elts[n + 1..], r.rest));
    }
  }

  lemma ListEnd(elts: seq<Elt>, s: seq<byte>, xs: seq<Elt>, rest: seq<byte>)
    requires GivesList(elts, s, |elts|, xs, rest)
    ensures ReadList(elts, s) == Done(xs, rest)
  {
    assert Unfold(0);
    assert elts[|elts|..] == [] && xs + [] == xs;
  }

  lemma ListBegin(elts: seq<Elt>, s: seq<byte>)
    ensures GivesList(elts, s, 0, [], s)
  {
    assert elts[0..] == elts;
    if ReadList(elts, s).Done? {
      assert [] + ReadList(elts, s).elts == ReadList(elts, s).elts;
    }
  }

  lemma Slices(s: seq<byte>, i: nat, m: nat, n: nat)
    requires m <= n && i + n <= |s|
    ensures s[i..][..m] == s[i..i + m] && s[i..][m..][n - m..] == s[i + n..] && s[i..][n..] == s[i + n..]
  {
  }

  lemma TextIs(e: Option<Elt>, data: bool, s: seq<byte>, len: nat, keep: nat)
    requires |s| >= 2 && (e.Some? && data ==> e.value.len > 0) && len == OfBe16(s[0], s[1])
    requires keep == if e.Some? && data && e.value.len <= len then e.value.len - 1 else len
    ensures |s[2..]| < len ==> Text(e, data, s) == Fail
    ensures |s[2..]| >= len ==> Text(e, data, s) == Next(Stored(e, data, s[2..][..keep]), s[2..][len..])
  {
    if 2 + len <= |s| {
      Slices(s, 2, keep, len);
    }
  }

  datatype Status = Failed | Went | Stopped

  ghost function Outcome(status: Status, e: Option<Elt>, rest: seq<byte>): Read {
    match status
    case Failed => Fail
    case Went => Next(e, rest)
    case Stopped => Stop(e, rest)
  }

  ghost function Prepended(xs: seq<Elt>, r: ReadAll): ReadAll {
    if r.FailAll? then FailAll else Done(xs + r.elts, r.rest)
  }

  lemma PrependMore(xs: seq<Elt>, x: Elt, r: ReadAll)
    ensures Prepended(xs, Prepended([x], r)) == Prepended(xs + [x], r)
  {
    if r.Done? {
      assert xs + ([x] + r.elts) == xs + [x] + r.elts;
    }
  }

  ghost function OutcomeAll(ok: bool, elts: seq<Elt>, rest: seq<byte>): ReadAll {
    if ok then Done(elts, rest) else FailAll
  }

  class Source {
    const chain: seq<seq<byte>>
    var link: nat
    var offset: nat

    ghost predicate Valid()
      reads this
    {
      link < |chain| ==> offset <= |chain[link]|
    }

    ghost function Rest(): seq<byte>
      reads this
    {
      RestOf(chain, link, offset)
    }

    constructor (chain: seq<seq<byte>>)
      ensures Valid() && Rest() == Concat(chain)
    {
      this.chain := chain;
      link, offset := 0, 0;
      if chain != [] {
        assert chain[0][0..] == chain[0];
      }
    }

    /** ngx_rtmp_amf_get: the cursor moves past the bytes, or stays. */
    method Get(n: nat) returns (ok: bool, bytes: seq<byte>)
      requires Valid()
      modifies this
      ensures Valid()
      ensures ok <==> n <= |old(Rest())|
      ensures ok ==> bytes == old(Rest())[..n] && Rest() == old(Rest())[n..]
      ensures !ok ==> Rest() == old(Rest())
    {
      var l, off;
      ok, bytes, l, off := Pull(chain, link, offset, n);
      if ok {
        link, offset := l, off;
      }
    }

    /** `n` bytes in two parts, of which only the first is kept. */
    method GetFront(m: nat, n: nat) returns (ok: bool, bytes: seq<byte>)
      requires Valid() && m <= n
      modifies this
      ensures Valid() && (ok <==> n <= |old(Rest())|)
      ensures ok ==> bytes == old(Rest())[..m] && Rest() == old(Rest())[n..]
    {
      ghost var s := Rest();
      ok, bytes := Get(m);
      if ok {
        var more, _ := Get(n - m);
        ok := more;
        assert ok ==> s[m..][n - m..] == s[n..];
      }
    }

    /** ngx_rtmp_amf_read for one element, with or without a descriptor. */
    method ReadElt(e: Option<Elt>) returns (status: Status, x: Option<Elt>)
      requires Valid()
      modifies this
      ensures Valid() && Outcome(status, x, Rest()) == ReadOne(e, old(Rest()))
      decreases |Rest()|, 3, 0
    {
      if e.Some? && e.value.typeless {
        if e.value.optional || e.value.context {
          return Failed, e;
        }
        status, x := ReadContent(e, e.value.data, e.value.code);
        assert Unfold(0);
        return;
      }
      var ok, code8 := Get(1);
      if !ok {
        return if e.Some? && e.value.optional then Stopped else Failed, e;
      }
      var data := e.Some? && e.value.data && Compatible(e.value.code % 256, code8[0]) && !e.value.context;
      status, x := ReadContent(e, data, code8[0]);
      assert Unfold(0);
    }

    method ReadContent(e: Option<Elt>, data: bool, code: nat) returns (status: Status, x: Option<Elt>)
      requires Valid()
      modifies this
      ensures Valid() && GivesContent(e, data, code, old(Rest()), Outcome(status, x, Rest()))
      decreases |Rest()|, 2, 0
    {
      if code == NUMBER {
        status, x := ReadScalar(e, data, 8, true);
      } else if code == BOOLEAN || code == INT8 {
        status, x := ReadScalar(e, data, 1, false);
      } else if code == STRING {
        status, x := ReadText(e, data);
      } else if code == NULL || code == ARRAY_NULL {
        return Went, e;
      } else if code == MIXED_ARRAY {
        var ok, _ := Get(4);
        if !ok {
          return Failed, e;
        }
        status, x := ReadContainer(e, data, OBJECT, 0);
      } else if code == OBJECT {
        status, x := ReadContainer(e, data, OBJECT, 0);
      } else if code == ARRAY {
        var ok, b := Get(4);
        if !ok {
          return Failed, e;
        }
        status, x := ReadContainer(e, data, ARRAY, OfBe32(b[0], b[1], b[2], b[3]));
      } else if code == VARIANT {
        status, x := ReadAlternative(e, data);
        assert Unfold(0);
      } else if code == INT16 {
        status, x := ReadScalar(e, data, 2, true);
      } else if code == INT32 {
        status, x := ReadScalar(e, data, 4, true);
      } else if code == END {
        return Stopped, e;
      } else {
        return Failed, e;
      }
    }

    method ReadScalar(e: Option<Elt>, data: bool, n: nat, reversed: bool) returns (status: Status, x: Option<Elt>)
      requires Valid()
      modifies this
      ensures Valid() && Outcome(status, x, Rest()) == Scalar(e, data, n, reversed, old(Rest()))
    {
      var ok, bytes := Get(n);
      if !ok {
        return Failed, e;
      }
      return Went, Stored(e, data, if reversed then Reverse(bytes) else bytes);
    }

    /** A string is read in two parts when there is no room for all of it. */
    method ReadText(e: Option<Elt>, data: bool) returns (status: Status, x: Option<Elt>)
      requires Valid()
      modifies this
      ensures Valid() && Outcome(status, x, Rest()) == Text(e, data, old(Rest()))
    {
      ghost var s := Rest();
      var ok, b := Get(2);
      if !ok {
        return Failed, e;
      }
      var len := OfBe16(b[0], b[1]);
      if e.Some? && data && e.value.len == 0 {
        return Failed, e;
      }
      var keep := len;
      if e.Some? && data && e.value.len <= len {
        keep := e.value.len - 1;
      }
      TextIs(e, data, s, OfBe16(s[0], s[1]), keep);
      var bytes;
      ok, bytes := GetFront(keep, len);
      if !ok {
        return Failed, e;
      }
      return Went, Stored(e, data, bytes);
    }

    method ReadContainer(e: Option<Elt>, data: bool, code: nat, len: nat) returns (status: Status, x: Option<Elt>)
      requires Valid() && (code == OBJECT || code == ARRAY)
      modifies this
      ensures Valid()
      ensures Outcome(status, x, Rest()) ==
              Refilled(e, data, if code == OBJECT then ReadObject(Fields(e, data), old(Rest()))
                                else ReadArray(Fields(e, data), len, 0, old(Rest())))
      decreases |Rest()|, if code == OBJECT then 1 else 6, 1
    {
      var ok, elts;
      if code == OBJECT {
        ok, elts := ReadFields(Fields(e, data));
      } else {
        ok, elts := ReadItems(Fields(e, data), len);
      }
      if !ok {
        return Failed, e;
      }
      return Went, if e.Some? && data then Some(e.value.(elts := elts)) else e;
    }

    /** ngx_rtmp_amf_read_object: a key is only copied as far as the longest descriptor name. */
    method ReadFields(elts0: seq<Elt>) returns (ok: bool, elts: seq<Elt>)
      requires Valid()
      modifies this
      ensures Valid() && OutcomeAll(ok, elts, Rest()) == ReadObject(elts0, old(Rest()))
      decreases |Rest()|, 1, 0
    {
      elts := elts0;
      var more := true;
      while more
        invariant Valid() && |Rest()| <= |old(Rest())|
        invariant ReadObject(elts0, old(Rest())) == if more then ReadObject(elts, Rest()) else Done(elts, Rest())
        decreases more, |Rest()|
      {
        ghost var s := Rest();
        var got, b := Get(2);
        if !got {
          more := false;
        } else {
          var len := OfBe16(b[0], b[1]);
          if len == 0 {
            var end, code8 := Get(1);
            if !end || code8[0] != END {
              return false, elts;
            }
            more := false;
          } else {
            got, elts := ReadField(elts, len, s);
            if !got {
              return false, elts;
            }
          }
        }
      }
      return true, elts;
    }

    /** A key and its value. */
    method ReadField(elts0: seq<Elt>, len: nat, ghost s: seq<byte>) returns (ok: bool, elts: seq<Elt>)
      requires Valid() && |s| >= 2 && Rest() == s[2..] && len == OfBe16(s[0], s[1]) > 0
      modifies this
      ensures Valid()
      ensures if ok then |Rest()| < |s| && ReadObject(elts0, s) == ReadObject(elts, Rest())
              else ReadObject(elts0, s).FailAll?
      decreases |s|, 0, 0
    {
      elts := elts0;
      var n;
      ok, n := ReadKey(elts, len, s);
      if ok {
        var status, x := ReadElt(if n < |elts| then Some(elts[n]) else None);
        ok := status != Failed;
        if ok && n < |elts| && x.Some? {
          elts := elts[n := x.value];
        }
      }
    }

    /** The key, and the place of its descriptor. */
    method ReadKey(elts: seq<Elt>, len: nat, ghost s: seq<byte>) returns (ok: bool, n: nat)
      requires Valid() && |s| >= 2 && Rest() == s[2..] && len > 0
      modifies this
      ensures Valid() && (ok <==> 2 + len <= |s|)
      ensures ok ==> Rest() == s[2 + len..] && n == FindName(elts, s[2..2 + len])
    {
      var max := LongestName(elts);
      var keep := Min(len, max);
      var key;
      ok, key := GetFront(keep, len);
      n := |elts|;
      if ok {
        Slices(s, 2, keep, len);
        if len <= max {
          n := FindName(elts, key);
        }
      }
    }

    /** The elements of ngx_rtmp_amf_read_array. */
    method ReadItems(elts0: seq<Elt>, len: nat) returns (ok: bool, elts: seq<Elt>)
      requires Valid()
      modifies this
      ensures Valid() && OutcomeAll(ok, elts, Rest()) == ReadArray(elts0, len, 0, old(Rest()))
      decreases |Rest()|, 5, 0
    {
      elts := elts0;
      var n: nat := 0;
      while n < len
        invariant Valid() && n <= len && |Rest()| <= |old(Rest())|
        invariant ReadArray(elts0, len, 0, old(Rest())) == ReadArray(elts, len, n, Rest())
      {
        var status, x := ReadElt(if n < |elts| then Some(elts[n]) else None);
        if status == Failed {
          return false, elts;
        }
        if n < |elts| && x.Some? {
          elts := elts[n := x.value];
        }
        n := n + 1;
      }
      return true, elts;
    }

    /** ngx_rtmp_amf_read_variant. */
    method ReadAlternative(e: Option<Elt>, data: bool) returns (status: Status, x: Option<Elt>)
      requires Valid()
      modifies this
      ensures Valid() && GivesVariant(e, data, old(Rest()), Outcome(status, x, Rest()))
      decreases |Rest()|, 1, 0
    {
      ghost var s := Rest();
      var ok, code8 := Get(1);
      if !ok {
        return Failed, e;
      }
      var elts := Fields(e, data);
      var n := PickVariant(elts, code8[0]);
      var alternative := if n < |elts| then Some(elts[n]) else None;
      status, x := ReadContent(alternative, n < |elts| && elts[n].data, code8[0]);
      VariantStep(e, data, s, Outcome(status, x, Rest()));
      if status == Failed {
        return Failed, e;
      }
      return Went, if n < |elts| && x.Some? then Some(e.value.(elts := elts[n := x.value])) else e;
    }

    /** ngx_rtmp_amf_read with a list of descriptors. */
    method ReadElts(elts: seq<Elt>) returns (ok: bool, xs: seq<Elt>)
      requires Valid()
      modifies this
      ensures Valid() && OutcomeAll(ok, xs, Rest()) == ReadList(elts, old(Rest()))
    {
      ghost var s := Rest();
      xs := [];
      var n: nat := 0;
      ListBegin(elts, s);
      while n < |elts|
        invariant Valid() && n <= |elts| && GivesList(elts, s, n, xs, Rest())
      {
        ListNext(elts, s, n, xs, Rest());
        var status, x := ReadElt(Some(elts[n]));
        if status == Failed {
          return false, xs;
        }
        xs := xs + [if x.Some? then x.value else elts[n]];
        n := n + 1;
        if status == Stopped {
          return true, xs + elts[n..];
        }
      }
      ListEnd(elts, s, xs, Rest());
      return true, xs;
    }
  }

  /** Descriptors of which the first ones have been filled. */
  lemma ListStep(elts: seq<Elt>, n: nat, s: seq<byte>)
    requires n < |elts|
    ensures var r := ReadOne(Some(elts[n]), s);
            var first := if !r.Fail? && r.elt.Some? then r.elt.value else elts[n];
            ReadList(elts[n..], s) ==
            (if r.Fail? then FailAll
             else Prepended([first], if r.Stop? then Done(elts[n + 1..], r.rest) else ReadList(elts[n + 1..], r.rest)))
  {
    assert elts[n..][0] == elts[n] && elts[n..][1..] == elts[n + 1..];
  }

  /** The length of the longest name; no name that is longer is found. */
  method LongestName(elts: seq<Elt>) returns (max: nat)
    ensures forall key :: |key| > max ==> FindName(elts, key) == |elts|
  {
    max := 0;
    var n: nat := 0;
    while n < |elts|
      invariant n <= |elts| && forall i :: 0 <= i < n ==> |elts[i].name| <= max
    {
      if |elts[n].name| > max {
        max := |elts[n].name|;
      }
      n := n + 1;
    }
  }

  class Sink {
    const capacity: nat
    var chain: seq<seq<byte>>

    /** Buffers are filled one after another; only the last may have room. */
    ghost predicate Valid()
      reads this
    {
      && capacity > 0
      && (forall i :: 0 <= i < |chain| ==> |chain[i]| <= capacity)
      && (forall i :: 0 <= i < |chain| - 1 ==> |chain[i]| == capacity)
    }

    ghost function Contents(): seq<byte>
      reads this
    {
      Concat(chain)
    }

    constructor (capacity: nat)
      requires capacity > 0
      ensures Valid() && Contents() == [] && this.capacity == capacity
    {
      this.capacity := capacity;
      chain := [];
    }

    /** ngx_rtmp_amf_put: fills the last buffer and takes new ones as needed. */
    method Put(bytes: seq<byte>)
      requires Valid()
      modifies this
      ensures Valid() && Contents() == old(Contents()) + bytes
    {
      var p: nat := 0;
      assert bytes[..0] == [] && old(Contents()) + [] == old(Contents());
      while p < |bytes|
        invariant Valid() && p <= |bytes|
        invariant Contents() == old(Contents()) + bytes[..p]
        decreases |bytes| - p
      {
        var size := PutSome(bytes[p..]);
        Assoc(old(Contents()), bytes[..p], bytes[p..p + size]);
        assert bytes[p..][..size] == bytes[p..p + size];
        assert bytes[..p] + bytes[p..p + size] == bytes[..p + size];
        p := p + size;
      }
      assert bytes[..p] == bytes;
    }

    /** As many bytes as go into one buffer. */
    method PutSome(bytes: seq<byte>) returns (size: nat)
      requires Valid() && bytes != []
      modifies this
      ensures Valid() && 0 < size <= |bytes| && Contents() == old(Contents()) + bytes[..size]
    {
      if chain == [] || |chain[|chain| - 1]| == capacity {
        ConcatSnoc(chain, []);
        assert Concat(chain) + [] == Concat(chain);
        chain := chain + [[]];
      }
      size := Min(capacity - |chain[|chain| - 1]|, |bytes|);
      LastGrows(chain, bytes[..size]);
      chain := chain[|chain| - 1 := chain[|chain| - 1] + bytes[..size]];
    }

    /** ngx_rtmp_amf_write for one element. */
    method Write(e: Elt) returns (ok: bool)
      requires Valid()
      modifies this
      ensures Valid() && (ok <==> Supported(e))
      ensures ok ==> Contents() == old(Contents()) + Encode(e)
      decreases e, 1
    {
      ghost var start := Contents();
      if !e.typeless {
        Put([e.code % 256]);
      }
      if e.optional || e.context {
        return false;
      }
      ghost var head := if e.typeless then [] else [e.code % 256];
      assert Contents() == start + head;
      ok := WriteBody(e);
      Assoc(start, head, Body(e));
    }

    method WriteBody(e: Elt) returns (ok: bool)
      requires Valid() && !e.optional && !e.context
      modifies this
      ensures Valid() && (ok <==> Supported(e))
      ensures ok ==> Contents() == old(Contents()) + Body(e)
      decreases e, 0
    {
      ghost var start := Contents();
      if e.code == NUMBER || e.code == INT16 || e.code == INT32 {
        Put(Reverse(e.value));
      } else if e.code == BOOLEAN || e.code == INT8 {
        Put(e.value);
      } else if e.code == STRING {
        Put(Be16(|Chars(e)|));
        Put(Chars(e));
        Assoc(start, Be16(|Chars(e)|), Chars(e));
      } else if e.code == MIXED_ARRAY {
        Put([0, 0, 0, 0]);
        ok := WriteObject(e.elts);
        Assoc(start, [0, 0, 0, 0], EncodeFields(e.elts) + [0, 0, END]);
        return;
      } else if e.code == OBJECT {
        ok := WriteObject(e.elts);
        return;
      } else if e.code == ARRAY {
        Put(Be32(|e.elts| % TWO32));
        ok := WriteItems(e.elts);
        Assoc(start, Be32(|e.elts| % TWO32), EncodeAll(e.elts));
        return;
      } else {
        assert start + [] == start;
        return e.code == NULL || e.code == ARRAY_NULL;
      }
      return true;
    }

    /** ngx_rtmp_amf_write_object and the end marker. */
    method WriteObject(elts: seq<Elt>) returns (ok: bool)
      requires Valid()
      modifies this
      ensures Valid() && (ok <==> AllSupported(elts))
      ensures ok ==> Contents() == old(Contents()) + (EncodeFields(elts) + [0, 0, END])
      decreases elts, 3
    {
      ghost var start := Contents();
      ok := WriteFields(elts);
      if ok {
        ghost var fields := EncodeFields(elts);
        Put([0, 0]);
        Put([END]);
        assert start + fields + [0, 0] + [END] == start + (fields + [0, 0, END]);
      }
    }

    method WriteFields(elts: seq<Elt>) returns (ok: bool)
      requires Valid()
      modifies this
      ensures Valid() && (ok <==> AllSupported(elts))
      ensures ok ==> Contents() == old(Contents()) + EncodeFields(elts)
      decreases elts, 2
    {
      ghost var start, all := Contents(), EncodeFields(elts);
      var n: nat := 0;
      ghost var done: seq<byte> := [];
      assert elts[0..] == elts && start + done == start && done + all == all;
      while n < |elts|
        invariant Valid() && n <= |elts| && AllSupported(elts[..n])
        invariant Contents() == start + done && all == done + EncodeFields(elts[n..])
      {
        var e := elts[n];
        var key := Key(e.name);
        Put(Be16(|key|));
        Put(key);
        SupportedNext(elts, n);
        ok := Write(e);
        if !ok {
          return;
        }
        FieldDone(elts, n, start, done, all);
        done := done + (Be16(|key|) + (key + Encode(e)));
        n := n + 1;
      }
      assert elts[..n] == elts && elts[n..] == [] && done + [] == done;
      return true;
    }

    /** The elements of ngx_rtmp_amf_write_array. */
    method WriteItems(elts: seq<Elt>) returns (ok: bool)
      requires Valid()
      modifies this
      ensures Valid() && (ok <==> AllSupported(elts))
      ensures ok ==> Contents() == old(Contents()) + EncodeAll(elts)
      decreases elts, 2
    {
      ghost var start := Contents();
      var n: nat := 0;
      ghost var done: seq<byte> := [];
      assert start + done == start;
      NoneWritten(elts);
      while n < |elts|
        invariant Valid() && n <= |elts| && Written(elts, n, done) && Contents() == start + done
      {
        ok := Write(elts[n]);
        if !ok {
          return;
        }
        ghost var enc := Encode(elts[n]);
        ItemDone(elts, n, done, enc);
        Assoc(start, done, enc);
        done := done + enc;
        n := n + 1;
      }
      AllWritten(elts, done);
      return true;
    }
  }

  /** The writer knows the type, and the types of all that it contains. */
  predicate Supported(e: Elt)
    decreases e
  {
    && !e.optional && !e.context
    && (e.code in {NUMBER, BOOLEAN, STRING, NULL, ARRAY_NULL, INT8, INT16, INT32} ||
        (e.code in {OBJECT, MIXED_ARRAY, ARRAY} && forall i :: 0 <= i < |e.elts| ==> Supported(e.elts[i])))
  }

  /** The types that can be written. */
  lemma SupportedIs(e: Elt)
    ensures Supported(e) ==>
              !e.optional && !e.context && e.code in {0, 1, 2, 3, 5, 6, 8, 10, 0x100, 0x101, 0x102}
    ensures !e.optional && !e.context && e.code in {0, 1, 2, 5, 6, 0x100, 0x101, 0x102} ==> Supported(e)
    ensures !e.optional && !e.context && e.code in {3, 8, 10} ==> (Supported(e) <==> AllSupported(e.elts))
  {
  }

  predicate AllSupported(elts: seq<Elt>) {
    forall i :: 0 <= i < |elts| ==> Supported(elts[i])
  }

  lemma SupportedNext(elts: seq<Elt>, n: nat)
    requires n < |elts| && AllSupported(elts[..n])
    ensures Supported(elts[n]) ==> AllSupported(elts[..n + 1])
    ensures !Supported(elts[n]) ==> !AllSupported(elts)
  {
    assert elts[..n + 1] == elts[..n] + [elts[n]];
  }

  lemma FieldDone(elts: seq<Elt>, n: nat, start: seq<byte>, done: seq<byte>, all: seq<byte>)
    requires n < |elts| && all == done + EncodeFields(elts[n..])
    ensures var e := elts[n];
            var key := Key(e.name);
            var field := Be16(|key|) + (key + Encode(e));
            && start + done + Be16(|key|) + key + Encode(e) == start + (done + field)
            && all == done + field + EncodeFields(elts[n + 1..])
  {
    assert elts[n..][0] == elts[n] && elts[n..][1..] == elts[n + 1..];
    FieldPieces(start, done, Be16(|Key(elts[n].name)|), Key(elts[n].name), Encode(elts[n]),
                EncodeFields(elts[n + 1..]));
  }

  lemma FieldPieces(start: seq<byte>, done: seq<byte>, a: seq<byte>, b: seq<byte>, c: seq<byte>, d: seq<byte>)
    ensures start + done + a + b + c == start + (done + (a + (b + c)))
    ensures done + (a + (b + (c + d))) == done + (a + (b + c)) + d
  {
  }

  /** The first `n` elements can be written, and are written as `done`. */
  ghost predicate Written(elts: seq<Elt>, n: nat, done: seq<byte>) {
    forall k: int {:trigger Unfold(k)} :: Unfold(k) ==>
      n <= |elts| && AllSupported(elts[..n]) && EncodeAll(elts) == done + EncodeAll(elts[n..])
  }

  lemma NoneWritten(elts: seq<Elt>)
    ensures Written(elts, 0, [])
  {
    assert elts[0..] == elts && [] + EncodeAll(elts) == EncodeAll(elts);
  }

  lemma ItemDone(elts: seq<Elt>, n: nat, done: seq<byte>, enc: seq<byte>)
    requires n < |elts| && Written(elts, n, done) && Supported(elts[n]) && enc == Encode(elts[n])
    ensures Written(elts, n + 1, done + enc)
  {
    assert Unfold(0);
    SupportedNext(elts, n);
    assert elts[n..][0] == elts[n] && elts[n..][1..] == elts[n + 1..];
    Assoc(done, enc, EncodeAll(elts[n + 1..]));
  }

  lemma AllWritten(elts: seq<Elt>, done: seq<byte>)
    requires Written(elts, |elts|, done)
    ensures AllSupported(elts) && done == EncodeAll(elts)
  {
    assert Unfold(0);
    assert elts[..|elts|] == elts && elts[|elts|..] == [] && done + [] == done;
  }

  lemma LastGrows(chain: seq<seq<byte>>, more: seq<byte>)
    requires chain != []
    ensures Concat(chain[|chain| - 1 := chain[|chain| - 1] + more]) == Concat(chain) + more
  {
    var n := |chain| - 1;
    assert chain == chain[..n] + [chain[n]];
    assert chain[n := chain[n] + more] == chain[..n] + [chain[n] + more];
    ConcatSnoc(chain[..n], chain[n]);
    ConcatSnoc(chain[..n], chain[n] + more);
    Assoc(Concat(chain[..n]), chain[n], more);
  }

  // ----- From one chain to another

  lemma {:induction false} WritableIsSupported(e: Elt)
    requires Writable(e)
    ensures Supported(e)
    decreases e
  {
    forall i | 0 <= i < |e.elts| ensures Supported(e.elts[i]) {
      WritableIsSupported(e.elts[i]);
    }
  }

  lemma AllWritable(ws: seq<Elt>)
    requires forall i :: 0 <= i < |ws| ==> Writable(ws[i])
    ensures AllSupported(ws)
  {
    forall i | 0 <= i < |ws| ensures Supported(ws[i]) {
      WritableIsSupported(ws[i]);
    }
  }

  /**
    * Elements are written into buffers of any capacity. Their bytes, and perhaps others behind them, arrive in a chain
    * that is cut in any way: what is read from it has the same trees, and exactly the other bytes are left.
    */
  method Carry(ws: seq<Elt>, rs: seq<Elt>, capacity: nat, chain: seq<seq<byte>>, ghost tail: seq<byte>)
    returns (written: seq<seq<byte>>, source: Source, xs: seq<Elt>)
    requires capacity > 0 && |rs| == |ws| && forall i :: 0 <= i < |ws| ==> Writable(ws[i]) && Fits(ws[i], rs[i])
    requires Concat(chain) == EncodeAll(ws) + tail
    ensures Concat(chain) == Concat(written) + tail
    ensures forall i :: 0 <= i < |written| ==> |written[i]| <= capacity
    ensures Views(xs) == Views(ws) && source.Rest() == tail
  {
    var sink := new Sink(capacity);
    AllWritable(ws);
    var ok := sink.WriteItems(ws);
    written := sink.chain;
    assert [] + EncodeAll(ws) == EncodeAll(ws);
    ghost var restored := RoundTrip(ws, rs, tail);
    source := new Source(chain);
    ok, xs := source.ReadElts(rs);
  }
}
