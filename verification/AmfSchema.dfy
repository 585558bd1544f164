/** How far the AMF reader gets does not depend on the descriptors it is given. */
module AmfSchema {
  import opened Bytes
  import opened Amf

  /** No OPTIONAL, TYPELESS only as VARIANT and without CONTEXT, and room for at least the final NUL in every string. */
  ghost predicate Plain(e: Elt) {
    && !e.optional && (e.typeless ==> e.code == VARIANT && !e.context)
    && (e.data && e.code % 256 == STRING ==> e.len >= 1)
    && forall i :: 0 <= i < |e.elts| ==> Plain(e.elts[i])
  }

  ghost predicate AllPlain(elts: seq<Elt>) {
    forall i :: 0 <= i < |elts| ==> Plain(elts[i])
  }

  /** Same status and same rest, and what was filled is still plain. */
  ghost predicate SameEnd(r: Read, q: Read) {
    && (r.Fail? <==> q.Fail?)
    && (!r.Fail? ==> r.rest == q.rest && r.elt.Some? && Plain(r.elt.value))
  }

  ghost predicate SameEndAll(r: ReadAll, q: ReadAll) {
    && (r.FailAll? <==> q.FailAll?)
    && (r.Done? ==> r.rest == q.rest && AllPlain(r.elts))
  }

  /**
    * A type on the wire that is neither the descriptor's nor the other one of object (3) and mixed array (8) leaves the
    * descriptor as it was; and so does any type if the descriptor has CONTEXT.
    */
  lemma OtherTypeLeavesIt(e: Elt, s: seq<byte>)
    requires !e.typeless && s != []
    requires e.context || (e.code % 256 != s[0] && !(e.code % 256 == 3 && s[0] == 8)
                           && !(e.code % 256 == 8 && s[0] == 3))
    ensures ReadOne(Some(e), s).Fail? || ReadOne(Some(e), s).elt == Some(e)
  {
    assert ReadOne(Some(e), s) == Content(Some(e), false, s[0], s[1..]);
  }

  /** Null (5, 6) has no bytes, 9 ends the call, and there are no other types than these on the wire. */
  lemma TypesAre(e: Option<Elt>, data: bool, code: nat, s: seq<byte>)
    ensures code in {5, 6} ==> Content(e, data, code, s) == Next(e, s)
    ensures code == 9 ==> Content(e, data, code, s) == Stop(e, s)
    ensures code < 256 && code !in {0, 1, 2, 3, 5, 6, 8, 9, 10} ==> Content(e, data, code, s) == Fail
  {
  }

  /** An object may end where the bytes end; an empty key must be followed by 9. */
  lemma ObjectEnds(elts: seq<Elt>, s: seq<byte>)
    ensures |s| < 2 ==> ReadObject(elts, s) == Done(elts, s)
    ensures |s| >= 2 && s[0] == s[1] == 0 ==>
              ReadObject(elts, s) == if |s| >= 3 && s[2] == 9 then Done(elts, s[3..]) else FailAll
  {
  }

  /** Keys are compared by length, and by bytes up to the end or to a zero. */
  lemma {:induction false} SameNameIs(a: seq<byte>, b: seq<byte>)
    ensures SameName(a, b) <==>
              |a| == |b| && forall i :: 0 <= i < |a| && (forall j :: 0 <= j < i ==> a[j] != 0) ==> a[i] == b[i]
    decreases |a|
  {
    if a != [] && |a| == |b| {
      SameNameIs(a[1..], b[1..]);
      if SameName(a, b) {
        forall i | 0 <= i < |a| && (forall j :: 0 <= j < i ==> a[j] != 0) ensures a[i] == b[i] {
          if i > 0 {
            assert a[0] != 0;
            assert forall j :: 0 <= j < i - 1 ==> a[1..][j] == a[j + 1];
            assert a[1..][i - 1] == a[i] && b[1..][i - 1] == b[i];
          }
        }
      }
      if forall i :: 0 <= i < |a| && (forall j :: 0 <= j < i ==> a[j] != 0) ==> a[i] == b[i] {
        assert a[0] == b[0];
        if a[0] != 0 {
          forall i | 0 <= i < |a| - 1 && (forall j :: 0 <= j < i ==> a[1..][j] != 0) ensures a[1..][i] == b[1..][i] {
            assert forall j :: 0 <= j < i + 1 ==> a[j] != 0 by {
              forall j | 0 <= j < i + 1 ensures a[j] != 0 {
                if j > 0 {
                  assert a[1..][j - 1] != 0;
                }
              }
            }
            assert a[i + 1] == b[i + 1];
          }
        }
      }
    }
  }

  /**
    * A string is cut to the room of its descriptor, which keeps a byte for the final zero; with no room at all it is an
    * error. The cursor is behind all of it.
    */
  lemma TextMeans(e: Elt, s: seq<byte>)
    requires |s| >= 2
    ensures var n := Weigh(0, 0, s[0], s[1]);
            Text(Some(e), true, s)
            == if |s| < 2 + n || e.len == 0 then Fail
               else Next(Some(e.(value := s[2..2 + (if e.len <= n then e.len - 1 else n)])), s[2 + n..])
  {
    ReadsWeigh(0, 0, s[0], s[1]);
  }

  lemma VariantIs(e: Elt, s: seq<byte>)
    requires e.typeless && e.code == VARIANT && !e.optional && !e.context
    ensures ReadOne(Some(e), s) == ReadVariant(Some(e), e.data, s)
  {
    assert ReadOne(Some(e), s) == Content(Some(e), e.data, VARIANT, s);
  }

  lemma {:induction false} AgreeOne(e: Elt, s: seq<byte>)
    requires Plain(e)
    ensures SameEnd(ReadOne(Some(e), s), ReadOne(None, s))
    ensures !e.typeless ==> (ReadOne(Some(e), s).Stop? <==> ReadOne(None, s).Stop?)
    decreases |s|, 3, 0
  {
    if e.typeless {
      VariantIs(e, s);
    }
    if s != [] {
      if e.typeless {
        AgreeVariant(e, e.data, s);
      } else {
        AgreeContent(e, e.data && Compatible(e.code % 256, s[0]) && !e.context, s[0], s[1..]);
      }
    }
  }

  /** Types that contain no other elements. */
  lemma AgreeSimple(e: Elt, data: bool, code: nat, s: seq<byte>)
    requires Plain(e) && code < 256 && (data && code == STRING ==> e.len >= 1) && code !in {OBJECT, MIXED_ARRAY, ARRAY}
    ensures SameEnd(Content(Some(e), data, code, s), Content(None, false, code, s))
    ensures Content(Some(e), data, code, s).Stop? <==> Content(None, false, code, s).Stop?
  {
  }

  lemma {:induction false} AgreeContent(e: Elt, data: bool, code: nat, s: seq<byte>)
    requires Plain(e) && code < 256 && (data && code == STRING ==> e.len >= 1)
    ensures SameEnd(Content(Some(e), data, code, s), Content(None, false, code, s))
    ensures Content(Some(e), data, code, s).Stop? <==> Content(None, false, code, s).Stop?
    decreases |s|, 2, 0
  {
    if code !in {OBJECT, MIXED_ARRAY, ARRAY} {
      AgreeSimple(e, data, code, s);
    } else {
      AgreeNested(e, data, code, s);
    }
  }

  /** Types that contain other elements. */
  lemma {:induction false} AgreeNested(e: Elt, data: bool, code: nat, s: seq<byte>)
    requires Plain(e) && code in {OBJECT, MIXED_ARRAY, ARRAY}
    ensures SameEnd(Content(Some(e), data, code, s), Content(None, false, code, s))
    ensures Content(Some(e), data, code, s).Stop? <==> Content(None, false, code, s).Stop?
    decreases |s|, 1, 1
  {
    var elts := Fields(Some(e), data);
    assert AllPlain(elts);
    if code == OBJECT {
      AgreeObject(elts, s);
    } else if |s| >= 4 {
      if code == MIXED_ARRAY {
        AgreeObject(elts, s[4..]);
      } else {
        AgreeArray(elts, OfBe32(s[0], s[1], s[2], s[3]), 0, s[4..]);
      }
    }
  }

  lemma {:induction false} AgreeObject(elts: seq<Elt>, s: seq<byte>)
    requires AllPlain(elts)
    ensures SameEndAll(ReadObject(elts, s), ReadObject([], s))
    decreases |s|, 1, 0
  {
    if |s| >= 2 {
      var len := OfBe16(s[0], s[1]);
      if len > 0 && |s| >= 2 + len {
        var t := s[2 + len..];
        var n := FindName(elts, s[2..2 + len]);
        if n < |elts| {
          AgreeOne(elts[n], t);
        }
        var r := ReadOne(if n < |elts| then Some(elts[n]) else None, t);
        if !r.Fail? {
          AgreeObject(if n < |elts| && r.elt.Some? then elts[n := r.elt.value] else elts, r.rest);
        }
      }
    }
  }

  lemma {:induction false} AgreeArray(elts: seq<Elt>, len: nat, n: nat, s: seq<byte>)
    requires AllPlain(elts)
    ensures SameEndAll(ReadArray(elts, len, n, s), ReadArray([], len, n, s))
    decreases |s|, 4, len - n
  {
    if n < len {
      if n < |elts| {
        AgreeOne(elts[n], s);
      }
      var r := ReadOne(if n < |elts| then Some(elts[n]) else None, s);
      if !r.Fail? {
        AgreeArray(if n < |elts| && r.elt.Some? then elts[n := r.elt.value] else elts, len, n + 1, r.rest);
      }
    }
  }

  lemma PickedType(elts: seq<Elt>, code: nat)
    ensures var n := PickVariant(elts, code); n < |elts| ==> elts[n].code == code && !elts[n].typeless
  {
  }

  lemma {:induction false} AgreeVariant(e: Elt, data: bool, s: seq<byte>)
    requires Plain(e) && s != []
    ensures SameEnd(ReadVariant(Some(e), data, s), ReadOne(None, s))
    decreases |s|, 1, 0
  {
    var elts := Fields(Some(e), data);
    var n := PickVariant(elts, s[0]);
    PickedType(elts, s[0]);
    if n < |elts| {
      AgreeContent(elts[n], elts[n].data, s[0], s[1..]);
    }
  }

  // ----- Lists of descriptors

  ghost predicate Agrees(elts: seq<Elt>, s: seq<byte>) {
    match ReadList(elts, s)
    case FailAll => SkipList(|elts|, s) == None
    case Done(_, rest) => SkipList(|elts|, s) == Some(rest)
  }

  /** A VARIANT is only ever the last descriptor. */
  ghost predicate VariantsLast(elts: seq<Elt>) {
    forall i :: 0 <= i < |elts| - 1 ==> !elts[i].typeless
  }

  lemma {:induction false} ListAgrees(elts: seq<Elt>, s: seq<byte>)
    requires AllPlain(elts) && VariantsLast(elts)
    ensures Agrees(elts, s)
    decreases |elts|
  {
    if elts != [] {
      AgreeOne(elts[0], s);
      var r := ReadOne(Some(elts[0]), s);
      if r.Next? {
        ListAgrees(elts[1..], r.rest);
      }
    }
  }

  /** Elements of type null up to the first VARIANT, and an end marker for that. */
  ghost function Trap(elts: seq<Elt>): seq<byte>
    requires !VariantsLast(elts)
    decreases |elts|
  {
    if elts[0].typeless then [END] else [NULL] + Trap(elts[1..])
  }

  lemma NothingLeft(e: Elt)
    requires Plain(e)
    ensures ReadOne(Some(e), []).Fail?
  {
    if e.typeless {
      VariantIs(e, []);
    }
  }

  lemma NullIsRead(e: Option<Elt>, t: seq<byte>)
    requires e.Some? ==> !e.value.typeless
    ensures ReadOne(e, [NULL] + t) == Next(e, t)
  {
    var s := [NULL] + t;
    assert s[1..] == t;
    assert Content(e, e.Some? && e.value.data && Compatible(e.value.code % 256, s[0]) && !e.value.context, s[0], t)
           == Next(e, t);
  }

  lemma EndIsRead(e: Elt)
    requires Plain(e)
    ensures ReadOne(None, [END]) == Stop(None, [])
    ensures e.typeless ==> ReadOne(Some(e), [END]).Next? && ReadOne(Some(e), [END]).rest == []
  {
    assert Content(None, false, END, []) == Stop(None, []);
    assert [END][1..] == [];
    assert ReadOne(None, [END]) == Stop(None, []);
    AgreeOne(e, [END]);
    if e.typeless {
      VariantIs(e, [END]);
    }
  }

  /** An end marker read by a VARIANT does not end the call; read by anything else it does. */
  lemma {:induction false} TrapDisagrees(elts: seq<Elt>)
    requires AllPlain(elts) && !VariantsLast(elts)
    ensures ReadList(elts, Trap(elts)) == FailAll && SkipList(|elts|, Trap(elts)) == Some([])
    decreases |elts|
  {
    if elts[0].typeless {
      EndIsRead(elts[0]);
      NothingLeft(elts[1]);
      assert elts[1..][0] == elts[1];
      assert ReadList(elts[1..], []) == FailAll;
    } else {
      NullIsRead(Some(elts[0]), Trap(elts[1..]));
      NullIsRead(None, Trap(elts[1..]));
      TrapDisagrees(elts[1..]);
    }
  }

  /** Reading a list ends as skipping does, for all bytes, exactly when a VARIANT is only ever the last descriptor. */
  lemma ConsumptionIsSchemaIndependent(elts: seq<Elt>)
    requires AllPlain(elts)
    ensures (forall s :: Agrees(elts, s)) <==> VariantsLast(elts)
  {
    if VariantsLast(elts) {
      forall s ensures Agrees(elts, s) {
        ListAgrees(elts, s);
      }
    } else {
      TrapDisagrees(elts);
      assert !Agrees(elts, Trap(elts));
    }
  }
}
