/** Reading back what the AMF writer wrote restores the written tree. */
module AmfRoundTrip {
  import opened Bytes
  import opened Amf

  // ----- Writing

  /** C's strlen, on memory that may lack a final NUL. */
  function StrLen(s: seq<byte>): (n: nat)
    ensures n <= |s|
  {
    if s == [] || s[0] == 0 then 0 else 1 + StrLen(s[1..])
  }

  /** The bytes of a string element: `len` of them or, when that is zero, up to the NUL. */
  function Chars(e: Elt): (t: seq<byte>)
    ensures |t| < TWO16
  {
    var n := if e.len % TWO16 != 0 then e.len % TWO16 else StrLen(e.value) % TWO16;
    e.value[..Min(n, |e.value|)]
  }

  function Key(name: seq<byte>): (k: seq<byte>)
    ensures |k| < TWO16
  {
    name[..Min(|name| % TWO16, |name|)]
  }

  function Encode(e: Elt): seq<byte>
    decreases e, 1
  {
    (if e.typeless then [] else [e.code % 256]) + Body(e)
  }

  function Body(e: Elt): seq<byte>
    decreases e, 0
  {
    if e.code == NUMBER || e.code == INT16 || e.code == INT32 then Reverse(e.value)
    else if e.code == BOOLEAN || e.code == INT8 then e.value
    else if e.code == STRING then Be16(|Chars(e)|) + Chars(e)
    else if e.code == MIXED_ARRAY then [0, 0, 0, 0] + (EncodeFields(e.elts) + [0, 0, END])
    else if e.code == OBJECT then EncodeFields(e.elts) + [0, 0, END]
    else if e.code == ARRAY then Be32(|e.elts| % TWO32) + EncodeAll(e.elts)
    else []
  }

  function EncodeFields(elts: seq<Elt>): seq<byte>
    decreases elts, 2
  {
    if elts == [] then []
    else Be16(|Key(elts[0].name)|) + (Key(elts[0].name) + (Encode(elts[0]) + EncodeFields(elts[1..])))
  }

  function EncodeAll(elts: seq<Elt>): seq<byte>
    decreases elts, 2
  {
    if elts == [] then [] else Encode(elts[0]) + EncodeAll(elts[1..])
  }

  // ----- The bytes, by their positions

  /** What an element is written as: a type byte, unless it is typeless, and its contents. */
  lemma EncodingIs(e: Elt)
    ensures Encode(e) == if e.typeless then Body(e) else [e.code % 256] + Body(e)
  {
    var b := Body(e);
    assert [] + b == b;
  }

  /**
    * A number (0) or integer (0x101, 0x102) is written with its heaviest byte first, a boolean (1) or byte (0x100) as
    * it is, and null (5, 6) as nothing.
    */
  lemma ScalarEncoding(e: Elt)
    requires e.code in {0, 1, 5, 6, 0x100, 0x101, 0x102}
    ensures e.code in {0, 0x101, 0x102} ==>
              |Body(e)| == |e.value| && forall i :: 0 <= i < |e.value| ==> Body(e)[i] == e.value[|e.value| - 1 - i]
    ensures e.code in {1, 0x100} ==> Body(e) == e.value
    ensures e.code in {5, 6} ==> Body(e) == []
  {
  }

  /** A string (2) has its length in two bytes in front, an array (10) its count in four. */
  lemma CountedEncoding(e: Elt)
    ensures e.code == 2 ==> Body(e) == Be16(|Chars(e)|) + Chars(e)
    ensures e.code == 10 && |e.elts| < TWO32 ==> Body(e) == Be32(|e.elts|) + EncodeAll(e.elts)
  {
  }

  /** An object (3) has an empty key and 9 behind its fields, a mixed array (8) four zeros in front of them besides. */
  lemma FieldsEncoding(e: Elt)
    ensures e.code == 3 ==> Body(e) == EncodeFields(e.elts) + [0, 0, 9]
    ensures e.code == 8 ==> Body(e) == [0, 0, 0, 0] + (EncodeFields(e.elts) + [0, 0, 9])
  {
  }

  /** Each field is its key, with its length in two bytes, and its element. */
  lemma FieldsAre(elts: seq<Elt>)
    requires elts != []
    ensures var k, s := Key(elts[0].name), EncodeFields(elts);
            && |s| >= 2 + |k| && Weigh(0, 0, s[0], s[1]) == |k| && s[2..2 + |k|] == k
            && s[2 + |k|..] == Encode(elts[0]) + EncodeFields(elts[1..])
  {
    var k := Key(elts[0].name);
    BytesWeigh(|k|);
    ThreeParts(Be16(|k|), k, Encode(elts[0]) + EncodeFields(elts[1..]));
  }

  // ----- Trees

  /** Objects and mixed arrays are records; a list has no names. */
  datatype Tree =
    | Leaf(code: nat, bytes: seq<byte>)
    | Record(names: seq<seq<byte>>, kids: seq<Tree>)
    | List(kids: seq<Tree>)

  ghost predicate Keyed(code: nat) {
    code == OBJECT || code == MIXED_ARRAY
  }

  ghost function Names(elts: seq<Elt>): seq<seq<byte>> {
    seq(|elts|, i requires 0 <= i < |elts| => elts[i].name)
  }

  /** The value an element stands for. */
  ghost function View(e: Elt): Tree
    decreases e
  {
    if Keyed(e.code) then Record(Names(e.elts), Views(e.elts))
    else if e.code == ARRAY then List(Views(e.elts))
    else if e.code == NULL || e.code == ARRAY_NULL then Leaf(e.code, [])
    else Leaf(e.code, e.value)
  }

  ghost function Views(elts: seq<Elt>): (ts: seq<Tree>)
    ensures |ts| == |elts| && forall i :: 0 <= i < |elts| ==> ts[i] == View(elts[i])
    decreases elts
  {
    if elts == [] then [] else [View(elts[0])] + Views(elts[1..])
  }

  ghost predicate Distinct(elts: seq<Elt>) {
    forall i, j :: 0 <= i < j < |elts| ==> !SameName(elts[j].name, elts[i].name)
  }

  /** Memory of the right size, lengths below 2^16, and nonempty distinct keys. */
  ghost predicate Writable(e: Elt)
    decreases e
  {
    && !e.optional && !e.context
    && (e.code in {NUMBER, BOOLEAN, STRING, OBJECT, NULL, ARRAY_NULL, MIXED_ARRAY, ARRAY} ||
        (e.typeless && e.code in {INT8, INT16, INT32}))
    && (e.code == NUMBER ==> |e.value| == 8)
    && (e.code == BOOLEAN || e.code == INT8 ==> |e.value| == 1)
    && (e.code == INT16 ==> |e.value| == 2)
    && (e.code == INT32 ==> |e.value| == 4)
    && (e.code == STRING ==> |e.value| < TWO16 && (e.len == |e.value| || (e.len == 0 && StrLen(e.value) == |e.value|)))
    && (e.code == ARRAY ==> |e.elts| < TWO32)
    && (Keyed(e.code) ==> Distinct(e.elts) && forall i :: 0 <= i < |e.elts| ==> 0 < |e.elts[i].name| < TWO16)
    && (forall i :: 0 <= i < |e.elts| ==> Writable(e.elts[i]))
  }

  /**
    * A descriptor with the same shape and room for every string. An object may be read as a mixed array and the other
    * way round, if the type is written.
    */
  ghost predicate Fits(w: Elt, r: Elt)
    decreases w
  {
    && (r.code == w.code || (Keyed(r.code) && Keyed(w.code) && !w.typeless))
    && r.typeless == w.typeless && !r.context && r.data && !(r.typeless && r.optional)
    && (w.code == STRING ==> |w.value| < r.len)
    && |r.elts| == |w.elts|
    && forall i :: 0 <= i < |w.elts| ==> Fits(w.elts[i], r.elts[i]) && r.elts[i].name == w.elts[i].name
  }

  // ----- Reading back

  lemma CharsAre(e: Elt)
    requires e.code == STRING && Writable(e)
    ensures Chars(e) == e.value
  {
    assert e.value[..|e.value|] == e.value;
  }

  lemma KeyIs(name: seq<byte>)
    requires |name| < TWO16
    ensures Key(name) == name
  {
  }

  // What the reader does, named so that it is not unfolded where it is only passed on.

  ghost predicate ReadsOne(e: Elt, s: seq<byte>, x: Elt, rest: seq<byte>) {
    forall k: int {:trigger Unfold(k)} :: Unfold(k) ==> ReadOne(Some(e), s) == Next(Some(x), rest)
  }

  ghost predicate ReadsContent(e: Elt, code: nat, s: seq<byte>, x: Elt, rest: seq<byte>) {
    forall k: int {:trigger Unfold(k)} :: Unfold(k) ==> Content(Some(e), true, code, s) == Next(Some(x), rest)
  }

  ghost predicate ReadsFields(elts: seq<Elt>, s: seq<byte>, xs: seq<Elt>, rest: seq<byte>) {
    forall k: int {:trigger Unfold(k)} :: Unfold(k) ==> ReadObject(elts, s) == Done(xs, rest)
  }

  ghost predicate ReadsItems(elts: seq<Elt>, len: nat, n: nat, s: seq<byte>, xs: seq<Elt>, rest: seq<byte>) {
    forall k: int {:trigger Unfold(k)} :: Unfold(k) ==> ReadArray(elts, len, n, s) == Done(xs, rest)
  }

  lemma TypeByte(e: Elt, s: seq<byte>)
    requires !e.typeless && !e.context && e.data && s != [] && Compatible(e.code % 256, s[0])
    ensures ReadOne(Some(e), s) == Content(Some(e), true, s[0], s[1..])
  {
  }

  lemma NoTypeByte(e: Elt, t: seq<byte>)
    requires e.typeless && e.data && !e.optional && !e.context
    ensures ReadOne(Some(e), t) == Content(Some(e), true, e.code, t)
  {
  }

  lemma ReadTyped(e: Elt, code: nat, t: seq<byte>, x: Elt, tail: seq<byte>)
    requires ReadsContent(e, code, t, x, tail) && e.data && !e.context
    requires if e.typeless then !e.optional && code == e.code
             else e.code < 256 && code < 256 && (e.code == code || (Keyed(e.code) && Keyed(code)))
    ensures ReadsOne(e, if e.typeless then t else [code] + t, x, tail)
  {
    if e.typeless {
      NoTypeByte(e, t);
    } else {
      assert ([code] + t)[1..] == t;
      TypeByte(e, [code] + t);
    }
    assert Unfold(0);
  }

  lemma EncodedWith(w: Elt, tail: seq<byte>)
    requires w.typeless || w.code < 256
    ensures Encode(w) + tail == if w.typeless then Body(w) + tail else [w.code] + (Body(w) + tail)
  {
    if w.typeless {
      assert Encode(w) == Body(w);
    }
  }

  lemma ThreeParts(h: seq<byte>, key: seq<byte>, enc: seq<byte>)
    requires |h| == 2
    ensures var s, n := h + (key + enc), |key|;
            s[0] == h[0] && s[1] == h[1] && s[2..2 + n] == key && s[2 + n..] == enc
  {
    assert h + (key + enc) == h + key + enc;
  }

  lemma FieldSplit(key: seq<byte>, enc: seq<byte>)
    requires |key| < TWO16
    ensures var s, n := Be16(|key|) + (key + enc), |key|;
            && |s| >= 2 + n && OfBe16(s[0], s[1]) == n && s[2..2 + n] == key && s[2 + n..] == enc
  {
    Be16RoundTrip(|key|);
    ThreeParts(Be16(|key|), key, enc);
  }

  lemma FieldStep(elts: seq<Elt>, s: seq<byte>, n: nat, x: Elt, rest: seq<byte>)
    requires |s| >= 2 && n < |elts|
    requires var len := OfBe16(s[0], s[1]);
             0 < len <= |s| - 2 && FindName(elts, s[2..2 + len]) == n
                 && ReadOne(Some(elts[n]), s[2 + len..]) == Next(Some(x), rest)
    ensures ReadObject(elts, s) == ReadObject(elts[n := x], rest)
  {
  }

  lemma ReadField(elts: seq<Elt>, n: nat, key: seq<byte>, enc: seq<byte>, rest: seq<byte>, x: Elt, xs: seq<Elt>,
                  tail: seq<byte>)
    requires 0 < |key| < TWO16 && FindName(elts, key) == n < |elts|
    requires ReadsOne(elts[n], enc, x, rest) && ReadsFields(elts[n := x], rest, xs, tail)
    ensures ReadsFields(elts, Be16(|key|) + (key + enc), xs, tail)
  {
    var s := Be16(|key|) + (key + enc);
    FieldSplit(key, enc);
    assert ReadObject(elts, s) == ReadObject(elts[n := x], rest) by {
      assert Unfold(0);
      FieldStep(elts, s, n, x, rest);
    }
    assert Unfold(0);
  }

  lemma ReadObjectEnd(elts: seq<Elt>, tail: seq<byte>)
    ensures ReadsFields(elts, [0, 0, END] + tail, elts, tail)
  {
    assert ([0, 0, END] + tail)[3..] == tail;
  }

  lemma ReadKeyed(e: Elt, code: nat, s: seq<byte>, xs: seq<Elt>, tail: seq<byte>)
    requires Keyed(code) && ReadsFields(e.elts, s, xs, tail)
    ensures ReadsContent(e, code, (if code == MIXED_ARRAY then [0, 0, 0, 0] else []) + s, e.(elts := xs), tail)
  {
    assert Unfold(0);
    assert ([0, 0, 0, 0] + s)[4..] == s;
    assert [] + s == s;
  }

  lemma ReadItem(elts: seq<Elt>, len: nat, n: nat, s: seq<byte>, x: Elt, rest: seq<byte>, xs: seq<Elt>, tail: seq<byte>)
    requires n < len && n < |elts| && ReadsOne(elts[n], s, x, rest)
             && ReadsItems(elts[n := x], len, n + 1, rest, xs, tail)
    ensures ReadsItems(elts, len, n, s, xs, tail)
  {
    assert Unfold(0);
  }

  lemma ReadCounted(e: Elt, n: nat, s: seq<byte>, xs: seq<Elt>, tail: seq<byte>)
    requires n < TWO32 && ReadsItems(e.elts, n, 0, s, xs, tail)
    ensures ReadsContent(e, ARRAY, Be32(n) + s, e.(elts := xs), tail)
  {
    assert Unfold(0);
    var t := Be32(n) + s;
    Be32RoundTrip(n);
    assert t[0] == Be32(n)[0] && t[1] == Be32(n)[1] && t[2] == Be32(n)[2] && t[3] == Be32(n)[3];
    assert t[4..] == s;
  }

  ghost function Spelled(w: Elt, tail: seq<byte>): seq<byte> {
    Encode(w) + tail
  }

  /** One element, spelled by `s`, is restored. */
  lemma {:induction false} OneRoundTrip(w: Elt, r: Elt, tail: seq<byte>) returns (s: seq<byte>, x: Elt)
    requires Writable(w) && Fits(w, r)
    ensures s == Spelled(w, tail) && ReadsOne(r, s, x, tail)
    ensures View(x) == View(w) && x.name == r.name
    decreases w, 2
  {
    var body;
    body, x := BodyRoundTrip(w, r, tail);
    ReadTyped(r, w.code, body, x, tail);
    EncodedWith(w, tail);
    s := if w.typeless then body else [w.code] + body;
  }

  lemma {:induction false} BodyRoundTrip(w: Elt, r: Elt, tail: seq<byte>) returns (s: seq<byte>, x: Elt)
    requires Writable(w) && Fits(w, r)
    ensures s == Body(w) + tail && ReadsContent(r, w.code, s, x, tail)
    ensures View(x) == View(w) && x.name == r.name
    decreases w, 1
  {
    s := Body(w) + tail;
    if w.code in {NULL, ARRAY_NULL} {
      x := r;
      assert s == tail;
    } else if w.code == STRING {
      x := TextRoundTrip(w, r, tail, s);
    } else if w.code == ARRAY {
      s, x := ArrayRoundTrip(w, r, tail);
    } else if Keyed(w.code) {
      s, x := ObjectRoundTrip(w, r, tail);
    } else {
      x := r.(value := w.value);
      ScalarRoundTrip(w, r, tail);
    }
  }

  lemma ScalarRoundTrip(w: Elt, r: Elt, tail: seq<byte>)
    requires Writable(w) && w.code in {NUMBER, BOOLEAN, INT8, INT16, INT32}
    ensures Content(Some(r), true, w.code, Body(w) + tail) == Next(Some(r.(value := w.value)), tail)
  {
    var s := Body(w) + tail;
    var n := |w.value|;
    ReverseTwice(w.value);
    assert s[..n] == Body(w) && s[n..] == tail;
  }

  lemma TextRoundTrip(w: Elt, r: Elt, tail: seq<byte>, s: seq<byte>) returns (x: Elt)
    requires Writable(w) && Fits(w, r) && w.code == STRING && s == Body(w) + tail
    ensures ReadsContent(r, w.code, s, x, tail)
    ensures View(x) == View(w) && x.name == r.name
  {
    CharsAre(w);
    var n := |w.value|;
    Be16RoundTrip(n);
    assert s[0] == Be16(n)[0] && s[1] == Be16(n)[1];
    assert s[2..2 + n] == w.value && s[2 + n..] == tail;
    x := r.(value := w.value);
  }

  lemma {:induction false} SameNameIsReflexive(a: seq<byte>)
    ensures SameName(a, a)
  {
    if a != [] {
      SameNameIsReflexive(a[1..]);
    }
  }

  /** The written tree `ws` and descriptors `rs` of which the first `k` have been filled. */
  ghost predicate Filled(ws: seq<Elt>, rs: seq<Elt>, k: nat) {
    && |rs| == |ws| && k <= |ws|
    && (forall i :: 0 <= i < |ws| ==> Writable(ws[i]) && rs[i].name == ws[i].name)
    && (forall i :: 0 <= i < k ==> View(rs[i]) == View(ws[i]))
    && (forall i :: k <= i < |ws| ==> Fits(ws[i], rs[i]))
  }

  lemma FilledNext(ws: seq<Elt>, rs: seq<Elt>, k: nat, x: Elt)
    requires Filled(ws, rs, k) && k < |ws| && View(x) == View(ws[k]) && x.name == ws[k].name
    ensures Filled(ws, rs[k := x], k + 1)
  {
  }

  lemma FindsField(ws: seq<Elt>, rs: seq<Elt>, k: nat)
    requires Filled(ws, rs, k) && k < |ws| && Distinct(ws)
    ensures FindName(rs, ws[k].name) == k
  {
    var n := FindName(rs, ws[k].name);
    SameNameIsReflexive(ws[k].name);
    assert forall i {:trigger rs[i]} :: 0 <= i < k ==> !SameName(ws[k].name, rs[i].name);
  }

  /** The fields from `k` on, the end of the object, and what follows. */
  ghost function FieldsFrom(ws: seq<Elt>, k: nat, tail: seq<byte>): seq<byte>
    requires k <= |ws|
  {
    EncodeFields(ws[k..]) + ([0, 0, END] + tail)
  }

  /** The fields from `k` on, spelled by `s`, are restored. */
  lemma {:induction false} FieldsRoundTrip(ws: seq<Elt>, rs: seq<Elt>, k: nat, tail: seq<byte>)
    returns (s: seq<byte>, xs: seq<Elt>)
    requires Filled(ws, rs, k) && Distinct(ws) && forall i :: 0 <= i < |ws| ==> 0 < |ws[i].name| < TWO16
    ensures s == FieldsFrom(ws, k, tail) && ReadsFields(rs, s, xs, tail)
    ensures Filled(ws, xs, |ws|)
    decreases ws, |ws| - k
  {
    if k == |ws| {
      s, xs := [0, 0, END] + tail, rs;
      ReadObjectEnd(rs, tail);
      assert ws[k..] == [];
    } else {
      var w := ws[k];
      FindsField(ws, rs, k);
      var rest := FieldsFrom(ws, k + 1, tail);
      var enc, x := OneRoundTrip(w, rs[k], rest);
      FilledNext(ws, rs, k, x);
      var more;
      more, xs := FieldsRoundTrip(ws, rs[k := x], k + 1, tail);
      s := Be16(|w.name|) + (w.name + enc);
      ReadField(rs, k, w.name, enc, rest, x, xs, tail);
      FieldsStep(ws, k, tail);
    }
  }

  lemma FieldsStep(ws: seq<Elt>, k: nat, tail: seq<byte>)
    requires k < |ws| && |ws[k].name| < TWO16
    ensures var w := ws[k];
            FieldsFrom(ws, k, tail) == Be16(|w.name|) + (w.name + Spelled(w, FieldsFrom(ws, k + 1, tail)))
  {
    var w := ws[k];
    assert ws[k..][0] == w && ws[k..][1..] == ws[k + 1..];
    KeyIs(w.name);
    FieldAssoc(Be16(|w.name|), w.name, Encode(w), EncodeFields(ws[k + 1..]), [0, 0, END] + tail);
  }

  lemma FieldAssoc(a: seq<byte>, b: seq<byte>, c: seq<byte>, d: seq<byte>, e: seq<byte>)
    ensures a + (b + (c + d)) + e == a + (b + (c + (d + e))) && a + b + c + d + e == a + (b + (c + (d + e)))
    ensures a + b + (c + d) + e == a + (b + (c + (d + e))) && a + (b + c) + d + e == a + (b + (c + (d + e)))
    ensures (a + b + c) + (d + e) == a + (b + (c + (d + e)))
  {
  }

  lemma FilledIsView(w: Elt, r: Elt, xs: seq<Elt>)
    requires (Keyed(r.code) && Keyed(w.code)) || r.code == w.code == ARRAY
    requires Filled(w.elts, xs, |w.elts|)
    ensures View(r.(elts := xs)) == View(w)
  {
    assert Names(xs) == Names(w.elts);
    assert Views(xs) == Views(w.elts);
  }

  lemma {:induction false} ObjectRoundTrip(w: Elt, r: Elt, tail: seq<byte>) returns (s: seq<byte>, x: Elt)
    requires Writable(w) && Fits(w, r) && Keyed(w.code)
    ensures s == Body(w) + tail && ReadsContent(r, w.code, s, x, tail)
    ensures View(x) == View(w) && x.name == r.name
    decreases w, 0
  {
    var f, xs := FieldsRoundTrip(w.elts, r.elts, 0, tail);
    x := r.(elts := xs);
    FilledIsView(w, r, xs);
    KeyedBody(w, tail);
    s := (if w.code == MIXED_ARRAY then [0, 0, 0, 0] else []) + f;
    ReadKeyed(r, w.code, f, xs, tail);
  }

  lemma KeyedBody(w: Elt, tail: seq<byte>)
    requires Keyed(w.code)
    ensures Body(w) + tail
            == (if w.code == MIXED_ARRAY then [0, 0, 0, 0] else []) + (EncodeFields(w.elts[0..]) + ([0, 0, END] + tail))
  {
    assert w.elts[0..] == w.elts;
  }

  /** The items from `k` on, spelled by `s`, are restored. */
  lemma {:induction false} ItemsRoundTrip(ws: seq<Elt>, rs: seq<Elt>, k: nat, tail: seq<byte>)
    returns (s: seq<byte>, xs: seq<Elt>)
    requires Filled(ws, rs, k)
    ensures s == EncodeAll(ws[k..]) + tail && ReadsItems(rs, |ws|, k, s, xs, tail)
    ensures Filled(ws, xs, |ws|)
    decreases ws, |ws| - k
  {
    if k == |ws| {
      assert EncodeAll(ws[k..]) + tail == tail;
      s, xs := tail, rs;
    } else {
      var rest := EncodeAll(ws[k + 1..]) + tail;
      var x;
      s, x := OneRoundTrip(ws[k], rs[k], rest);
      FilledNext(ws, rs, k, x);
      var more;
      more, xs := ItemsRoundTrip(ws, rs[k := x], k + 1, tail);
      ReadItem(rs, |ws|, k, s, x, rest, xs, tail);
      ItemsStep(ws, k, tail);
    }
  }

  lemma ItemsStep(ws: seq<Elt>, k: nat, tail: seq<byte>)
    requires k < |ws|
    ensures EncodeAll(ws[k..]) + tail == Encode(ws[k]) + (EncodeAll(ws[k + 1..]) + tail)
  {
    assert ws[k..][0] == ws[k] && ws[k..][1..] == ws[k + 1..];
    Assoc(Encode(ws[k]), EncodeAll(ws[k + 1..]), tail);
  }

  lemma {:induction false} ArrayRoundTrip(w: Elt, r: Elt, tail: seq<byte>) returns (s: seq<byte>, x: Elt)
    requires Writable(w) && Fits(w, r) && w.code == ARRAY
    ensures s == Body(w) + tail && ReadsContent(r, w.code, s, x, tail)
    ensures View(x) == View(w) && x.name == r.name
    decreases w, 0
  {
    var f, xs := ItemsRoundTrip(w.elts, r.elts, 0, tail);
    x := r.(elts := xs);
    FilledIsView(w, r, xs);
    ArrayBody(w, tail);
    s := Be32(|w.elts|) + f;
    ReadCounted(r, |w.elts|, f, xs, tail);
  }

  lemma ArrayBody(w: Elt, tail: seq<byte>)
    requires w.code == ARRAY && |w.elts| < TWO32
    ensures Body(w) + tail == Be32(|w.elts|) + (EncodeAll(w.elts[0..]) + tail)
  {
    assert w.elts[0..] == w.elts;
  }

  /** The last alternative of exactly this type, without flags. */
  ghost predicate Alternative(elts: seq<Elt>, n: nat, code: nat) {
    && n < |elts| && Matches(elts[n], code)
    && forall i :: n < i < |elts| ==> !Matches(elts[i], code)
  }

  ghost predicate Matches(e: Elt, code: nat) {
    e.code == code && !e.optional && !e.typeless && !e.context
  }

  lemma {:induction false} PicksAlternative(elts: seq<Elt>, n: nat, code: nat)
    requires Alternative(elts, n, code)
    ensures PickVariant(elts, code) == n
    decreases |elts|
  {
    var m := |elts| - 1;
    if n < m {
      assert !Matches(elts[m], code);
      PicksAlternative(elts[..m], n, code);
    }
  }

  lemma {:induction false} PicksNone(elts: seq<Elt>, code: nat)
    requires forall i :: 0 <= i < |elts| ==> !Matches(elts[i], code)
    ensures PickVariant(elts, code) == |elts|
    decreases |elts|
  {
    if elts != [] {
      assert !Matches(elts[|elts| - 1], code);
      PicksNone(elts[..|elts| - 1], code);
    }
  }

  /** A written element is restored in the alternative of its type; the other alternatives stay. */
  lemma VariantRoundTrip(v: Elt, w: Elt, n: nat, tail: seq<byte>) returns (x: Elt)
    requires v.code == 0x103 && v.typeless && v.data && !v.optional && !v.context
    requires Writable(w) && !w.typeless && Alternative(v.elts, n, w.code) && Fits(w, v.elts[n])
    ensures ReadOne(Some(v), Encode(w) + tail) == Next(Some(v.(elts := v.elts[n := x])), tail)
    ensures View(x) == View(w)
  {
    var body;
    body, x := BodyRoundTrip(w, v.elts[n], tail);
    PicksAlternative(v.elts, n, w.code);
    EncodedWith(w, tail);
    var s := Encode(w) + tail;
    assert s[0] == w.code && s[1..] == body;
    VariantReads(v, n, x, s, tail);
  }

  lemma VariantReads(v: Elt, n: nat, x: Elt, s: seq<byte>, tail: seq<byte>)
    requires v.code == 0x103 && v.typeless && v.data && !v.optional && !v.context && s != []
    requires PickVariant(v.elts, s[0]) == n < |v.elts| && v.elts[n].data
    requires ReadsContent(v.elts[n], s[0], s[1..], x, tail)
    ensures ReadOne(Some(v), s) == Next(Some(v.(elts := v.elts[n := x])), tail)
  {
    assert Content(Some(v.elts[n]), true, s[0], s[1..]) == Next(Some(x), tail) by {
      assert Unfold(0);
    }
    assert ReadOne(Some(v), s) == ReadVariant(Some(v), true, s);
  }

  /** An element of a type for which there is no alternative is read and forgotten. */
  lemma VariantForgets(v: Elt, s: seq<byte>)
    requires v.code == 0x103 && v.typeless && v.data && !v.optional && !v.context && s != []
    requires forall i :: 0 <= i < |v.elts| ==> !Matches(v.elts[i], s[0])
    ensures ReadOne(Some(v), s).Fail? || ReadOne(Some(v), s).elt == Some(v)
  {
    PicksNone(v.elts, s[0]);
    assert ReadOne(Some(v), s) == ReadVariant(Some(v), true, s);
  }

  /** With fewer elements than descriptors and an end marker (9) behind them, the other descriptors stay. */
  lemma {:induction false} RoundTripShort(ws: seq<Elt>, rs: seq<Elt>, tail: seq<byte>) returns (xs: seq<Elt>)
    requires |rs| > |ws| && forall i :: 0 <= i < |ws| ==> Writable(ws[i]) && Fits(ws[i], rs[i])
    requires !rs[|ws|].typeless
    ensures ReadList(rs, EncodeAll(ws) + ([9] + tail)) == Done(xs + rs[|ws|..], tail)
    ensures |xs| == |ws| && Views(xs) == Views(ws)
    decreases |ws|
  {
    var end := [9] + tail;
    if ws == [] {
      xs := [];
      assert EncodeAll(ws) + end == end && end[1..] == tail;
      assert ReadOne(Some(rs[0]), end) == Stop(Some(rs[0]), tail);
      assert [rs[0]] + rs[1..] == rs && [] + rs[0..] == rs;
    } else {
      Assoc(Encode(ws[0]), EncodeAll(ws[1..]), end);
      var s, x := OneRoundTrip(ws[0], rs[0], EncodeAll(ws[1..]) + end);
      assert ReadOne(Some(rs[0]), s) == Next(Some(x), EncodeAll(ws[1..]) + end) by {
        assert Unfold(0);
      }
      var more := RoundTripShort(ws[1..], rs[1..], tail);
      xs := [x] + more;
      assert rs[1..][|ws| - 1..] == rs[|ws|..] && [x] + (more + rs[|ws|..]) == xs + rs[|ws|..];
    }
  }

  /** Where the bytes end, an OPTIONAL descriptor ends the list, and another one is an error. */
  lemma {:induction false} RoundTripOptional(ws: seq<Elt>, rs: seq<Elt>) returns (xs: seq<Elt>)
    requires |rs| > |ws| && forall i :: 0 <= i < |ws| ==> Writable(ws[i]) && Fits(ws[i], rs[i])
    requires !rs[|ws|].typeless
    ensures ReadList(rs, EncodeAll(ws)) == if rs[|ws|].optional then Done(xs + rs[|ws|..], []) else FailAll
    ensures |xs| == |ws| && Views(xs) == Views(ws)
    decreases |ws|
  {
    if ws == [] {
      xs := [];
      assert [rs[0]] + rs[1..] == rs && [] + rs[0..] == rs;
    } else {
      var s, x := OneRoundTrip(ws[0], rs[0], EncodeAll(ws[1..]));
      assert ReadOne(Some(rs[0]), s) == Next(Some(x), EncodeAll(ws[1..])) by {
        assert Unfold(0);
      }
      var more := RoundTripOptional(ws[1..], rs[1..]);
      xs := [x] + more;
      assert rs[1..][|ws| - 1..] == rs[|ws|..] && [x] + (more + rs[|ws|..]) == xs + rs[|ws|..];
    }
  }

  /** Writing a list of elements and reading it back restores every tree and stops where the writer stopped. */
  lemma {:induction false} RoundTrip(ws: seq<Elt>, rs: seq<Elt>, tail: seq<byte>) returns (xs: seq<Elt>)
    requires |rs| == |ws| && forall i :: 0 <= i < |ws| ==> Writable(ws[i]) && Fits(ws[i], rs[i])
    ensures ReadList(rs, EncodeAll(ws) + tail) == Done(xs, tail)
    ensures Views(xs) == Views(ws)
    decreases |ws|
  {
    if ws == [] {
      xs := [];
    } else {
      Assoc(Encode(ws[0]), EncodeAll(ws[1..]), tail);
      var s, x := OneRoundTrip(ws[0], rs[0], EncodeAll(ws[1..]) + tail);
      assert Unfold(0);
      var more := RoundTrip(ws[1..], rs[1..], tail);
      xs := [x] + more;
    }
  }
}
