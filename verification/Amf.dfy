/**
  * The AMF0 reader and writer of ngx_rtmp_amf.c on flat bytes (section 2 of the AMF 0 Specification).
  * Both are driven by descriptors; a descriptor carries the memory it points to.
  */
module Amf {
  import opened Bytes

  const NUMBER := 0
  const BOOLEAN := 1
  const STRING := 2
  const OBJECT := 3
  const NULL := 5
  const ARRAY_NULL := 6
  const MIXED_ARRAY := 8
  const END := 9
  const ARRAY := 10
  const INT8 := 0x100
  const INT16 := 0x101
  const INT32 := 0x102
  const VARIANT := 0x103

  /**
    * A descriptor: a type code and flags, a name, and whether it has data. `value` is the memory of a scalar or of a
    * string with room for `len` bytes; `elts` are the descriptors that the data of a container consists of.
    */
  datatype Elt = Elt(code: nat, optional: bool, typeless: bool, context: bool, name: seq<byte>,
                     data: bool, len: nat, value: seq<byte>, elts: seq<Elt>)

  /** `Next` goes on to the next element, `Stop` ends the whole call successfully. */
  datatype Read = Fail | Next(elt: Option<Elt>, rest: seq<byte>) | Stop(elt: Option<Elt>, rest: seq<byte>)

  datatype ReadAll = FailAll | Done(elts: seq<Elt>, rest: seq<byte>)

  function Reverse(s: seq<byte>): (r: seq<byte>)
    ensures |r| == |s| && forall i :: 0 <= i < |s| ==> r[i] == s[|s| - 1 - i]
  {
    seq(|s|, i requires 0 <= i < |s| => s[|s| - 1 - i])
  }

  lemma ReverseTwice(s: seq<byte>)
    ensures Reverse(Reverse(s)) == s
  {
  }

  predicate Compatible(a: nat, b: nat) {
    a == b || (a == OBJECT && b == MIXED_ARRAY) || (a == MIXED_ARRAY && b == OBJECT)
  }

  /** Key comparison: equal lengths, and equal up to the end or to a common NUL. */
  predicate SameName(a: seq<byte>, b: seq<byte>) {
    |a| == |b| && (a == [] || (a[0] == b[0] && (a[0] == 0 || SameName(a[1..], b[1..]))))
  }

  /** The first descriptor with this name, or the number of descriptors. */
  function FindName(elts: seq<Elt>, name: seq<byte>): (n: nat)
    ensures n <= |elts| && (n < |elts| ==> SameName(name, elts[n].name))
    ensures forall i :: 0 <= i < n ==> !SameName(name, elts[i].name)
  {
    if elts == [] || SameName(name, elts[0].name) then 0 else 1 + FindName(elts[1..], name)
  }

  /** The last descriptor of exactly this type, or the number of descriptors. */
  function PickVariant(elts: seq<Elt>, code: nat): (n: nat)
    ensures n <= |elts|
  {
    if elts == [] then 0
    else
      var last := elts[|elts| - 1];
      if last.code == code && !last.optional && !last.typeless && !last.context then |elts| - 1
      else
        var n := PickVariant(elts[..|elts| - 1], code);
        if n == |elts| - 1 then |elts| else n
  }

  // ----- Reading

  /** The element's memory after a scalar of these bytes was read. */
  function Stored(e: Option<Elt>, data: bool, bytes: seq<byte>): Option<Elt> {
    if e.Some? && data then Some(e.value.(value := bytes)) else e
  }

  function Scalar(e: Option<Elt>, data: bool, n: nat, reversed: bool, s: seq<byte>): Read {
    if |s| < n then Fail else Next(Stored(e, data, if reversed then Reverse(s[..n]) else s[..n]), s[n..])
  }

  /** Strings are cut to the room there is; one byte is kept for the final NUL. */
  function Text(e: Option<Elt>, data: bool, s: seq<byte>): Read {
    if |s| < 2 then Fail
    else
      var n := OfBe16(s[0], s[1]);
      if |s| < 2 + n then Fail
      else if e.Some? && data && e.value.len <= n then
        if e.value.len == 0 then Fail else Next(Stored(e, data, s[2..2 + (e.value.len - 1)]), s[2 + n..])
      else Next(Stored(e, data, s[2..2 + n]), s[2 + n..])
  }

  function Fields(e: Option<Elt>, data: bool): seq<Elt> {
    if e.Some? && data then e.value.elts else []
  }

  function Refilled(e: Option<Elt>, data: bool, r: ReadAll): Read {
    if r.FailAll? then Fail
    else Next(if e.Some? && data then Some(e.value.(elts := r.elts)) else e, r.rest)
  }

  /** One element; None reads and forgets. Another flag besides TYPELESS stays in the type, which is then unknown. */
  function ReadOne(e: Option<Elt>, s: seq<byte>): (r: Read)
    ensures r.Fail? || |r.rest| <= |s|
    ensures !r.Fail? && (e.None? || !e.value.typeless) && !(e.Some? && e.value.optional && s == []) ==> |r.rest| < |s|
    decreases |s|, 3, 0
  {
    if e.Some? && e.value.typeless then
      if e.value.optional || e.value.context then Fail else Content(e, e.value.data, e.value.code, s)
    else if s == [] then if e.Some? && e.value.optional then Stop(e, s) else Fail
    else
      Content(e, e.Some? && e.value.data && Compatible(e.value.code % 256, s[0]) && !e.value.context, s[0], s[1..])
  }

  function Content(e: Option<Elt>, data: bool, code: nat, s: seq<byte>): (r: Read)
    ensures r.Fail? || |r.rest| <= |s|
    decreases |s|, 2, 0
  {
    if code == NUMBER then Scalar(e, data, 8, true, s)
    else if code == BOOLEAN || code == INT8 then Scalar(e, data, 1, false, s)
    else if code == STRING then Text(e, data, s)
    else if code == NULL || code == ARRAY_NULL then Next(e, s)
    else if code == MIXED_ARRAY then if |s| < 4 then Fail else Refilled(e, data, ReadObject(Fields(e, data), s[4..]))
    else if code == OBJECT then Refilled(e, data, ReadObject(Fields(e, data), s))
    else if code == ARRAY then
      if |s| < 4 then Fail else Refilled(e, data, ReadArray(Fields(e, data), OfBe32(s[0], s[1], s[2], s[3]), 0, s[4..]))
    else if code == VARIANT then ReadVariant(e, data, s)
    else if code == INT16 then Scalar(e, data, 2, true, s)
    else if code == INT32 then Scalar(e, data, 4, true, s)
    else if code == END then Stop(e, s)
    else Fail
  }

  /** Keyed elements up to an empty key and an end marker; running out of bytes at a key also ends it. */
  function ReadObject(elts: seq<Elt>, s: seq<byte>): (r: ReadAll)
    ensures r.FailAll? || |r.rest| <= |s|
    decreases |s|, 1, 0
  {
    if |s| < 2 then Done(elts, s)
    else
      var len := OfBe16(s[0], s[1]);
      if len == 0 then if |s| < 3 || s[2] != END then FailAll else Done(elts, s[3..])
      else if |s| < 2 + len then FailAll
      else
        var n := FindName(elts, s[2..2 + len]);
        var r := ReadOne(if n < |elts| then Some(elts[n]) else None, s[2 + len..]);
        if r.Fail? then FailAll
        else ReadObject(if n < |elts| && r.elt.Some? then elts[n := r.elt.value] else elts, r.rest)
  }

  function ReadArray(elts: seq<Elt>, len: nat, n: nat, s: seq<byte>): (r: ReadAll)
    ensures r.FailAll? || |r.rest| <= |s|
    decreases |s|, 4, len - n
  {
    if n >= len then Done(elts, s)
    else
      var r := ReadOne(if n < |elts| then Some(elts[n]) else None, s);
      if r.Fail? then FailAll
      else ReadArray(if n < |elts| && r.elt.Some? then elts[n := r.elt.value] else elts, len, n + 1, r.rest)
  }

  /** The type byte says which of the alternatives is filled. */
  function ReadVariant(e: Option<Elt>, data: bool, s: seq<byte>): (r: Read)
    ensures r.Fail? || |r.rest| <= |s|
    decreases |s|, 1, 0
  {
    if s == [] then Fail
    else
      var elts := Fields(e, data);
      var n := PickVariant(elts, s[0]);
      var alternative := if n < |elts| then Some(elts[n]) else None;
      var r := Content(alternative, n < |elts| && elts[n].data, s[0], s[1..]);
      if r.Fail? then Fail
      else Next(if n < |elts| && r.elt.Some? then Some(e.value.(elts := elts[n := r.elt.value])) else e, r.rest)
  }

  /** ngx_rtmp_amf_read with a descriptor list. */
  function ReadList(elts: seq<Elt>, s: seq<byte>): ReadAll
    decreases |elts|
  {
    if elts == [] then Done([], s)
    else
      var r := ReadOne(Some(elts[0]), s);
      if r.Fail? then FailAll
      else
        var first := if r.elt.Some? then r.elt.value else elts[0];
        if r.Stop? then Done([first] + elts[1..], r.rest)
        else
          var more := ReadList(elts[1..], r.rest);
          if more.FailAll? then FailAll else Done([first] + more.elts, more.rest)
  }

  /** ngx_rtmp_amf_read without descriptors: what is left after `n` elements. */
  function SkipList(n: nat, s: seq<byte>): Option<seq<byte>> {
    if n == 0 then Some(s)
    else
      var r := ReadOne(None, s);
      if r.Fail? then None else if r.Stop? then Some(r.rest) else SkipList(n - 1, r.rest)
  }
}
