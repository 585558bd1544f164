/** Bytes, fixed-width unsigned integers and their wire encodings. */
module Bytes {
  const TWO16: int := 0x1_0000
  const TWO24: int := 0x100_0000
  const TWO32: int := 0x1_0000_0000
  const TWO64: int := 0x1_0000_0000_0000_0000

  type byte = x: int | 0 <= x < 256
  type uint32 = x: int | 0 <= x < 0x1_0000_0000

  /**
    * Marks an index that a proof is about.  Invariants quantify over marked indices, so that they are
    * used for the indices a proof names and for no others.
    */
  ghost predicate Known(k: int) { true }

  /**
    * Keeps a definition folded: a predicate whose body stands under `forall k {:trigger Unfold(k)} :: Unfold(k) ==>`
    * is used by its name, and only a proof that says `assert Unfold(0)` looks inside.
    */
  ghost predicate Unfold(k: int) { true }

  /** Marks a place of a list that a proof is about. */
  ghost predicate Slot(c: int, i: int) { true }

  /** Where a buffer sits: place `place` of list `list`. */
  datatype Home = Home(list: int, place: nat)

  datatype Option<+T> = None | Some(value: T)

  function Min(a: int, b: int): int {
    if a <= b then a else b
  }

  /** C's `uint32_t` addition. */
  function Add32(a: uint32, b: uint32): uint32 {
    (a + b) % TWO32
  }

  /** C's `uint32_t` subtraction. */
  function Sub32(a: uint32, b: uint32): uint32 {
    (a - b) % TWO32
  }

  lemma SubThenAdd32(a: uint32, b: uint32)
    ensures Add32(b, Sub32(a, b)) == a
  {
    if a >= b {
      assert Sub32(a, b) == a - b;
    } else {
      assert Sub32(a, b) == a - b + TWO32;
    }
  }

  lemma {:induction false} MulAtLeast(m: nat, q: nat)
    requires m >= 1
    ensures m * q >= q
    decreases m
  {
    if m > 1 {
      MulAtLeast(m - 1, q);
    }
  }

  lemma MulSign(m: int, q: nat)
    ensures m >= 1 ==> m * q >= q
    ensures m <= -1 ==> m * q + q <= 0
  {
    if m >= 1 {
      MulAtLeast(m, q);
    } else if m <= -1 {
      MulAtLeast(-m, q);
      assert (-m) * q == -(m * q);
    }
  }

  lemma ModUnique(x: int, k: int, q: nat, r: nat)
    requires q > 0 && r < q && x == k * q + r
    ensures x % q == r && x / q == k
  {
    var m := x / q - k;
    assert m * q == r - x % q;
    MulSign(m, q);
  }

  lemma SumWraps(a: nat, b: nat)
    ensures (a % TWO32 + b) % TWO32 == (a + b) % TWO32
  {
    var k, c := a / TWO32, a % TWO32 + b;
    var q, r := c / TWO32, c % TWO32;
    assert a + b == k * TWO32 + c && c == q * TWO32 + r;
    assert (k + q) * TWO32 == k * TWO32 + q * TWO32;
    ModUnique(a + b, k + q, TWO32, r);
  }

  lemma SmallMod(x: nat)
    requires x < TWO32
    ensures x % TWO32 == x
  {
  }

  lemma Add32Cases(a: uint32, b: uint32)
    ensures Add32(a, b) == if a + b < TWO32 then a + b else a + b - TWO32
  {
  }

  lemma Sub32Cases(a: uint32, b: uint32)
    ensures Sub32(a, b) == if a >= b then a - b else a - b + TWO32
  {
  }

  /** Moving one summand by the difference of two sums moves the sum from one to the other. */
  lemma Add32Moves(a: uint32, b: uint32, s: uint32, t: uint32)
    requires Add32(a, b) == s
    ensures Add32(Add32(a, Sub32(t, s)), b) == t && Add32(a, Add32(b, Sub32(t, s))) == t
  {
    var d := Sub32(t, s);
    Sub32Cases(t, s);
    Add32Cases(a, b);
    Add32Cases(a, d);
    Add32Cases(b, d);
    Add32Cases(Add32(a, d), b);
    Add32Cases(a, Add32(b, d));
  }

  function Be16(v: nat): seq<byte>
    requires v < TWO16
  {
    [v / 256, v % 256]
  }

  function Be24(v: nat): seq<byte>
    requires v < TWO24
  {
    [v / 65536, v / 256 % 256, v % 256]
  }

  function Be32(v: nat): seq<byte>
    requires v < TWO32
  {
    [v / 16777216, v / 65536 % 256, v / 256 % 256, v % 256]
  }

  function Le32(v: nat): seq<byte>
    requires v < TWO32
  {
    [v % 256, v / 256 % 256, v / 65536 % 256, v / 16777216]
  }

  function OfBe16(b0: byte, b1: byte): (v: nat)
    ensures v < TWO16
  {
    b0 * 256 + b1
  }

  function OfBe24(b0: byte, b1: byte, b2: byte): (v: nat)
    ensures v < TWO24
  {
    b0 * 65536 + b1 * 256 + b2
  }

  function OfBe32(b0: byte, b1: byte, b2: byte, b3: byte): (v: nat)
    ensures v < TWO32
  {
    b0 * 16777216 + b1 * 65536 + b2 * 256 + b3
  }

  /** Four bytes as a number, the heaviest one first. */
  ghost function Weigh(b3: int, b2: int, b1: int, b0: int): int {
    ((b3 * 256 + b2) * 256 + b1) * 256 + b0
  }

  /** The numbers in the bytes, whatever functions write and read them. */
  lemma BytesWeigh(v: nat)
    ensures v < TWO16 ==> |Be16(v)| == 2 && Weigh(0, 0, Be16(v)[0], Be16(v)[1]) == v
    ensures v < TWO24 ==> |Be24(v)| == 3 && Weigh(0, Be24(v)[0], Be24(v)[1], Be24(v)[2]) == v
    ensures v < TWO32 ==> |Be32(v)| == 4 && Weigh(Be32(v)[0], Be32(v)[1], Be32(v)[2], Be32(v)[3]) == v
    ensures v < TWO32 ==> |Le32(v)| == 4 && Weigh(Le32(v)[3], Le32(v)[2], Le32(v)[1], Le32(v)[0]) == v
  {
    if v < TWO24 {
      Be24RoundTrip(v);
    }
    if v < TWO32 {
      Be32RoundTrip(v);
      Le32RoundTrip(v);
    }
  }

  lemma ReadsWeigh(b3: byte, b2: byte, b1: byte, b0: byte)
    ensures OfBe16(b1, b0) == Weigh(0, 0, b1, b0) && OfBe24(b2, b1, b0) == Weigh(0, b2, b1, b0)
    ensures OfBe32(b3, b2, b1, b0) == Weigh(b3, b2, b1, b0)
  {
  }

  lemma Be16RoundTrip(v: nat)
    requires v < TWO16
    ensures OfBe16(Be16(v)[0], Be16(v)[1]) == v
  {
  }

  lemma Be24RoundTrip(v: nat)
    requires v < TWO24
    ensures OfBe24(Be24(v)[0], Be24(v)[1], Be24(v)[2]) == v
  {
    assert v / 65536 == v / 256 / 256;
    assert v / 256 == v / 256 / 256 * 256 + v / 256 % 256;
  }

  lemma Be32RoundTrip(v: nat)
    requires v < TWO32
    ensures OfBe32(Be32(v)[0], Be32(v)[1], Be32(v)[2], Be32(v)[3]) == v
  {
    assert v / 65536 == v / 256 / 256;
    assert v / 16777216 == v / 256 / 256 / 256;
    assert v / 256 == v / 65536 * 256 + v / 256 % 256;
    assert v / 65536 == v / 16777216 * 256 + v / 65536 % 256;
  }

  lemma Le32RoundTrip(v: nat)
    requires v < TWO32
    ensures OfBe32(Le32(v)[3], Le32(v)[2], Le32(v)[1], Le32(v)[0]) == v
  {
    Be32RoundTrip(v);
  }

  /** The concatenation of a sequence of byte strings. */
  function Concat(parts: seq<seq<byte>>): seq<byte> {
    if parts == [] then [] else parts[0] + Concat(parts[1..])
  }

  lemma {:induction false} ConcatAppend(a: seq<seq<byte>>, b: seq<seq<byte>>)
    ensures Concat(a + b) == Concat(a) + Concat(b)
  {
    if a == [] {
      assert a + b == b;
    } else {
      assert (a + b)[1..] == a[1..] + b;
      ConcatAppend(a[1..], b);
    }
  }

  lemma ConcatSnoc(a: seq<seq<byte>>, x: seq<byte>)
    ensures Concat(a + [x]) == Concat(a) + x
  {
    ConcatAppend(a, [x]);
    assert Concat([x]) == x + Concat([]);
  }

  lemma Assoc<T>(a: seq<T>, b: seq<T>, c: seq<T>)
    ensures a + b + c == a + (b + c)
  {
  }

  lemma SliceOfPrefix<T>(s: seq<T>, n: nat, i: nat, j: nat)
    requires i <= j <= n <= |s|
    ensures s[..n][i..j] == s[i..j]
  {
  }
}
