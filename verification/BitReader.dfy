/** ngx_rtmp_bitop.c: reading big-endian bit fields and Exp-Golomb codes (section 9.1 of ITU-T H.264). */
module BitReader {
  import opened Bytes

  type bit = n: nat | n < 2

  function Pow2(n: nat): (p: nat)
    ensures p > 0
  {
    if n == 0 then 1 else 2 * Pow2(n - 1)
  }

  // ----- Bits and the numbers they spell

  /** Bit `i` of a byte, the most significant first. */
  function BitOf(b: byte, i: nat): bit
    requires i < 8
  {
    b / Pow2(7 - i) % 2
  }

  function ByteBits(b: byte): (bits: seq<bit>)
    ensures |bits| == 8
  {
    seq(8, i requires 0 <= i < 8 => BitOf(b, i))
  }

  function Bits(data: seq<byte>): (bits: seq<bit>)
    ensures |bits| == 8 * |data|
  {
    if data == [] then [] else ByteBits(data[0]) + Bits(data[1..])
  }

  function Value(bits: seq<bit>): nat {
    if bits == [] then 0 else 2 * Value(bits[..|bits| - 1]) + bits[|bits| - 1]
  }

  lemma {:induction false} ValueBound(bits: seq<bit>)
    ensures Value(bits) < Pow2(|bits|)
  {
    if bits != [] {
      ValueBound(bits[..|bits| - 1]);
    }
  }

  lemma ValueSnoc(bits: seq<bit>, b: bit)
    ensures Value(bits + [b]) == 2 * Value(bits) + b
  {
    assert (bits + [b])[..|bits|] == bits;
  }

  /** A number shifted left by `n` bits. */
  function Shifted(a: nat, n: nat): nat {
    if n == 0 then a else 2 * Shifted(a, n - 1)
  }

  lemma {:induction false} ShiftedIs(a: nat, n: nat)
    ensures Shifted(a, n) == a * Pow2(n)
  {
    if n > 0 {
      ShiftedIs(a, n - 1);
      TwiceProduct(a, Pow2(n - 1));
    }
  }

  lemma TwiceProduct(a: nat, p: nat)
    ensures a * (2 * p) == 2 * (a * p)
  {
  }

  /** Reading two fields one after the other is reading one long field. */
  lemma {:induction false} ValueJoins(a: seq<bit>, b: seq<bit>)
    ensures Value(a + b) == Shifted(Value(a), |b|) + Value(b)
    decreases |b|
  {
    if b == [] {
      assert a + b == a;
    } else {
      var front, last := b[..|b| - 1], b[|b| - 1];
      assert a + b == (a + front) + [last];
      ValueSnoc(a + front, last);
      ValueJoins(a, front);
    }
  }

  // ----- Within one byte

  /** Bits `i` to `i + d - 1` of a byte, by shifting and masking. */
  function Field(b: byte, i: nat, d: nat): nat
    requires i + d <= 8
  {
    b / Pow2(8 - i - d) % Pow2(d)
  }

  lemma DivDiv(b: nat, p: nat, q: nat)
    requires p > 0 && q > 0
    ensures p * q > 0 && b / p / q == b / (p * q)
  {
    var x := b / p / q;
    var y := b % p + p * (b / p % q);
    assert b == p * (q * x + b / p % q) + b % p;
    assert p * (q * x + b / p % q) == (p * q) * x + p * (b / p % q) by {
      assert p * (q * x) == (p * q) * x;
    }
    assert b == (p * q) * x + y;
    assert 0 <= y < p * q by {
      var r := b / p % q;
      assert p * r <= p * (q - 1);
      assert p * (q - 1) == p * q - p;
    }
    ModUnique(b, x, p * q, y);
  }

  lemma HalfStep(c: nat, p: nat)
    requires p > 0
    ensures c % (2 * p) == 2 * (c / 2 % p) + c % 2
  {
    var q, r := c / 2 / p, c / 2 % p;
    assert c / 2 == q * p + r && q * (2 * p) == 2 * (q * p);
    ModUnique(c, q, 2 * p, 2 * r + c % 2);
  }

  /** One more bit: the field doubles and takes it. */
  lemma FieldStep(b: byte, i: nat, d: nat)
    requires i + d < 8
    ensures Field(b, i, d + 1) == 2 * Field(b, i, d) + ByteBits(b)[i + d]
  {
    var p := Pow2(7 - i - d);
    DivDiv(b, p, 2);
    FieldHalf(b, p, Pow2(d));
    assert Pow2(8 - i - d) == 2 * p && Pow2(d + 1) == 2 * Pow2(d);
  }

  lemma FieldHalf(b: nat, p: nat, q: nat)
    requires p > 0 && q > 0 && b / (p * 2) == b / p / 2
    ensures b / p % (2 * q) == 2 * (b / (2 * p) % q) + b / p % 2
  {
    HalfStep(b / p, q);
  }

  lemma {:induction false} FieldIsValue(b: byte, i: nat, d: nat)
    requires i + d <= 8
    ensures Field(b, i, d) == Value(ByteBits(b)[i..i + d])
    decreases d
  {
    if d > 0 {
      FieldIsValue(b, i, d - 1);
      FieldStep(b, i, d - 1);
      var bits := ByteBits(b);
      assert bits[i..i + d] == bits[i..i + (d - 1)] + [bits[i + (d - 1)]];
      ValueSnoc(bits[i..i + (d - 1)], bits[i + (d - 1)]);
    }
  }

  // ----- 64-bit accumulation

  /** Shifting in a field of `d` bits. */
  function Push(v: nat, d: nat, field: nat): nat {
    (v * Pow2(d) + field) % TWO64
  }

  lemma Append64(a: nat, p: nat, f: nat)
    ensures (a % TWO64 * p + f) % TWO64 == (a * p + f) % TWO64
  {
    var q := a / TWO64;
    assert a == q * TWO64 + a % TWO64;
    var x := a % TWO64 * p + f;
    assert a * p + f == (q * p) * TWO64 + x by {
      assert (q * TWO64) * p == (q * p) * TWO64;
    }
    ModUnique(a * p + f, q * p + x / TWO64, TWO64, x % TWO64);
  }

  /** The number that bits spell, in 64 bits. */
  function Value64(bits: seq<bit>): nat {
    Value(bits) % TWO64
  }

  lemma PushIsValue(got: seq<bit>, more: seq<bit>, field: nat)
    requires field == Value(more)
    ensures Push(Value64(got), |more|, field) == Value64(got + more)
  {
    ValueJoins(got, more);
    ShiftedIs(Value(got), |more|);
    Append64(Value(got), Pow2(|more|), Value(more));
  }

  // ----- The reader

  /** The bits not yet read. */
  ghost function RestOf(data: seq<byte>, pos: nat, offs: nat): seq<bit> {
    if pos < |data| && offs < 8 then ByteBits(data[pos])[offs..] + Bits(data[pos + 1..]) else []
  }

  lemma SplitMiddle(bits: seq<bit>, i: nat, j: nat, more: seq<bit>)
    requires i <= j <= |bits|
    ensures bits[i..] + more == bits[i..j] + (bits[j..] + more)
  {
    assert bits[i..] == bits[i..j] + bits[j..];
  }

  lemma RestWithin(data: seq<byte>, pos: nat, offs: nat, d: nat)
    requires pos < |data| && offs + d < 8
    ensures RestOf(data, pos, offs) == ByteBits(data[pos])[offs..offs + d] + RestOf(data, pos, offs + d)
  {
    SplitMiddle(ByteBits(data[pos]), offs, offs + d, Bits(data[pos + 1..]));
  }

  lemma RestStarts(data: seq<byte>, pos: nat)
    ensures pos <= |data| ==> RestOf(data, pos, 0) == Bits(data[pos..])
  {
    if pos < |data| {
      assert data[pos..][0] == data[pos] && data[pos..][1..] == data[pos + 1..];
      assert ByteBits(data[pos])[0..] == ByteBits(data[pos]);
    }
  }

  lemma RestBeyond(data: seq<byte>, pos: nat, offs: nat)
    requires pos < |data| && offs < 8
    ensures RestOf(data, pos, offs) == ByteBits(data[pos])[offs..8] + RestOf(data, pos + 1, 0)
  {
    RestStarts(data, pos + 1);
    assert ByteBits(data[pos])[offs..] == ByteBits(data[pos])[offs..8];
  }

  /** `got` has been read off the front of `all`. */
  ghost predicate Taken(data: seq<byte>, pos: nat, offs: nat, got: seq<bit>, all: seq<bit>) {
    forall k: int {:trigger Unfold(k)} :: Unfold(k) ==> all == got + RestOf(data, pos, offs)
  }

  lemma TakeField(data: seq<byte>, pos: nat, offs: nat, got: seq<bit>, all: seq<bit>, d: nat)
    requires pos < |data| && offs < 8 && offs + d <= 8 && Taken(data, pos, offs, got, all)
    ensures var more := ByteBits(data[pos])[offs..offs + d];
            && |got + more| == |got| + d
            && if offs + d == 8 then Taken(data, pos + 1, 0, got + more, all)
                else Taken(data, pos, offs + d, got + more, all)
  {
    assert Unfold(0);
    var more := ByteBits(data[pos])[offs..offs + d];
    if offs + d == 8 {
      RestBeyond(data, pos, offs);
      Assoc(got, more, RestOf(data, pos + 1, 0));
    } else {
      RestWithin(data, pos, offs, d);
      Assoc(got, more, RestOf(data, pos, offs + d));
    }
  }

  lemma TakenIs(data: seq<byte>, pos: nat, offs: nat, got: seq<bit>, all: seq<bit>)
    requires Taken(data, pos, offs, got, all)
    ensures |got| <= |all| && all[..|got|] == got && all[|got|..] == RestOf(data, pos, offs)
    ensures pos >= |data| ==> all == got && RestOf(data, pos, offs) == []
  {
    assert Unfold(0);
  }

  lemma TakeNone(data: seq<byte>, pos: nat, offs: nat)
    ensures Taken(data, pos, offs, [], RestOf(data, pos, offs))
  {
  }

  /** The value of the next `n` bits and where reading goes on, or nothing when there are fewer. */
  method Pull(data: seq<byte>, pos0: nat, offs0: nat, n: nat) returns (ok: bool, v: nat, pos: nat, offs: nat)
    requires offs0 < 8
    ensures offs < 8 && (ok <==> n <= |RestOf(data, pos0, offs0)|)
    ensures ok ==>
              RestOf(data, pos, offs) == RestOf(data, pos0, offs0)[n..] && v == Value64(RestOf(data, pos0, offs0)[..n])
    ensures !ok ==> RestOf(data, pos, offs) == [] && v == 0
  {
    pos, offs, v := pos0, offs0, 0;
    var left: nat := n;
    ghost var all, got: seq<bit> := RestOf(data, pos0, offs0), [];
    TakeNone(data, pos, offs);
    while left > 0 && pos < |data|
      invariant offs < 8 && |got| + left == n
      invariant v == Value64(got) && Taken(data, pos, offs, got, all)
      decreases left
    {
      var d: nat := if offs + left > 8 then 8 - offs else left;
      v, pos, offs, got := PullField(data, pos, offs, d, v, got, all);
      left := left - d;
    }
    TakenIs(data, pos, offs, got, all);
    ok := left == 0;
    if !ok {
      v := 0;
    }
  }

  /** Shifts in the next `d` bits of the current byte. */
  method PullField(data: seq<byte>, pos0: nat, offs0: nat, d: nat, v0: nat, ghost got0: seq<bit>, ghost all: seq<bit>)
    returns (v: nat, pos: nat, offs: nat, ghost got: seq<bit>)
    requires pos0 < |data| && offs0 < 8 && offs0 + d <= 8 && v0 == Value64(got0) && Taken(data, pos0, offs0, got0, all)
    ensures offs < 8 && |got| == |got0| + d && v == Value64(got) && Taken(data, pos, offs, got, all)
  {
    ghost var more := ByteBits(data[pos0])[offs0..offs0 + d];
    FieldIsValue(data[pos0], offs0, d);
    PushIsValue(got0, more, Field(data[pos0], offs0, d));
    TakeField(data, pos0, offs0, got0, all, d);
    v, got := Push(v0, d, Field(data[pos0], offs0, d)), got0 + more;
    pos, offs := pos0, offs0 + d;
    if offs == 8 {
      pos, offs := pos + 1, 0;
    }
  }

  class Reader {
    const data: seq<byte>
    var pos: nat
    var offs: nat
    var err: bool

    ghost predicate Valid()
      reads this
    {
      offs < 8
    }

    ghost function Rest(): seq<bit>
      reads this
    {
      RestOf(data, pos, offs)
    }

    constructor (data: seq<byte>)
      ensures Valid() && Rest() == Bits(data) && !err
    {
      this.data := data;
      pos, offs, err := 0, 0, false;
      if data != [] {
        assert ByteBits(data[0])[0..] == ByteBits(data[0]);
      }
    }

    /** ngx_rtmp_bit_read: the next `n` bits as a number, modulo 2^64; when there are fewer, all are used up. */
    method Read(n: nat) returns (v: nat)
      requires Valid()
      modifies this
      ensures Valid()
      ensures n <= |old(Rest())| ==>
                Rest() == old(Rest())[n..] && err == old(err) && v == Value64(old(Rest())[..n])
      ensures n > |old(Rest())| ==> Rest() == [] && err && v == 0
    {
      var ok;
      ok, v, pos, offs := Pull(data, pos, offs, n);
      if !ok {
        err := true;
      }
    }

    /**
      * ngx_rtmp_bit_read_golomb: `n` zeros, a one, and `n` bits that say which of the 2^n codes it is. An earlier error
      * stays. Where ue(w) comes next, the result is w and the code is passed over.
      */
    method ReadGolomb() returns (v: nat, ghost n: nat)
      requires Valid()
      modifies this
      ensures Valid() && (old(err) ==> err)
      ensures !old(err) ==> (err <==> !HasCode(old(Rest())))
      ensures !err ==> CodeAt(old(Rest()), n) && Rest() == old(Rest())[2 * n + 1..]
      ensures !err && n < 64 ==> v == CodeValue(old(Rest()), n)
      ensures !old(err) ==> forall w: nat, tail: seq<bit> :: old(Rest()) == Ue(w) + tail && Log2(w + 1) < 64 ==>
                                !err && v == w && Rest() == tail
    {
      v, n := ReadCode();
      if !old(err) {
        UeFound(old(Rest()), n, v, err, Rest());
      }
    }

    /** The same, bit by bit. */
    method ReadCode() returns (v: nat, ghost n: nat)
      requires Valid()
      modifies this
      ensures Valid() && (old(err) ==> err)
      ensures !old(err) ==> (err <==> !HasCode(old(Rest())))
      ensures !err ==> CodeAt(old(Rest()), n) && Rest() == old(Rest())[2 * n + 1..]
      ensures !err && n < 64 ==> v == CodeValue(old(Rest()), n)
    {
      ghost var all := Rest();
      var zeros := CountZeros();
      n := zeros;
      CodeTail(all, n);
      var low := Read(zeros);
      v := (Pow2(zeros) + low - 1) % TWO64;
    }

    /** The number of zero bits before the next one bit, which is read too. */
    method CountZeros() returns (n: nat)
      requires Valid()
      modifies this
      ensures Valid() && (old(err) ==> err)
      ensures !old(err) ==> (err <==> !HasOne(old(Rest())))
      ensures !err ==> OneAfter(old(Rest()), n) && Rest() == old(Rest())[n + 1..]
    {
      ghost var all := Rest();
      n := 0;
      var one := Read(1);
      OneBit(all, 0);
      while one == 0 && !err
        invariant Valid() && (old(err) ==> err) && ZerosAfter(all, n)
        invariant !err ==> n < |all| && Rest() == all[n + 1..] && one == all[n]
        invariant err && !old(err) ==> n == |all|
        decreases !err, |Rest()|
      {
        n := n + 1;
        one := Read(1);
        OneBit(all, n);
      }
      OneOrNone(all, n);
    }
  }

  ghost predicate ZerosAfter(bits: seq<bit>, n: nat) {
    n <= |bits| && forall i :: 0 <= i < n ==> bits[i] == 0
  }

  ghost predicate OneAfter(bits: seq<bit>, n: nat) {
    ZerosAfter(bits, n) && n < |bits| && bits[n] == 1
  }

  /** A whole code with `n` leading zeros. */
  ghost predicate CodeAt(bits: seq<bit>, n: nat) {
    OneAfter(bits, n) && 2 * n + 1 <= |bits|
  }

  /** What the code with `n` leading zeros says. */
  ghost function CodeValue(bits: seq<bit>, n: nat): int
    requires CodeAt(bits, n)
  {
    Pow2(n) + Value(bits[n + 1..2 * n + 1]) - 1
  }

  lemma OneBit(all: seq<bit>, n: nat)
    requires n <= |all|
    ensures n < |all| ==> Value64(all[n..][..1]) == all[n] && all[n..][1..] == all[n + 1..]
  {
    if n < |all| {
      SliceTwice(all, n, n + 1);
      assert all[n..n + 1] == [] + [all[n]];
      ValueSnoc([], all[n]);
    }
  }

  ghost predicate HasOne(bits: seq<bit>) {
    exists m: nat :: OneAfter(bits, m)
  }

  ghost predicate HasCode(bits: seq<bit>) {
    exists m: nat :: CodeAt(bits, m)
  }

  lemma OneOrNone(bits: seq<bit>, n: nat)
    requires ZerosAfter(bits, n)
    ensures n == |bits| ==> !HasOne(bits)
    ensures n < |bits| && bits[n] == 1 ==> HasOne(bits) && OneAfter(bits, n)
  {
    if n < |bits| && bits[n] == 1 {
      assert OneAfter(bits, n);
    }
  }

  lemma SliceTwice(s: seq<bit>, i: nat, j: nat)
    requires i <= j <= |s|
    ensures s[i..][..j - i] == s[i..j] && s[i..][j - i..] == s[j..]
  {
  }

  lemma OnlyOne(bits: seq<bit>, n: nat)
    ensures OneAfter(bits, n) ==> forall m: nat :: OneAfter(bits, m) ==> m == n
  {
  }

  /** Whether a whole code is there, and what it says, once the zeros have been counted. */
  lemma CodeTail(all: seq<bit>, n: nat)
    ensures !HasOne(all) ==> !HasCode(all)
    ensures OneAfter(all, n) ==> (HasCode(all) <==> n <= |all[n + 1..]|)
    ensures OneAfter(all, n) && n <= |all[n + 1..]| ==>
              && CodeAt(all, n) && all[n + 1..][n..] == all[2 * n + 1..]
              && (n < 64 ==> (Pow2(n) + Value64(all[n + 1..][..n]) - 1) % TWO64 == CodeValue(all, n))
  {
    if m: nat :| CodeAt(all, m) {
      assert OneAfter(all, m);
      OnlyOne(all, n);
    }
    if OneAfter(all, n) && n <= |all[n + 1..]| {
      assert CodeAt(all, n);
      CodeSays(all, n);
    }
  }

  lemma CodeSays(all: seq<bit>, n: nat)
    requires CodeAt(all, n)
    ensures all[n + 1..][n..] == all[2 * n + 1..]
    ensures n < 64 ==> (Pow2(n) + Value64(all[n + 1..][..n]) - 1) % TWO64 == CodeValue(all, n)
  {
    var low := all[n + 1..2 * n + 1];
    SliceTwice(all, n + 1, 2 * n + 1);
    ValueBound(low);
    if n < 64 {
      Fits64(n, Value(low));
    }
  }

  lemma Pow2Plus4(n: nat)
    ensures Pow2(n + 4) == 16 * Pow2(n)
  {
    assert Pow2(n + 4) == 2 * Pow2(n + 3) && Pow2(n + 3) == 2 * Pow2(n + 2);
    assert Pow2(n + 2) == 2 * Pow2(n + 1) && Pow2(n + 1) == 2 * Pow2(n);
  }

  lemma Pow2Plus16(n: nat, p: nat)
    requires p == Pow2(n)
    ensures Pow2(n + 16) == 65536 * p
  {
    Pow2Plus4(n);
    Pow2Plus4(n + 4);
    Pow2Plus4(n + 8);
    Pow2Plus4(n + 12);
  }

  lemma Pow2Is64()
    ensures Pow2(64) == TWO64
  {
    Pow2Plus16(0, 1);
    Pow2Plus16(16, 0x1_0000);
    Pow2Plus16(32, 0x1_0000_0000);
    Pow2Plus16(48, 0x1_0000_0000_0000);
  }

  lemma {:induction false} Pow2Grows(m: nat, n: nat)
    requires m <= n
    ensures Pow2(m) <= Pow2(n)
    decreases n
  {
    if m < n {
      Pow2Grows(m, n - 1);
    }
  }

  lemma Fits64(n: nat, x: nat)
    requires n < 64 && x < Pow2(n)
    ensures x % TWO64 == x && (Pow2(n) + x - 1) % TWO64 == Pow2(n) + x - 1
  {
    Pow2Is64();
    Pow2Grows(n + 1, 64);
    SmallMod64(x);
    SmallMod64(Pow2(n) + x - 1);
  }

  lemma SmallMod64(x: nat)
    requires x < TWO64
    ensures x % TWO64 == x
  {
  }

  // ----- Codes

  /** The `n` lowest bits of a number, the most significant first. */
  ghost function Binary(x: nat, n: nat): (bits: seq<bit>)
    ensures |bits| == n
  {
    if n == 0 then [] else Binary(x / 2, n - 1) + [x % 2]
  }

  lemma {:induction false} BinaryIsValue(x: nat, n: nat)
    requires x < Pow2(n)
    ensures Value(Binary(x, n)) == x
    decreases n
  {
    if n > 0 {
      BinaryIsValue(x / 2, n - 1);
      ValueSnoc(Binary(x / 2, n - 1), x % 2);
    }
  }

  ghost function Zeros(n: nat): (bits: seq<bit>)
    ensures |bits| == n && forall i :: 0 <= i < n ==> bits[i] == 0
  {
    seq(n, _ => 0)
  }

  /** The number of bits of x, less one. */
  ghost function Log2(x: nat): (n: nat)
    requires x > 0
    ensures Pow2(n) <= x < 2 * Pow2(n)
  {
    if x == 1 then 0 else 1 + Log2(x / 2)
  }

  /** The code ue(v): as many zeros as v + 1 has bits after its first, and then v + 1. */
  ghost function Ue(v: nat): seq<bit> {
    var n := Log2(v + 1);
    Zeros(n) + ([1] + Binary(v + 1 - Pow2(n), n))
  }

  /** Where ue(v) comes next, it is a code that says v, and the 2n + 1 bits of it are followed by the rest. */
  lemma GolombInverts(v: nat, tail: seq<bit>)
    ensures var bits, n := Ue(v) + tail, Log2(v + 1);
            CodeAt(bits, n) && bits[2 * n + 1..] == tail && v == CodeValue(bits, n)
  {
    var n := Log2(v + 1);
    CodeParts(Zeros(n), Binary(v + 1 - Pow2(n), n), tail);
    BinaryIsValue(v + 1 - Pow2(n), n);
  }

  lemma CodeParts(zeros: seq<bit>, low: seq<bit>, tail: seq<bit>)
    requires |zeros| == |low| && forall i :: 0 <= i < |zeros| ==> zeros[i] == 0
    ensures var bits, n := zeros + ([1] + low) + tail, |zeros|;
            CodeAt(bits, n) && bits[n + 1..2 * n + 1] == low && bits[2 * n + 1..] == tail
  {
  }

  /** The result of reading a code is the number that was written, for every code whose number has at most 64 bits. */
  lemma UeFound(all: seq<bit>, n: nat, v: nat, err: bool, rest: seq<bit>)
    requires err ==> !HasCode(all)
    requires !err ==> CodeAt(all, n) && rest == all[2 * n + 1..] && (n < 64 ==> v == CodeValue(all, n))
    ensures forall w: nat, tail: seq<bit> :: all == Ue(w) + tail && Log2(w + 1) < 64 ==> !err && v == w && rest == tail
  {
    forall w: nat, tail: seq<bit> | all == Ue(w) + tail && Log2(w + 1) < 64 ensures !err && v == w && rest == tail {
      GolombInverts(w, tail);
      OnlyOne(all, n);
      assert CodeAt(all, Log2(w + 1));
    }
  }
}
