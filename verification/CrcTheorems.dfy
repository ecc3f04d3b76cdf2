/** What a checksum is and which errors it detects. */
module CrcTheorems {
  import opened Bits
  import opened Gf2
  import opened CrcModel
  import opened NonDirect
  import opened TableLaws

  /** Bit `j` of a message in the order in which the bits are consumed. */
  predicate ConsumedBit(msg: seq<byte>, reflected: bool, j: nat)
    requires j < 8 * |msg|
  {
    Bit(InByte(msg[j / 8], reflected), 7 - j % 8)
  }

  lemma {:induction false} MsgPolyBit(msg: seq<byte>, reflected: bool, j: nat)
    requires j < 8 * |msg|
    ensures Bit(MsgPoly(msg, reflected), 8 * |msg| - 1 - j) == ConsumedBit(msg, reflected, j)
    decreases |msg|
  {
    hide Bit, Reflect, Pow2;
    var n := |msg| - 1;
    var i := 8 * |msg| - 1 - j;
    SmallBits(InByte(msg[n], reflected), 8);
    if j < 8 * n {
      MsgPolyBit(msg[..n], reflected, j);
      assert Bit(MsgPoly(msg, reflected), i) == Bit(MsgPoly(msg[..n], reflected), i - 8);
    }
  }

  // ---------------------------------------------------------------- what a checksum is

  /**
   The checksum, stated without any algorithm: the one value obtained by the output stage from a
   number below `2^w` that differs from `XorIn * x^(8n) + message * x^w` by a multiple of the modulus.
   */
  lemma ChecksumIsRemainder(ps: Params, msg: seq<byte>, c: nat)
    requires ps.Valid()
    ensures c == Checksum(ps, msg) <==>
      exists r: nat :: IsRemainder(Xor(Shl(ps.xorIn, 8 * |msg|), Shl(MsgPoly(msg, ps.reflectIn), ps.width)), r, ps.width, ps.poly)
                    && c == Output(ps, r)
  {
    hide Shl, Xor, Rem, Output, MsgPoly, IsRemainder;
    var dividend := Xor(Shl(ps.xorIn, 8 * |msg|), Shl(MsgPoly(msg, ps.reflectIn), ps.width));
    var reg := Rem(dividend, ps.width, ps.poly);
    RemainderTheorem(dividend, reg, ps.width, ps.poly);
    forall r: nat | IsRemainder(dividend, r, ps.width, ps.poly) ensures r == reg {
      RemainderTheorem(dividend, r, ps.width, ps.poly);
    }
  }

  /** The register of the augmented form is the remainder of `NonDirectInit * x^(8n+w) + message * x^w`. */
  lemma AugmentedIsRemainder(ps: Params, msg: seq<byte>, c: nat)
    requires ps.Valid()
    ensures c == AugmentedChecksum(ps, msg) <==>
      exists r: nat :: IsRemainder(
        Xor(Shl(NonDirectInit(ps.xorIn, ps.width, ps.width, ps.poly), 8 * |msg| + ps.width),
            Shl(MsgPoly(msg, ps.reflectIn), ps.width)), r, ps.width, ps.poly) && c == Output(ps, r)
  {
    hide Shl, Xor, Rem, Output, MsgPoly, IsRemainder, NonDirectInit;
    var dividend := Xor(Shl(NonDirectInit(ps.xorIn, ps.width, ps.width, ps.poly), 8 * |msg| + ps.width),
                        Shl(MsgPoly(msg, ps.reflectIn), ps.width));
    var reg := Rem(dividend, ps.width, ps.poly);
    RemainderTheorem(dividend, reg, ps.width, ps.poly);
    forall r: nat | IsRemainder(dividend, r, ps.width, ps.poly) ensures r == reg {
      RemainderTheorem(dividend, r, ps.width, ps.poly);
    }
  }

  // ---------------------------------------------------------------- powers of x

  /** A polynomial without its factors `x`. */
  lemma {:induction false} OddPart(p: nat, w: nat) returns (a: nat, q: nat)
    requires p != 0 && p < Pow2(w)
    ensures a < w && q < Pow2(w - a) && Bit(q, 0) && p == Shl(q, a)
    decreases p
  {
    if Bit(p, 0) {
      a, q := 0, p;
    } else {
      a, q := OddPart(p / 2, w - 1);
      a := a + 1;
    }
  }

  /** The modulus divides a power of `x` exactly when it is one. */
  lemma PowerTheorem(n: nat, w: nat, p: nat)
    requires Divisor(w, p) && w <= n
    ensures Rem(Shl(1, n), w, p) == 0 <==> p == 0
  {
    hide Bit, Shl, Rem, Low;
    if p == 0 {
      PowerOfPower(n, w);
    } else {
      var a, q := OddPart(p, w);
      assert Divisor(w - a, q) by { hide *; }
      RemShifted(Shl(1, n - a), a, w - a, q);
      ShlLaws(1, 0, n - a, a);
      assert 1 < Pow2(w - a) by { BigPower(w - a); }
      ShiftInvertible(1, n - a, w - a, q);
      NonZeroShifted(Rem(Shl(1, n - a), w - a, q), a);
    }
  }

  lemma BigPower(n: nat)
    requires 1 <= n
    ensures 1 < Pow2(n)
  {}

  lemma NonZeroShifted(r: nat, a: nat)
    ensures Shl(r, a) == 0 <==> r == 0
  {
    hide Bit, Shl;
    if r != 0 {
      var i := NonZeroBit(r);
      assert Bit(Shl(r, a), i + a);
      ZeroBits();
    } else {
      ShlLaws(0, 0, 0, a);
    }
  }

  lemma {:induction false} PowerOfPower(n: nat, w: nat)
    requires 1 <= w <= n
    ensures Pow2(w) > 0 && Rem(Shl(1, n), w, 0) == 0
  {
    hide Bit, Shl, Rem, Low;
    ShlLaws(1, 0, w, n - w);
    RemShl(Shl(1, w), n - w, w, 0);
    ModulusItself(w);
    ShlLaws(0, 0, 0, n - w);
    RemZero(w, 0);
  }

  lemma ModulusItself(w: nat)
    requires 1 <= w
    ensures Pow2(w) > 0 && Rem(Shl(1, w), w, 0) == 0
  {
    hide Bit, Shl, Rem;
    ZeroBits();
    XorZero(Shl(1, w));
    OneBit();
    MulOne(w);
    SameBits(Modulus(w, 0), Shl(1, w));
    RemainderTheorem(Shl(1, w), 0, w, 0);
    assert Shl(1, w) == Xor(Mul(1, Modulus(w, 0)), 0);
  }

  lemma MulOne(w: nat)
    requires 1 <= w
    ensures Mul(1, Modulus(w, 0)) == Modulus(w, 0)
  {
    ShlLaws(0, 0, 0, 1);
    XorZero(Modulus(w, 0));
    assert Mul(0, Modulus(w, 0)) == 0;
  }

  // ---------------------------------------------------------------- error detection

  /** From any common register, two messages meet again exactly when their difference times `x^w` leaves no remainder. */
  lemma DirectDifference(r: nat, u: nat, v: nat, n: nat, w: nat, p: nat)
    requires p < Pow2(w)
    ensures Direct(r, u, n, w, p) == Direct(r, v, n, w, p) <==> Rem(Shl(Xor(u, v), w), w, p) == 0
  {
    hide Bit, Shl, Xor, Rem;
    var x := Shl(r, n);
    RemXor(x, Shl(u, w), w, p);
    RemXor(x, Shl(v, w), w, p);
    ShlLaws(u, v, 0, w);
    RemXor(Shl(u, w), Shl(v, w), w, p);
    var (a, b, c) := (Rem(x, w, p), Rem(Shl(u, w), w, p), Rem(Shl(v, w), w, p));
    XorEqual(b, c);
    if Xor(a, b) == Xor(a, c) {
      forall i: nat ensures Bit(b, i) == Bit(c, i) {
        assert Bit(Xor(a, b), i) == Bit(Xor(a, c), i);
      }
      SameBits(b, c);
    }
  }

  lemma ShlComposed(a: nat, n: nat, w: nat, p: nat)
    requires Divisor(w, p) && Bit(p, 0)
    ensures Rem(Shl(a, n), w, p) == 0 <==> Rem(a, w, p) == 0
  {
    hide Bit, Shl, Rem;
    RemShl(a, n, w, p);
    ShiftInvertible(Rem(a, w, p), n, w, p);
  }

  lemma DivisibleIffNoRemainder(d: nat, w: nat, p: nat)
    requires p < Pow2(w)
    ensures Rem(d, w, p) == 0 <==> exists q: nat :: d == Mul(q, Modulus(w, p))
  {
    hide Bit, Xor, Rem, Mul, Modulus;
    RemainderTheorem(d, 0, w, p);
    if Rem(d, w, p) == 0 {
      var q: nat :| d == Xor(Mul(q, Modulus(w, p)), 0);
      XorZero(Mul(q, Modulus(w, p)));
      assert d == Mul(q, Modulus(w, p));
    }
    if exists q: nat :: d == Mul(q, Modulus(w, p)) {
      var q: nat :| d == Mul(q, Modulus(w, p));
      XorZero(Mul(q, Modulus(w, p)));
      assert d == Xor(Mul(q, Modulus(w, p)), 0);
      assert IsRemainder(d, 0, w, p);
    }
  }

  /**
   For an odd polynomial a change of the message goes unnoticed exactly when the modulus divides
   the difference, whatever the initial value, the output reflection and the output mask.
   */
  lemma UndetectedChanges(ps: Params, a: seq<byte>, b: seq<byte>)
    requires ps.Valid() && ps.OddPoly() && |a| == |b|
    ensures Checksum(ps, a) == Checksum(ps, b) <==>
      exists q: nat :: Xor(MsgPoly(a, ps.reflectIn), MsgPoly(b, ps.reflectIn)) == Mul(q, Modulus(ps.width, ps.poly))
  {
    hide Bit, Shl, Xor, Rem, Mul, MsgPoly, Output;
    var (w, p) := (ps.width, ps.poly);
    var (u, v) := (MsgPoly(a, ps.reflectIn), MsgPoly(b, ps.reflectIn));
    OutputInjective(ps, Direct(ps.xorIn, u, 8 * |a|, w, p), Direct(ps.xorIn, v, 8 * |a|, w, p));
    DirectDifference(ps.xorIn, u, v, 8 * |a|, w, p);
    ShlComposed(Xor(u, v), w, w, p);
    DivisibleIffNoRemainder(Xor(u, v), w, p);
  }

  lemma {:induction false} MsgPolyInjective(a: seq<byte>, b: seq<byte>, reflected: bool)
    requires |a| == |b| && MsgPoly(a, reflected) == MsgPoly(b, reflected)
    ensures a == b
    decreases |a|
  {
    hide Reflect, Pow2;
    if a != [] {
      var n := |a| - 1;
      var (ca, cb) := (InByte(a[n], reflected), InByte(b[n], reflected));
      LastByte(MsgPoly(a[..n], reflected), ca, MsgPoly(b[..n], reflected), cb);
      MsgPolyInjective(a[..n], b[..n], reflected);
      InByteInjective(a[n], b[n], reflected);
      assert a == a[..n] + [a[n]] && b == b[..n] + [b[n]];
    }
  }

  lemma LastByte(u: nat, c: nat, v: nat, d: nat)
    requires c < Pow2(8) && d < Pow2(8) && Xor(Shl(u, 8), c) == Xor(Shl(v, 8), d)
    ensures u == v && c == d
  {
    hide Bit, Shl, Xor;
    SmallBits(c, 8);
    SmallBits(d, 8);
    forall i: nat ensures Bit(u, i) == Bit(v, i) {
      assert Bit(Xor(Shl(u, 8), c), i + 8) == Bit(Xor(Shl(v, 8), d), i + 8);
    }
    SameBits(u, v);
    forall i: nat ensures Bit(c, i) == Bit(d, i) {
      assert Bit(Xor(Shl(u, 8), c), i) == Bit(Xor(Shl(v, 8), d), i);
    }
    SameBits(c, d);
  }

  lemma InByteInjective(c: byte, d: byte, reflected: bool)
    requires InByte(c, reflected) == InByte(d, reflected)
    ensures c == d
  {
    assert Pow2(8) == 256;
    SmallBits(c, 8);
    SmallBits(d, 8);
    forall i: nat ensures Bit(c, i) == Bit(d, i) {
      if reflected && i < 8 { assert Bit(Reflect(c, 8), 7 - i) == Bit(Reflect(d, 8), 7 - i); }
    }
    SameBits(c, d);
  }

  /** A non-zero difference confined to `w` neighbouring coefficients is not divisible by the modulus. */
  lemma BurstNotDivisible(d: nat, low: nat, w: nat, p: nat)
    requires Divisor(w, p) && Bit(p, 0) && d != 0
    requires forall i: nat {:trigger Bit(d, i)} :: Bit(d, i) ==> low <= i < low + w
    ensures Rem(Shl(d, w), w, p) != 0
  {
    hide Bit, Shl, Shr, Rem;
    var e := Shr(d, low);
    FewBits(e, w);
    SameBits(Shl(e, low), d);
    if e == 0 {
      ShlLaws(0, 0, 0, low);
      assert false;
    }
    ShlLaws(e, 0, low, w);
    ShiftInvertible(e, low + w, w, p);
  }

  /**
   Burst detection: two different messages of equal length whose differing bits, in the order
   consumed, lie within `w` consecutive positions never have the same checksum.
   */
  lemma BurstDetection(ps: Params, a: seq<byte>, b: seq<byte>, first: nat)
    requires ps.Valid() && ps.OddPoly() && |a| == |b| && a != b
    requires forall j: nat :: j < 8 * |a| && ConsumedBit(a, ps.reflectIn, j) != ConsumedBit(b, ps.reflectIn, j) ==>
      first <= j < first + ps.width
    ensures Checksum(ps, a) != Checksum(ps, b)
    ensures AugmentedChecksum(ps, a) != AugmentedChecksum(ps, b)
  {
    hide Bit, Shl, Xor, Rem, MsgPoly, Output, NonDirectInit, InByte, ConsumedBit;
    var (w, p, n) := (ps.width, ps.poly, 8 * |a|);
    var (u, v) := (MsgPoly(a, ps.reflectIn), MsgPoly(b, ps.reflectIn));
    var d := Xor(u, v);
    var low := if n <= first + w then 0 else n - first - w;
    SmallBits(u, n);
    SmallBits(v, n);
    forall i: nat | Bit(d, i) ensures low <= i < low + w {
      if i < n {
        var j := n - 1 - i;
        MsgPolyBit(a, ps.reflectIn, j);
        MsgPolyBit(b, ps.reflectIn, j);
        assert first <= j < first + w;
      }
    }
    XorEqual(u, v);
    if u == v {
      MsgPolyInjective(a, b, ps.reflectIn);
    }
    BurstNotDivisible(d, low, w, p);
    DirectDifference(ps.xorIn, u, v, n, w, p);
    OutputInjective(ps, Direct(ps.xorIn, u, n, w, p), Direct(ps.xorIn, v, n, w, p));
    AugmentedIsChecksum(ps, a);
    AugmentedIsChecksum(ps, b);
  }

  // ---------------------------------------------------------------- what each parameter does

  /** A byte with its bits in reverse order. */
  ghost predicate Reversed(c: byte, d: byte) {
    forall i: nat {:trigger Bit(d, i)} :: i < 8 ==> Bit(d, i) == Bit(c, 7 - i)
  }

  lemma {:induction false} ReversedMessage(a: seq<byte>, b: seq<byte>)
    requires |a| == |b| && forall i :: 0 <= i < |a| ==> Reversed(a[i], b[i])
    ensures MsgPoly(a, true) == MsgPoly(b, false)
    decreases |a|
  {
    hide Bit, Shl, Xor, Reflect, Reversed;
    if a != [] {
      var n := |a| - 1;
      ReversedMessage(a[..n], b[..n]);
      ReversedByte(a[n], b[n]);
    }
  }

  lemma ReversedByte(c: byte, d: byte)
    requires Reversed(c, d)
    ensures InByte(c, true) == InByte(d, false)
  {
    hide Bit, Reflect, Pow2;
    assert d < Pow2(8) by { Octets(); }
    SmallBits(d, 8);
    SameBits(Reflect(c, 8), d);
  }

  lemma Octets()
    ensures Pow2(8) == 256
  {}

  /**
   `XorOut` is added to the result, reflected output is the result with its bits in reverse order before that, and
   reflected input is the same as a message whose bytes have their bits in reverse order.
   */
  lemma ParameterLaws(ps: Params, msg: seq<byte>, reversed: seq<byte>)
    requires ps.Valid() && |msg| == |reversed| && forall i :: 0 <= i < |msg| ==> Reversed(msg[i], reversed[i])
    ensures ps.(xorOut := 0).Valid()
    ensures Checksum(ps, msg) == Xor(Checksum(ps.(xorOut := 0), msg), ps.xorOut)
    ensures var (plain, turned) := (ps.(xorOut := 0, reflectOut := false), ps.(xorOut := 0, reflectOut := true));
      && Checksum(plain, msg) < Pow2(ps.width) && Checksum(turned, msg) < Pow2(ps.width)
      && forall i: nat {:trigger Bit(Checksum(turned, msg), i)} ::
           i < ps.width ==> Bit(Checksum(turned, msg), i) == Bit(Checksum(plain, msg), ps.width - 1 - i)
    ensures Checksum(ps.(reflectIn := true), msg) == Checksum(ps.(reflectIn := false), reversed)
    ensures AugmentedChecksum(ps.(reflectIn := true), msg) == AugmentedChecksum(ps.(reflectIn := false), reversed)
  {
    hide Bit, Shl, Xor, Rem, Reflect, MsgPoly, Direct, NonDirectInit, Reversed;
    ReversedMessage(msg, reversed);
    var r := Direct(ps.xorIn, MsgPoly(msg, ps.reflectIn), 8 * |msg|, ps.width, ps.poly);
    assert r < Pow2(ps.width) by { DirectIsBelow(ps.xorIn, MsgPoly(msg, ps.reflectIn), 8 * |msg|, ps.width, ps.poly); }
    XorZero(r);
    XorZero(Reflect(r, ps.width));
  }

  lemma DirectIsBelow(r: nat, u: nat, n: nat, w: nat, p: nat)
    requires p < Pow2(w)
    ensures Direct(r, u, n, w, p) < Pow2(w)
  {}
}
