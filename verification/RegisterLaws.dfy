/**
 The loop bodies of the checksum code, seen as steps of `Direct` and `Augmented`: registers that
 are masked only once a byte, byte-wise table steps, and the shift-and-or loop that reflects a word.
 */
module RegisterLaws {
  import opened Bits
  import opened Gf2
  import opened CrcModel
  import opened TableLaws

  // ---------------------------------------------------------------- one bit

  lemma LowTwice(a: nat, m: nat, n: nat)
    requires n <= m
    ensures Low(Low(a, m), n) == Low(a, n)
  {
    SameBits(Low(Low(a, m), n), Low(a, n));
  }

  /** A direct step on a register whose bits above `w` were not cleared. */
  lemma UnmaskedDirect(reg: nat, bit: nat, next: nat, w: nat, p: nat)
    requires Divisor(w, p) && bit < 2
    requires next == if Bit(reg, w - 1) != Bit(bit, 0) then Xor(Shl(reg, 1), p) else Shl(reg, 1)
    ensures Low(next, w) == Direct(Low(reg, w), bit, 1, w, p)
  {
    DirectStep(Low(reg, w), bit, Low(next, w), w, p);
  }

  /** An augmented step on a register whose bits above `w` were not cleared. */
  lemma UnmaskedAugmented(reg: nat, bit: nat, next: nat, w: nat, p: nat)
    requires Divisor(w, p) && bit < 2
    requires var shifted := Or(Shl(reg, 1), bit);
      next == if Bit(reg, w - 1) then Xor(shifted, p) else shifted
    ensures Low(next, w) == Augmented(Low(reg, w), bit, 1, w, p)
  {
    assert Pow2(1) == 2;
    SmallBits(bit, 1);
    AugmentedStep(Low(reg, w), bit, Low(next, w), w, p);
  }

  /** `i + 1` bits of a byte instead of `i`. */
  lemma DirectNextBit(r: nat, octet: nat, i: nat, w: nat, p: nat)
    requires p < Pow2(w) && octet < Pow2(8) && i < 8
    ensures Direct(Direct(r, Shr(octet, 8 - i), i, w, p), And(Shr(octet, 7 - i), 1), 1, w, p)
         == Direct(r, Shr(octet, 7 - i), i + 1, w, p)
  {
    NextBit(octet, i);
    DirectCompose(r, Shr(octet, 8 - i), i, And(Shr(octet, 7 - i), 1), 1, w, p);
  }

  lemma AugmentedNextBit(r: nat, octet: nat, i: nat, w: nat, p: nat)
    requires p < Pow2(w) && octet < Pow2(8) && i < 8
    ensures Augmented(Augmented(r, Shr(octet, 8 - i), i, w, p), And(Shr(octet, 7 - i), 1), 1, w, p)
         == Augmented(r, Shr(octet, 7 - i), i + 1, w, p)
  {
    NextBit(octet, i);
    AugmentedCompose(r, Shr(octet, 8 - i), i, And(Shr(octet, 7 - i), 1), 1, w, p);
  }

  /** One more zero bit. */
  lemma AugmentedNextZero(r: nat, i: nat, w: nat, p: nat)
    requires p < Pow2(w)
    ensures Augmented(Augmented(r, 0, i, w, p), 0, 1, w, p) == Augmented(r, 0, i + 1, w, p)
  {
    AugmentedCompose(r, 0, i, 0, 1, w, p);
    ShlLaws(0, 0, 0, 1);
    XorZero(0);
  }

  /** The bit that `octet & (0x80 >> i)` tests. */
  lemma BitFromTop(octet: nat, i: nat)
    requires i < 8
    ensures And(octet, Shr(0x80, i)) != 0 <==> Bit(And(Shr(octet, 7 - i), 1), 0)
    ensures And(Shr(octet, 7 - i), 1) < 2
  {
    ShlOne(7);
    assert Pow2(7) == 0x80;
    ShlOne(7 - i);
    SameBits(Shr(0x80, i), Shl(1, 7 - i));
    TestBit(octet, 7 - i);
    OneBit();
    assert Pow2(1) == 2;
    FewBits(And(Shr(octet, 7 - i), 1), 1);
  }

  // ---------------------------------------------------------------- whole messages

  /** The register after one more byte of the message. */
  lemma DirectNextByte(init: nat, msg: seq<byte>, k: nat, reflected: bool, w: nat, p: nat)
    requires p < Pow2(w) && k < |msg|
    ensures Direct(Direct(init, MsgPoly(msg[..k], reflected), 8 * k, w, p), InByte(msg[k], reflected), 8, w, p)
         == Direct(init, MsgPoly(msg[..k + 1], reflected), 8 * (k + 1), w, p)
  {
    hide Bit, Shl, Xor, Rem, Reflect, Pow2;
    assert msg[..k + 1][..k] == msg[..k];
    DirectCompose(init, MsgPoly(msg[..k], reflected), 8 * k, InByte(msg[k], reflected), 8, w, p);
  }

  lemma AugmentedNextByte(init: nat, msg: seq<byte>, k: nat, reflected: bool, w: nat, p: nat)
    requires p < Pow2(w) && k < |msg|
    ensures Augmented(Augmented(init, MsgPoly(msg[..k], reflected), 8 * k, w, p), InByte(msg[k], reflected), 8, w, p)
         == Augmented(init, MsgPoly(msg[..k + 1], reflected), 8 * (k + 1), w, p)
  {
    hide Bit, Shl, Xor, Rem, Reflect, Pow2;
    assert msg[..k + 1][..k] == msg[..k];
    AugmentedCompose(init, MsgPoly(msg[..k], reflected), 8 * k, InByte(msg[k], reflected), 8, w, p);
  }

  lemma EmptyMessage(reflected: bool)
    ensures MsgPoly([], reflected) == 0
  {}

  lemma MsgPolyAppend(m: seq<byte>, c: byte, reflected: bool)
    ensures MsgPoly(m + [c], reflected) == Xor(Shl(MsgPoly(m, reflected), 8), InByte(c, reflected))
  {
    assert (m + [c])[..|m|] == m;
  }

  lemma MsgPolyConcat(a: seq<byte>, b: seq<byte>, reflected: bool)
    ensures MsgPoly(a + b, reflected) == Xor(Shl(MsgPoly(a, reflected), 8 * |b|), MsgPoly(b, reflected))
  {
    hide Bit, Xor, Shl, Reflect, Pow2;
    var u := MsgPoly(a, reflected);
    if b == [] {
      assert a + b == a;
      SameBits(Shl(u, 0), u);
      XorZero(u);
    } else {
      var n := |b| - 1;
      assert (a + b)[..|a + b| - 1] == a + b[..n];
      MsgPolyConcat(a, b[..n], reflected);
      var v := MsgPoly(b[..n], reflected);
      ShlLaws(Shl(u, 8 * n), v, 8 * n, 8);
      ShlLaws(u, 0, 8 * n, 8);
      XorAssociates(Shl(u, 8 * |b|), Shl(v, 8), InByte(b[n], reflected));
    }
  }

  /** Feeding a message in two parts. */
  lemma DirectConcat(init: nat, a: seq<byte>, b: seq<byte>, reflected: bool, w: nat, p: nat)
    requires p < Pow2(w)
    ensures Direct(Direct(init, MsgPoly(a, reflected), 8 * |a|, w, p), MsgPoly(b, reflected), 8 * |b|, w, p)
         == Direct(init, MsgPoly(a + b, reflected), 8 * |a + b|, w, p)
  {
    hide Bit, Shl, Xor, Rem, MsgPoly;
    MsgPolyConcat(a, b, reflected);
    DirectCompose(init, MsgPoly(a, reflected), 8 * |a|, MsgPoly(b, reflected), 8 * |b|, w, p);
  }

  lemma AugmentedConcat(init: nat, a: seq<byte>, b: seq<byte>, reflected: bool, w: nat, p: nat)
    requires p < Pow2(w)
    ensures Augmented(Augmented(init, MsgPoly(a, reflected), 8 * |a|, w, p), MsgPoly(b, reflected), 8 * |b|, w, p)
         == Augmented(init, MsgPoly(a + b, reflected), 8 * |a + b|, w, p)
  {
    hide Bit, Shl, Xor, Rem, MsgPoly;
    MsgPolyConcat(a, b, reflected);
    AugmentedCompose(init, MsgPoly(a, reflected), 8 * |a|, MsgPoly(b, reflected), 8 * |b|, w, p);
  }

  // ---------------------------------------------------------------- tables and reflection

  /** A zero bit on an unmasked register, as the table generator feeds it. */
  lemma TableStep(reg: nat, next: nat, i: nat, m: nat, w: nat, p: nat)
    requires Divisor(w, p) && Low(reg, w) == Rem(Shl(i, m), w, p)
    requires next == if Bit(reg, w - 1) then Xor(Shl(reg, 1), p) else Shl(reg, 1)
    ensures Low(next, w) == Rem(Shl(i, m + 1), w, p)
  {
    ZeroBits();
    UnmaskedDirect(reg, 0, next, w, p);
    ShlLaws(0, 0, 0, w);
    XorZero(Shl(Low(reg, w), 1));
    RemShl(Shl(i, m), 1, w, p);
    ShlLaws(i, 0, m, 1);
  }

  /** What the generator stores, from the register after its inner loop. */
  lemma StoredEntry(ps: Params, reg: nat, t: nat, i: nat)
    requires ps.Valid()
    requires var (w, s) := (ps.width, CrcShift(ps.width));
      Low(reg, w + s) == Shl(Rem(Shl(if ps.reflectIn then Reflect(i, t) else i, w), w, ps.poly), s)
    ensures var (w, s) := (ps.width, CrcShift(ps.width));
      And(if ps.reflectIn then Shl(Reflect(Shr(reg, s), w), s) else reg, Shl(Mask(w), s)) == TableEntry(ps, t, i)
  {
    hide Bit, Shl, Shr, And, Low, Reflect, Rem, Mask, Pow2;
    var (w, s) := (ps.width, CrcShift(ps.width));
    var e := Rem(Shl(if ps.reflectIn then Reflect(i, t) else i, w), w, ps.poly);
    SmallBits(e, w);
    forall k: nat | k < w ensures Bit(reg, k + s) == Bit(e, k) {
      assert Bit(Low(reg, w + s), k + s) == Bit(Shl(e, s), k + s);
    }
    if ps.reflectIn {
      SameBits(Reflect(Shr(reg, s), w), Reflect(e, w));
      SameBits(And(Shl(Reflect(e, w), s), Shl(Mask(w), s)), Shl(Reflect(e, w), s));
    } else {
      SameBits(And(reg, Shl(Mask(w), s)), Shl(e, s));
    }
  }

  /** One byte of the non-reflected table loop. */
  lemma TableByte(r: nat, c: byte, w: nat, p: nat)
    requires Divisor(w, p) && r < Pow2(w)
    ensures var (s, reg) := (CrcShift(w), Shl(r, CrcShift(w)));
      var i := And(Xor(Shr(reg, w + s - 8), c), 0xff);
      i < 256 && And(Xor(Shl(reg, 8 - s), Shl(Rem(Shl(i, w), w, p), s)), Shl(Mask(w), s))
        == Shl(Direct(r, c, 8, w, p), s)
  {
    hide Bit, Shl, Shr, Xor, And, Low, Rem;
    var (s, reg) := (CrcShift(w), Shl(r, CrcShift(w)));
    assert Pow2(8) == 256 && Mask(8) == 0xff;
    ShlBelow(r, w, s);
    LowSmall(reg, w + s);
    LowSmall(c, 8);
    IndexOf(reg, reg, c, c, 8, w + s);
    var i := And(Xor(Shr(reg, w + s - 8), c), 0xff);
    var (d, e) := (Direct(r, c, 8, w, p), Rem(Shl(i, w), w, p));
    ShiftedLookUp(r, c, 8, s, w, p, d);
    MaskedSum(reg, r, d, e, s, w);
  }

  /** Shifting by `8 - s` instead of 8 does no harm under the mask. */
  lemma MaskedSum(reg: nat, r: nat, d: nat, e: nat, s: nat, w: nat)
    requires s == CrcShift(w) && reg == Shl(r, s) && r < Pow2(w) && d < Pow2(w) && e < Pow2(w)
    requires Shl(d, s) == Xor(Low(Shl(reg, 8), w + s), Shl(e, s))
    ensures And(Xor(Shl(reg, 8 - s), Shl(e, s)), Shl(Mask(w), s)) == Shl(d, s)
  {
    SmallBits(e, w);
    SmallBits(d, w);
    var m := And(Xor(Shl(reg, 8 - s), Shl(e, s)), Shl(Mask(w), s));
    forall k: nat ensures Bit(m, k) == Bit(Shl(d, s), k) {
      if s <= k < w + s {
        assert Bit(Shl(d, s), k) == (Bit(Shl(reg, 8), k) != Bit(Shl(e, s), k));
        assert Bit(Shl(reg, 8 - s), k) == Bit(Shl(reg, 8), k);
      }
    }
    SameBits(m, Shl(d, s));
  }

  /** One byte of the reflected table loop; `r` is the register in message order. */
  lemma ReflectedTableByte(r: nat, c: byte, w: nat, p: nat)
    requires Divisor(w, p) && r < Pow2(w)
    ensures var (s, rho) := (CrcShift(w), Reflect(r, w));
      var i := And(Xor(Shr(Shl(rho, s), s), c), 0xff);
      i < 256 && And(Xor(Shr(Shl(rho, s), 8), Shl(Reflect(Rem(Shl(Reflect(i, 8), w), w, p), w), s)), Shl(Mask(w), s))
        == Shl(Reflect(Direct(r, InByte(c, true), 8, w, p), w), s)
  {
    hide Bit, Shl, Shr, Xor, And, Low, Reflect, Rem, Direct;
    var (s, rho) := (CrcShift(w), Reflect(r, w));
    assert Pow2(8) == 256 && Mask(8) == 0xff;
    var v := InByte(c, true);
    ReflectTwice(c, 8);
    var i := And(Xor(Shr(Shl(rho, s), s), c), 0xff);
    SameBits(Shr(Shl(rho, s), s), rho);
    MaskIsLow(Xor(rho, c), 8);
    SmallBits(c, 8);
    SameBits(i, Xor(Low(rho, 8), c));
    var (d, e) := (Direct(r, v, 8, w, p), Reflect(Rem(Shl(Reflect(i, 8), w), w, p), w));
    ReflectedLookUp(r, v, 8, s, w, p, d);
    MaskedReflectedSum(rho, Reflect(d, w), e, s, w);
  }

  lemma MaskedReflectedSum(rho: nat, d: nat, e: nat, s: nat, w: nat)
    requires rho < Pow2(w) && d == Xor(Shr(rho, 8), e) && e < Pow2(w) && d < Pow2(w) && s <= 8
    ensures And(Xor(Shr(Shl(rho, s), 8), Shl(e, s)), Shl(Mask(w), s)) == Shl(d, s)
  {
    SmallBits(d, w);
    var m := And(Xor(Shr(Shl(rho, s), 8), Shl(e, s)), Shl(Mask(w), s));
    forall k: nat ensures Bit(m, k) == Bit(Shl(d, s), k) {
      if s <= k {
        assert Bit(d, k - s) == (Bit(Shr(rho, 8), k - s) != Bit(e, k - s));
        assert Bit(Shl(rho, s), k + 8) == Bit(rho, k + 8 - s);
      }
    }
    SameBits(m, Shl(d, s));
  }

  /** One turn of the loop that reflects a word. */
  lemma ReflectStep(data: nat, k: nat)
    ensures Reflect(data, k + 1) == Or(Shl(Reflect(data, k), 1), And(Shr(data, k), 1))
  {
    OneBit();
    SameBits(Reflect(data, k + 1), Or(Shl(Reflect(data, k), 1), And(Shr(data, k), 1)));
  }
}
