/**
 What a cyclic redundancy check is, independently of the loops that compute it: a polynomial
 remainder, framed by the initial value, the reflection flags and the output mask.
 */
module CrcModel {
  import opened Bits
  import opened Gf2

  /** The parameters of the Rocksoft model. */
  datatype Params = Params(width: nat, poly: nat, reflectIn: bool, xorIn: nat, reflectOut: bool, xorOut: nat)
  {
    /** The option parser refuses a width below one and masks the other numbers to the width. */
    ghost predicate Valid() {
      && 1 <= width
      && poly < Pow2(width)
      && xorIn < Pow2(width)
      && xorOut < Pow2(width)
    }

    predicate OddPoly() {
      Bit(poly, 0)
    }
  }

  /** A message byte in the order in which its bits are consumed, first bit on the left. */
  function InByte(c: byte, reflected: bool): (r: nat)
    ensures r < Pow2(8)
  {
    assert Pow2(8) == 256;
    if reflected then Reflect(c, 8) else c
  }

  /** The pieces of a message put together. */
  function Flatten(pieces: seq<seq<byte>>): seq<byte> {
    if pieces == [] then [] else Flatten(pieces[..|pieces| - 1]) + pieces[|pieces| - 1]
  }

  /** The message as a polynomial: the first bit consumed has the highest power. */
  function MsgPoly(msg: seq<byte>, reflected: bool): (r: nat)
    ensures r < Pow2(8 * |msg|)
  {
    if msg == [] then 0
    else
      var n := |msg| - 1;
      var (high, low) := (MsgPoly(msg[..n], reflected), InByte(msg[n], reflected));
      ShlBelow(high, 8 * n, 8);
      Pow2Monotonic(8, 8 * |msg|);
      XorBelow(Shl(high, 8), low, 8 * |msg|);
      Xor(Shl(high, 8), low)
  }

  /** Remainder of `r * x^n + u * x^w`: register `r` after the `n` message bits `u`, without augmentation. */
  function Direct(r: nat, u: nat, n: nat, w: nat, p: nat): nat
    requires p < Pow2(w)
  {
    Rem(Xor(Shl(r, n), Shl(u, w)), w, p)
  }

  /** Remainder of `r * x^n + u`: register `r` after the `n` bits `u` of an augmented message. */
  function Augmented(r: nat, u: nat, n: nat, w: nat, p: nat): nat
    requires p < Pow2(w)
  {
    Rem(Xor(Shl(r, n), u), w, p)
  }

  /** Output reflection and output mask. */
  function Output(ps: Params, register: nat): nat {
    Xor(if ps.reflectOut then Reflect(register, ps.width) else register, ps.xorOut)
  }

  /** The checksum of a message: remainder of `XorIn * x^(8n) + message * x^w`. */
  function Checksum(ps: Params, msg: seq<byte>): nat
    requires ps.Valid()
  {
    Output(ps, Direct(ps.xorIn, MsgPoly(msg, ps.reflectIn), 8 * |msg|, ps.width, ps.poly))
  }

  // ---------------------------------------------------------------- consuming bits

  lemma AugmentedCompose(r: nat, u: nat, m: nat, v: nat, n: nat, w: nat, p: nat)
    requires p < Pow2(w)
    ensures Augmented(Augmented(r, u, m, w, p), v, n, w, p) == Augmented(r, Xor(Shl(u, n), v), m + n, w, p)
  {
    var a := Xor(Shl(r, m), u);
    RemXor(Shl(Rem(a, w, p), n), v, w, p);
    RemShl(a, n, w, p);
    RemXor(Shl(a, n), v, w, p);
    ShlLaws(Shl(r, m), u, m, n);
    ShlLaws(r, 0, m, n);
    XorAssociates(Shl(r, m + n), Shl(u, n), v);
  }

  lemma DirectCompose(r: nat, u: nat, m: nat, v: nat, n: nat, w: nat, p: nat)
    requires p < Pow2(w)
    ensures Direct(Direct(r, u, m, w, p), v, n, w, p) == Direct(r, Xor(Shl(u, n), v), m + n, w, p)
  {
    AugmentedCompose(r, Shl(u, w), m, Shl(v, w), n, w, p);
    ShlLaws(u, 0, w, n);
    ShlLaws(u, 0, n, w);
    ShlLaws(Shl(u, n), v, 0, w);
  }

  /** Nothing consumed, nothing changed. */
  lemma ConsumeNone(r: nat, w: nat, p: nat)
    requires p < Pow2(w) && r < Pow2(w)
    ensures Direct(r, 0, 0, w, p) == r && Augmented(r, 0, 0, w, p) == r
  {
    ShlLaws(0, 0, 0, w);
    XorZero(r);
    RemSmall(r, w, p);
  }

  /** `w` zero bits after an augmented message have the effect of the direct form from a shifted start. */
  lemma AugmentedIsDirect(r: nat, u: nat, n: nat, w: nat, p: nat)
    requires p < Pow2(w)
    ensures Augmented(Augmented(r, u, n, w, p), 0, w, w, p) == Direct(Rem(Shl(r, w), w, p), u, n, w, p)
    ensures Augmented(Augmented(r, u, n, w, p), 0, w, w, p) == Rem(Xor(Shl(r, n + w), Shl(u, w)), w, p)
  {
    AugmentedCompose(r, u, n, 0, w, w, p);
    XorZero(Shl(u, w));
    var s := Rem(Shl(r, w), w, p);
    RemXor(Shl(s, n), Shl(u, w), w, p);
    RemShl(Shl(r, w), n, w, p);
    RemXor(Shl(Shl(r, w), n), Shl(u, w), w, p);
    ShlLaws(r, 0, w, n);
  }

  /** One bit of the augmented form: shift it in, subtract the divisor if a bit fell out. */
  lemma AugmentedStep(r: nat, bit: nat, s: nat, w: nat, p: nat)
    requires Divisor(w, p) && r < Pow2(w) && bit < 2 && s < Pow2(w)
    requires forall i: nat :: i < w ==>
      Bit(s, i) == ((if i == 0 then Bit(bit, 0) else Bit(r, i - 1)) != (Bit(r, w - 1) && Bit(p, i)))
    ensures s == Augmented(r, bit, 1, w, p)
  {
    assert Pow2(1) == 2;
    SmallBits(bit, 1);
    RemSmall(r, w, p);
    RemCons(r, Bit(bit, 0), w, p);
    var y := Cons(r, Bit(bit, 0));
    SameBits(y, Xor(Shl(r, 1), bit));
    SmallBits(s, w);
    SameBits(s, Reduce(y, w, p));
  }

  /** One bit of the direct form: the bit meets the one that falls out. */
  lemma DirectStep(r: nat, bit: nat, s: nat, w: nat, p: nat)
    requires Divisor(w, p) && r < Pow2(w) && bit < 2 && s < Pow2(w)
    requires forall i: nat :: i < w ==>
      Bit(s, i) == ((0 < i && Bit(r, i - 1)) != ((Bit(r, w - 1) != Bit(bit, 0)) && Bit(p, i)))
    ensures s == Direct(r, bit, 1, w, p)
  {
    hide Bit, Shl, Xor, Rem;
    assert Pow2(1) == 2;
    SmallBits(bit, 1);
    ShlBelow(r, w, 1);
    ShlBelow(bit, 1, w);
    RemXor(Shl(r, 1), Shl(bit, w), w, p);
    RemSmall(r, w, p);
    RemCons(r, false, w, p);
    SameBits(Cons(r, false), Shl(r, 1));
    var one := Shl(bit, w - 1);
    ShlBelow(bit, 1, w - 1);
    RemSmall(one, w, p);
    RemCons(one, false, w, p);
    SameBits(Cons(one, false), Shl(bit, w));
    var t := Xor(Reduce(Shl(r, 1), w, p), Reduce(Shl(bit, w), w, p));
    SmallBits(s, w);
    SameBits(s, t);
  }

  /** The next bit of a byte, after the `i` bits consumed already. */
  lemma NextBit(octet: nat, i: nat)
    requires octet < Pow2(8) && i < 8
    ensures Xor(Shl(Shr(octet, 8 - i), 1), And(Shr(octet, 7 - i), 1)) == Shr(octet, 7 - i)
    ensures And(Shr(octet, 7 - i), 1) < 2
  {
    OneBit();
    var b := And(Shr(octet, 7 - i), 1);
    assert Pow2(1) == 2;
    FewBits(b, 1);
    SameBits(Xor(Shl(Shr(octet, 8 - i), 1), b), Shr(octet, 7 - i));
  }

  lemma WholeByte(octet: nat)
    requires octet < Pow2(8)
    ensures Shr(octet, 8) == 0 && Shr(octet, 0) == octet
  {
    SmallBits(octet, 8);
    ZeroBits();
    SameBits(Shr(octet, 8), 0);
  }

  /** `x & (1 << i)` tests bit `i`. */
  lemma TestBit(a: nat, i: nat)
    ensures And(a, Shl(1, i)) != 0 <==> Bit(a, i)
  {
    ShlOne(i);
    ZeroBits();
    if And(a, Shl(1, i)) != 0 {
      var j := NonZeroBit(And(a, Shl(1, i)));
    } else {
      assert !Bit(And(a, Shl(1, i)), i);
    }
  }

  /** The output stage loses nothing. */
  lemma OutputInjective(ps: Params, r: nat, s: nat)
    requires ps.Valid() && r < Pow2(ps.width) && s < Pow2(ps.width)
    ensures Output(ps, r) == Output(ps, s) <==> r == s
  {
    if Output(ps, r) == Output(ps, s) {
      SmallBits(r, ps.width);
      SmallBits(s, ps.width);
      forall i: nat ensures Bit(r, i) == Bit(s, i) {
        var j := if ps.reflectOut && i < ps.width then ps.width - 1 - i else i;
        assert Bit(Output(ps, r), j) == Bit(Output(ps, s), j);
      }
      SameBits(r, s);
    }
  }
}
