/**
 The initial value of the augmented form.  `Back` undoes one zero bit; running it `w` times on
 the direct initial value gives the non-direct one.  When the polynomial is even the undoing
 loses a bit at every odd intermediate value, and `Lost` says exactly which.
 */
module NonDirect {
  import opened Bits
  import opened Gf2
  import opened CrcModel

  /** One zero-input step backwards. */
  function Back(c: nat, w: nat, p: nat): (r: nat)
    requires Divisor(w, p) && c < Pow2(w)
    ensures r < Pow2(w)
    ensures forall i: nat {:trigger Bit(r, i)} ::
      Bit(r, i) == if i == w - 1 then Bit(c, 0) else Bit(c, i + 1) != (Bit(c, 0) && Bit(p, i + 1))
  {
    SmallBits(c, w);
    SmallBits(p, w);
    ShlOne(w - 1);
    var r := if Bit(c, 0) then Or(Shr(Xor(c, p), 1), Shl(1, w - 1)) else Shr(c, 1);
    FewBits(r, w);
    r
  }

  function NonDirectInit(c: nat, k: nat, w: nat, p: nat): (r: nat)
    requires Divisor(w, p) && c < Pow2(w)
    ensures r < Pow2(w)
    decreases k
  {
    if k == 0 then c else NonDirectInit(Back(c, w, p), k - 1, w, p)
  }

  /** The bits that `k` backward steps from `c` cannot give back: the odd values met, for an even polynomial. */
  ghost function Lost(c: nat, k: nat, w: nat, p: nat): (r: nat)
    requires Divisor(w, p) && c < Pow2(w)
    ensures r < Pow2(k)
    decreases k
  {
    if k == 0 then 0 else Cons(Lost(Back(c, w, p), k - 1, w, p), Bit(c, 0) && !Bit(p, 0))
  }

  lemma LastStep(c: nat, k: nat, w: nat, p: nat)
    requires Divisor(w, p) && c < Pow2(w)
    ensures NonDirectInit(c, k + 1, w, p) == Back(NonDirectInit(c, k, w, p), w, p)
    decreases k
  {
    if k > 0 { LastStep(Back(c, w, p), k - 1, w, p); }
  }

  ghost function LostBit(c: nat, p: nat): (e: nat)
    ensures e < 2
    ensures forall i: nat {:trigger Bit(e, i)} :: Bit(e, i) == (i == 0 && Bit(c, 0) && !Bit(p, 0))
  {
    ZeroBits();
    OneBit();
    if Bit(c, 0) && !Bit(p, 0) then 1 else 0
  }

  lemma ForwardOfBack(c: nat, w: nat, p: nat)
    requires Divisor(w, p) && c < Pow2(w)
    ensures Rem(Shl(Back(c, w, p), 1), w, p) == Xor(c, LostBit(c, p))
  {
    var b := Back(c, w, p);
    RemSmall(b, w, p);
    RemCons(b, false, w, p);
    SameBits(Shl(b, 1), Cons(b, false));
    var f := Reduce(Cons(b, false), w, p);
    SmallBits(c, w);
    forall i: nat ensures Bit(f, i) == Bit(Xor(c, LostBit(c, p)), i) {
      if 0 < i < w { assert Bit(b, i - 1) == (Bit(c, i) != (Bit(c, 0) && Bit(p, i))) by { SmallBits(p, w); } }
    }
    SameBits(f, Xor(c, LostBit(c, p)));
  }

  /** For an odd polynomial the backward step also undoes a forward one. */
  lemma BackOfForward(c: nat, w: nat, p: nat)
    requires Divisor(w, p) && c < Pow2(w) && Bit(p, 0)
    ensures Back(Rem(Shl(c, 1), w, p), w, p) == c
  {
    RemSmall(c, w, p);
    RemCons(c, false, w, p);
    SameBits(Shl(c, 1), Cons(c, false));
    SmallBits(c, w);
    SmallBits(p, w);
    var f := Reduce(Cons(c, false), w, p);
    forall i: nat ensures Bit(Back(f, w, p), i) == Bit(c, i) {
      assert Bit(f, 0) == Bit(c, w - 1);
      if i < w - 1 { assert Bit(f, i + 1) == (Bit(c, i) != (Bit(c, w - 1) && Bit(p, i + 1))); }
    }
    SameBits(Back(f, w, p), c);
  }

  /** One more zero bit, once `m` is congruent to `Back(c) + l`. */
  lemma OneMoreForward(m: nat, c: nat, l: nat, w: nat, p: nat)
    requires Divisor(w, p) && c < Pow2(w) && l < Pow2(w - 1)
    requires Rem(m, w, p) == Xor(Back(c, w, p), l)
    ensures Rem(Shl(m, 1), w, p) == Xor(c, Xor(LostBit(c, p), Shl(l, 1)))
  {
    hide Bit, Shl, Xor, Rem, Back, LostBit;
    var b := Back(c, w, p);
    RemShl(m, 1, w, p);
    ShlLaws(b, l, 0, 1);
    RemXor(Shl(b, 1), Shl(l, 1), w, p);
    ForwardOfBack(c, w, p);
    ShlBelow(l, w - 1, 1);
    RemSmall(Shl(l, 1), w, p);
    XorAssociates(c, LostBit(c, p), Shl(l, 1));
  }

  /** `k` zero bits after `k` backward steps bring `c` back, up to the lost bits. */
  lemma {:induction false} ForwardOfNonDirect(c: nat, k: nat, w: nat, p: nat)
    requires Divisor(w, p) && c < Pow2(w) && k <= w
    ensures Rem(Shl(NonDirectInit(c, k, w, p), k), w, p) == Xor(c, Lost(c, k, w, p))
    decreases k
  {
    if k == 0 {
      RemSmall(c, w, p);
      XorZero(c);
    } else {
      var b := Back(c, w, p);
      var l := Lost(b, k - 1, w, p);
      var n := NonDirectInit(b, k - 1, w, p);
      ForwardOfNonDirect(b, k - 1, w, p);
      ShlLaws(n, 0, k - 1, 1);
      Pow2Monotonic(k - 1, w - 1);
      OneMoreForward(Shl(n, k - 1), c, l, w, p);
      OddStep(c, l, Bit(c, 0) && !Bit(p, 0), p);
    }
  }

  lemma OddStep(c: nat, l: nat, e: bool, p: nat)
    requires e == (Bit(c, 0) && !Bit(p, 0))
    ensures Xor(LostBit(c, p), Shl(l, 1)) == Cons(l, e)
  {
    SameBits(Xor(LostBit(c, p), Shl(l, 1)), Cons(l, e));
  }

  /** For an odd polynomial, `k` backward steps undo `k` zero bits. */
  lemma {:induction false} NonDirectOfForward(c: nat, k: nat, w: nat, p: nat)
    requires Divisor(w, p) && c < Pow2(w) && Bit(p, 0)
    ensures NonDirectInit(Rem(Shl(c, k), w, p), k, w, p) == c
  {
    if k == 0 {
      RemSmall(c, w, p);
    } else {
      NonDirectOfForward(c, k - 1, w, p);
      ShlLaws(c, 0, k - 1, 1);
      RemShl(Shl(c, k - 1), 1, w, p);
      BackOfForward(Rem(Shl(c, k - 1), w, p), w, p);
    }
  }

  /** An even polynomial loses nothing only while the values met are even. */
  lemma {:induction false} LosesNothing(c: nat, k: nat, w: nat, p: nat)
    requires Divisor(w, p) && c < Pow2(w) && !Bit(p, 0) && Lost(c, k, w, p) == 0 && k <= w
    ensures forall i: nat :: i < k ==> !Bit(c, i)
    decreases k
  {
    if k > 0 {
      var b := Back(c, w, p);
      LosesNothing(b, k - 1, w, p);
      assert !Bit(c, 0);
      forall i: nat | i < k ensures !Bit(c, i) {
        if i > 0 { assert !Bit(b, i - 1); }
      }
    }
  }

  lemma {:induction false} LosesNothingIf(c: nat, k: nat, w: nat, p: nat)
    requires Divisor(w, p) && c < Pow2(w) && (Bit(p, 0) || c == 0)
    ensures Lost(c, k, w, p) == 0
    decreases k
  {
    if k > 0 {
      if !Bit(p, 0) {
        ZeroBits();
        SameBits(Back(c, w, p), 0);
      }
      LosesNothingIf(Back(c, w, p), k - 1, w, p);
    }
  }

  /** Nothing is lost exactly when the polynomial is odd or there was nothing to lose. */
  lemma NothingLost(c: nat, w: nat, p: nat)
    requires Divisor(w, p) && c < Pow2(w)
    ensures Lost(c, w, w, p) == 0 <==> Bit(p, 0) || c == 0
  {
    if Bit(p, 0) || c == 0 {
      LosesNothingIf(c, w, w, p);
    } else if Lost(c, w, w, p) == 0 {
      LosesNothing(c, w, w, p);
      SmallBits(c, w);
      ZeroBits();
      SameBits(c, 0);
    }
  }

  /** Multiplying by `x` is invertible modulo a divisor with odd `p`. */
  lemma {:induction false} ShiftInvertible(a: nat, n: nat, w: nat, p: nat)
    requires Divisor(w, p) && a < Pow2(w) && Bit(p, 0)
    ensures Rem(Shl(a, n), w, p) == 0 <==> a == 0
  {
    NonDirectOfForward(a, n, w, p);
    RemSmall(0, w, p);
    NonDirectOfForward(0, n, w, p);
    ShlLaws(0, 0, 0, n);
  }

  /** What the augmented form yields when it starts from the non-direct initial value. */
  function AugmentedChecksum(ps: Params, msg: seq<byte>): nat
    requires ps.Valid()
  {
    var (w, p) := (ps.width, ps.poly);
    var start := NonDirectInit(ps.xorIn, w, w, p);
    Output(ps, Rem(Xor(Shl(start, 8 * |msg| + w), Shl(MsgPoly(msg, ps.reflectIn), w)), w, p))
  }

  /** The initial value that the augmented form really uses. */
  lemma EffectiveInit(ps: Params, msg: seq<byte>)
    requires ps.Valid()
    ensures var lost := Lost(ps.xorIn, ps.width, ps.width, ps.poly);
      && AugmentedChecksum(ps, msg) ==
         Output(ps, Direct(Xor(ps.xorIn, lost), MsgPoly(msg, ps.reflectIn), 8 * |msg|, ps.width, ps.poly))
      && (lost == 0 <==> ps.OddPoly() || ps.xorIn == 0)
  {
    var (w, p) := (ps.width, ps.poly);
    var start := NonDirectInit(ps.xorIn, w, w, p);
    ForwardOfNonDirect(ps.xorIn, w, w, p);
    AugmentedIsDirect(start, MsgPoly(msg, ps.reflectIn), 8 * |msg|, w, p);
    NothingLost(ps.xorIn, w, p);
  }

  /** With an odd polynomial the augmented form gives the checksum of every message. */
  lemma AugmentedIsChecksum(ps: Params, msg: seq<byte>)
    requires ps.Valid() && (ps.OddPoly() || ps.xorIn == 0)
    ensures AugmentedChecksum(ps, msg) == Checksum(ps, msg)
  {
    EffectiveInit(ps, msg);
    XorZero(ps.xorIn);
  }

  /** The augmented and the direct form agree on every message exactly when `Poly` is odd or `XorIn` is zero. */
  lemma AgreementTheorem(ps: Params)
    requires ps.Valid()
    ensures (forall msg: seq<byte> :: AugmentedChecksum(ps, msg) == Checksum(ps, msg))
       <==> (ps.OddPoly() || ps.xorIn == 0)
  {
    if ps.OddPoly() || ps.xorIn == 0 {
      forall msg: seq<byte> ensures AugmentedChecksum(ps, msg) == Checksum(ps, msg) {
        AugmentedIsChecksum(ps, msg);
      }
    } else {
      var (w, p) := (ps.width, ps.poly);
      var lost := Lost(ps.xorIn, w, w, p);
      EffectiveInit(ps, []);
      ConsumeNone(ps.xorIn, w, p);
      XorBelow(ps.xorIn, lost, w);
      ConsumeNone(Xor(ps.xorIn, lost), w, p);
      OutputInjective(ps, ps.xorIn, Xor(ps.xorIn, lost));
      if Xor(ps.xorIn, lost) == ps.xorIn {
        XorAssociates(ps.xorIn, ps.xorIn, lost);
        XorZero(lost);
        XorZero(ps.xorIn);
        assert false;
      }
      assert AugmentedChecksum(ps, []) != Checksum(ps, []);
    }
  }
}
