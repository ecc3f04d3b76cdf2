/**
 When the emitted table-driven code is right for plain input and an index narrower than a byte.  A register
 narrower than a byte is kept to the left, and the loop shifts it by too little.
 */
module EmittedNarrow {
  import opened Bits
  import opened Gf2
  import opened CrcModel
  import opened NonDirect
  import opened TableLaws
  import opened RegisterLaws
  import opened CrcAlgorithms
  import opened CrcTheorems
  import opened EmittedC

  // ---------------------------------------------------------------- narrow registers

  lemma {:induction false} RemOfPower(a: nat, w: nat)
    requires 1 <= w
    ensures Rem(a, w, 0) == Low(a, w)
  {
    ZeroBits();
    if a == 0 {
      SameBits(0, Low(a, w));
    } else {
      RemOfPower(a / 2, w);
      SameBits(Rem(a, w, 0), Low(a, w));
    }
  }

  lemma NarrowEntry(ps: Params, t: nat, i: nat)
    requires ps.Valid() && !ps.reflectIn && ps.poly == 0
    ensures TableEntry(ps, t, i) == 0
  {
    hide Bit, Low, Rem, Shl;
    RemOfPower(Shl(i, ps.width), ps.width);
    ZeroBits();
    SameBits(TableEntry(ps, t, i), 0);
  }

  lemma NarrowShift(a: nat, n: nat, bits: nat)
    requires a + n < bits
    ensures Low(Xor(0, Shl(Shl(1, a), n)), bits) == Shl(1, a + n)
  {
    hide Bit, Low, Xor, Shl;
    ZeroBits();
    OneBit();
    SameBits(Low(Xor(0, Shl(Shl(1, a), n)), bits), Shl(1, a + n));
  }

  /** With polynomial 0 the narrow register moves `t - s` places for every chunk instead of `t`. */
  lemma {:induction false} NarrowChunks(tg: Target, n: nat)
    requires tg.Valid() && !tg.params.reflectIn && tg.params.poly == 0 && tg.params.width < 8
    requires CrcShift(tg.params.width) <= tg.idxWidth < 8 && n * tg.idxWidth <= 8
    ensures CrcShift(tg.params.width) + n * (tg.idxWidth - CrcShift(tg.params.width)) < 8
    ensures PlainChunks(tg, Shl(1, CrcShift(tg.params.width)), 0, n)
         == Shl(1, CrcShift(tg.params.width) + n * (tg.idxWidth - CrcShift(tg.params.width)))
    decreases n
  {
    hide Bit, Shl, Shr, And, Xor, Low, TableEntry, Mask, Pow2;
    var (s, t) := (CrcShift(tg.params.width), tg.idxWidth);
    assert s + n * (t - s) < 8 by {
      if t == 1 { assert n <= 8; } else if t == 2 { assert n <= 4; } else { assert n <= 2; }
    }
    if n > 0 {
      assert (n - 1) * t + t == n * t;
      assert (n - 1) * (t - s) + (t - s) == n * (t - s);
      NarrowChunks(tg, n - 1);
      var a := s + (n - 1) * (t - s);
      forall i: nat ensures TableEntry(tg.params, t, i) == 0 { NarrowEntry(tg.params, t, i); }
      NarrowShift(a, t - s, tg.crcBits);
    }
  }

  /** Eight zero bits empty a narrow register whose polynomial is 0. */
  lemma NarrowDirect(w: nat)
    requires 1 <= w < 8
    ensures Direct(1, 0, 8, w, 0) == 0
  {
    hide Bit, Shl, Xor, Low;
    ShlLaws(0, 0, 0, w);
    XorZero(Shl(1, 8));
    RemOfPower(Shl(1, 8), w);
    ZeroBits();
    OneBit();
    SameBits(Low(Shl(1, 8), w), 0);
  }

  lemma MaskedOne(e: nat, s: nat, w: nat)
    requires s <= e < w + s
    ensures And(Shl(1, e), Shl(Mask(w), s)) != 0
  {
    hide Bit, Shl, And, Mask;
    OneBit();
    ZeroBits();
    assert Bit(And(Shl(1, e), Shl(Mask(w), s)), e);
  }

  /** With polynomial 0 the loop is wrong for register 1 and byte 0: bits are left that should have gone. */
  lemma PlainZeroFails(tg: Target)
    requires tg.Valid() && !tg.params.reflectIn && tg.params.poly == 0 && tg.params.width < 8
    requires CrcShift(tg.params.width) <= tg.idxWidth < 8
    ensures 1 < Pow2(tg.params.width) && !PlainRight(tg, 1, 0)
  {
    hide Bit, Shl, And, Mask, PlainChunks, Direct;
    var (w, s, t) := (tg.params.width, CrcShift(tg.params.width), tg.idxWidth);
    var e := s + 8 / t * (t - s);
    NarrowChunks(tg, 8 / t);
    assert s <= e;
    MaskedOne(e, s, w);
    NarrowDirect(w);
    ShlLaws(0, 0, 0, s);
  }

  /** The emitted sub-byte loop for plain input, masked as at the end, does to register `r` what byte `c` should. */
  ghost predicate PlainRight(tg: Target, r: nat, c: byte)
    requires tg.Valid() && IsPlainNarrow(tg)
  {
    var (w, s) := (tg.params.width, CrcShift(tg.params.width));
    And(PlainByteOf(tg, Held(tg.params, r), c), Shl(Mask(w), s)) == Held(tg.params, Direct(r, c, 8, w, tg.params.poly))
  }

  lemma ZeroEntry(ps: Params, t: nat)
    requires ps.Valid() && !ps.reflectIn
    ensures TableEntry(ps, t, 0) == 0
  {
    ShlLaws(0, 0, 0, ps.width);
    ShlLaws(0, 0, 0, CrcShift(ps.width));
  }

  /** A chunk whose bits equal the top bits of the register selects entry 0. */
  lemma ZeroIndexChunk(tg: Target, crc: nat, c: nat, i: nat, top: nat, chunk: nat)
    requires tg.Valid() && !tg.params.reflectIn && tg.params.width < 8 && CrcShift(tg.params.width) <= tg.idxWidth
    requires (i + 1) * tg.idxWidth <= 8
    requires top == Shr(crc, 8 - tg.idxWidth) && chunk == Shr(c, 8 - (i + 1) * tg.idxWidth)
    requires forall k: nat :: k < tg.idxWidth ==> Bit(top, k) == Bit(chunk, k)
    ensures PlainChunk(tg, crc, c, i) == Low(Shl(crc, tg.idxWidth - CrcShift(tg.params.width)), tg.crcBits)
  {
    hide Bit, Shl, Shr, And, Xor, Low, TableEntry, Mask;
    var t := tg.idxWidth;
    var index := And(Low(Xor(top, chunk), tg.uintBits), Mask(t));
    forall k: nat ensures !Bit(index, k) {
      if k < t { assert Bit(top, k) == Bit(chunk, k); }
    }
    ZeroBits();
    SameBits(index, 0);
    ZeroEntry(tg.params, t);
    XorZero(Shl(crc, t - CrcShift(tg.params.width)));
  }

  // ---------------------------------------------------------------- an index wider than the alignment: a register bit that leaves too late

  ghost predicate NoLowBits(crc: nat) {
    forall k: nat :: k < 8 ==> !Bit(crc, k)
  }

  /** The register and the byte that show it. */
  lemma LateBits(t: nat, s: nat)
    requires t in {2, 4} && 1 <= s < t
    ensures Shl(1, 7 - t) < 256 && Xor(Shl(1, 7 - t + s), Shl(1, 7 - t)) < 256
  {
    hide Bit, Shl, Xor;
    OneBit();
    EightBits();
    FewBits(Shl(1, 7 - t), 8);
    FewBits(Xor(Shl(1, 7 - t + s), Shl(1, 7 - t)), 8);
  }

  lemma LateFirst(tg: Target, s: nat, c: nat)
    requires tg.Valid() && !tg.params.reflectIn && tg.params.width < 8 && s == CrcShift(tg.params.width)
    requires tg.idxWidth in {2, 4} && s < tg.idxWidth
    requires c == Xor(Shl(1, 7 - tg.idxWidth + s), Shl(1, 7 - tg.idxWidth))
    ensures PlainChunk(tg, Shl(1, 7 - tg.idxWidth + s), c, 0) == Shl(1, 7)
  {
    hide Bit, Shl, Shr, Low, Xor, PlainChunk;
    var t := tg.idxWidth;
    OneBit();
    ZeroIndexChunk(tg, Shl(1, 7 - t + s), c, 0, Shr(Shl(1, 7 - t + s), 8 - t), Shr(c, 8 - t));
    SameBits(Low(Shl(Shl(1, 7 - t + s), t - s), tg.crcBits), Shl(1, 7));
  }

  lemma LateSecond(tg: Target, s: nat, c: nat)
    requires tg.Valid() && !tg.params.reflectIn && tg.params.width < 8 && s == CrcShift(tg.params.width)
    requires tg.idxWidth in {2, 4} && s < tg.idxWidth
    requires c == Xor(Shl(1, 7 - tg.idxWidth + s), Shl(1, 7 - tg.idxWidth))
    ensures NoLowBits(PlainChunk(tg, Shl(1, 7), c, 1))
  {
    hide Bit, Shl, Shr, Low, Xor, PlainChunk;
    OneBit();
    ZeroIndexChunk(tg, Shl(1, 7), c, 1, Shr(Shl(1, 7), 8 - tg.idxWidth), Shr(c, 8 - 2 * tg.idxWidth));
  }

  lemma LateRest(tg: Target, s: nat, c: nat, crc: nat, i: nat)
    requires tg.Valid() && !tg.params.reflectIn && tg.params.width < 8 && s == CrcShift(tg.params.width)
    requires tg.idxWidth == 2 && s < 2 && 2 <= i < 4
    requires c == Xor(Shl(1, 5 + s), Shl(1, 5)) && NoLowBits(crc)
    ensures NoLowBits(PlainChunk(tg, crc, c, i))
  {
    hide Bit, Shl, Shr, Low, Xor, PlainChunk;
    OneBit();
    ZeroIndexChunk(tg, crc, c, i, Shr(crc, 6), Shr(c, 8 - (i + 1) * 2));
  }

  lemma LateChunks(tg: Target, s: nat, c: nat)
    requires tg.Valid() && !tg.params.reflectIn && tg.params.width < 8 && s == CrcShift(tg.params.width)
    requires tg.idxWidth in {2, 4} && s < tg.idxWidth
    requires c == Xor(Shl(1, 7 - tg.idxWidth + s), Shl(1, 7 - tg.idxWidth))
    ensures 8 / tg.idxWidth * tg.idxWidth == 8
    ensures NoLowBits(PlainChunks(tg, Shl(1, 7 - tg.idxWidth + s), c, 8 / tg.idxWidth))
  {
    hide Shl, Xor, PlainChunk, NoLowBits;
    var start := Shl(1, 7 - tg.idxWidth + s);
    LateFirst(tg, s, c);
    LateSecond(tg, s, c);
    assert PlainChunks(tg, start, c, 1) == PlainChunk(tg, start, c, 0);
    var second := PlainChunks(tg, start, c, 2);
    assert second == PlainChunk(tg, Shl(1, 7), c, 1);
    if tg.idxWidth == 2 {
      LateRest(tg, s, c, second, 2);
      LateRest(tg, s, c, PlainChunks(tg, start, c, 3), 3);
    }
  }

  lemma LateDirect(j: nat, s: nat, w: nat, p: nat)
    requires Divisor(w, p) && w + s == 8
    ensures Direct(Shl(1, j), Xor(Shl(1, j + s), Shl(1, j)), 8, w, p) == Rem(Shl(1, j + w), w, p)
  {
    hide Bit, Shl, Xor, Rem;
    OneBit();
    SameBits(Xor(Shl(Shl(1, j), 8), Shl(Xor(Shl(1, j + s), Shl(1, j)), w)), Shl(1, j + w));
  }

  lemma NoLowMasked(crc: nat, s: nat, w: nat)
    requires w + s == 8 && NoLowBits(crc)
    ensures And(crc, Shl(Mask(w), s)) == 0
  {
    hide Bit, And, Shl, Mask;
    ZeroBits();
    SameBits(And(crc, Shl(Mask(w), s)), 0);
  }

  lemma PlainLateFails(tg: Target) returns (r: nat, c: byte)
    requires tg.Valid() && !tg.params.reflectIn && tg.params.width < 8 && tg.params.poly != 0
    requires CrcShift(tg.params.width) < tg.idxWidth < 8
    ensures r < Pow2(tg.params.width) && !PlainRight(tg, r, c)
  {
    hide Bit, Shl, And, Xor, Mask, Rem, PlainChunks, Direct, NoLowBits;
    var (w, s, t, p) := (tg.params.width, CrcShift(tg.params.width), tg.idxWidth, tg.params.poly);
    LateBits(t, s);
    r, c := Shl(1, 7 - t), Xor(Shl(1, 7 - t + s), Shl(1, 7 - t));
    ShlLaws(1, 0, 7 - t, s);
    LateChunks(tg, s, c);
    NoLowMasked(PlainChunks(tg, Shl(1, 7 - t + s), c, 8 / t), s, w);
    LateDirect(7 - t, s, w, p);
    PowerTheorem(7 - t + w, w, p);
    NonZeroShifted(Direct(r, c, 8, w, p), s);
    assert r < Pow2(w) by { OneBit(); FewBits(Shl(1, 7 - t), w); }
  }

  // ---------------------------------------------------------------- an index as wide as the alignment: the register is not shifted at all

  lemma EqualStart(tg: Target, n: nat)
    requires tg.Valid() && !tg.params.reflectIn && tg.params.width < 8 && CrcShift(tg.params.width) == tg.idxWidth < 8
    requires (n + 2) * tg.idxWidth <= 8
    ensures PlainChunks(tg, 0, Shl(1, tg.idxWidth), n) == 0
    decreases n
  {
    hide Bit, Shl, Shr, Low, PlainChunk;
    if n > 0 {
      var t := tg.idxWidth;
      assert (n + 2) * t == (n - 1 + 2) * t + t && (n - 1 + 1) * t + 2 * t == (n + 2) * t;
      EqualStart(tg, n - 1);
      OneBit();
      ZeroBits();
      ZeroIndexChunk(tg, 0, Shl(1, t), n - 1, Shr(0, 8 - t), Shr(Shl(1, t), 8 - n * t));
      SameBits(Low(Shl(0, 0), tg.crcBits), 0);
    }
  }

  /** The chunk that is 1 brings the polynomial into the register. */
  lemma EqualOne(tg: Target, i: nat)
    requires tg.Valid() && !tg.params.reflectIn && tg.params.width < 8 && CrcShift(tg.params.width) == tg.idxWidth < 8
    requires (i + 2) * tg.idxWidth == 8
    ensures PlainChunk(tg, 0, Shl(1, tg.idxWidth), i) == Shl(tg.params.poly, tg.idxWidth)
  {
    hide Bit, Shl, Shr, And, Xor, Low, Mask, Rem, Pow2;
    var (w, t, p) := (tg.params.width, tg.idxWidth, tg.params.poly);
    assert (i + 1) * t == 8 - t;
    OneBit();
    ZeroBits();
    SameBits(And(Low(Xor(Shr(0, 8 - t), Shr(Shl(1, t), t)), tg.uintBits), Mask(t)), 1);
    PowerIsPoly(w, p);
    SmallBits(p, w);
    SameBits(Low(Xor(Shl(p, t), Shl(0, 0)), tg.crcBits), Shl(p, t));
  }

  lemma PowerIsPoly(w: nat, p: nat)
    requires Divisor(w, p)
    ensures Rem(Shl(1, w), w, p) == p
  {
    hide Bit, Shl, Rem, Xor;
    ShlOne(w - 1);
    assert 1 < Pow2(w) by { BigPower(w); }
    OneBit();
    var half := Shl(1, w - 1);
    FewBits(half, w);
    RemSmall(half, w, p);
    RemCons(half, false, w, p);
    ZeroBits();
    SameBits(Cons(half, false), Shl(1, w));
    SmallBits(p, w);
    SameBits(Reduce(Cons(half, false), w, p), p);
  }

  lemma EqualLast(tg: Target, i: nat)
    requires tg.Valid() && !tg.params.reflectIn && tg.params.width < 8 && CrcShift(tg.params.width) == tg.idxWidth < 8
    requires (i + 1) * tg.idxWidth == 8
    ensures var (w, t, p) := (tg.params.width, tg.idxWidth, tg.params.poly);
      PlainChunk(tg, Shl(p, t), Shl(1, t), i) == Xor(Shl(Rem(Shl(Shr(Shl(p, t), w), w), w, p), t), Shl(p, t))
  {
    hide Bit, Shl, Shr, And, Xor, Low, Mask, Rem, Pow2;
    var (w, t, p) := (tg.params.width, tg.idxWidth, tg.params.poly);
    OneBit();
    SmallBits(p, w);
    ShrZero(Shl(1, t));
    SameBits(And(Low(Xor(Shr(Shl(p, t), w), Shl(1, t)), tg.uintBits), Mask(t)), Shr(Shl(p, t), w));
    var e := Rem(Shl(Shr(Shl(p, t), w), w), w, p);
    SmallBits(e, w);
    ShlZero(Shl(p, t));
    SameBits(Low(Xor(Shl(e, t), Shl(p, t)), tg.crcBits), Xor(Shl(e, t), Shl(p, t)));
  }

  /** A polynomial that equals its own shift is 0. */
  lemma {:induction false} NoPeriod(p: nat, t: nat, w: nat, i: nat)
    requires 1 <= t && p < Pow2(w) && Shl(p, t) == Low(Shl(Shl(p, t), t), w + t)
    ensures !Bit(p, i)
    decreases i
  {
    hide Bit, Shl, Low, Pow2;
    SmallBits(p, w);
    assert Bit(Shl(p, t), i + t) == Bit(p, i);
    if i >= t { NoPeriod(p, t, w, i - t); }
  }

  lemma XorShift(a: nat, b: nat, e: nat)
    requires Xor(e, a) == Xor(b, e)
    ensures a == b
  {
    hide Bit, Xor;
    forall i: nat ensures Bit(a, i) == Bit(b, i) {
      assert Bit(Xor(e, a), i) == Bit(Xor(b, e), i);
    }
    SameBits(a, b);
  }

  lemma EqualDirect(t: nat, w: nat, p: nat)
    requires Divisor(w, p)
    ensures Direct(0, Shl(1, t), 8, w, p) == Direct(p, 0, t, w, p)
  {
    hide Bit, Shl, Xor, Rem;
    ShlLaws(0, 0, 0, 8);
    ShlLaws(0, 0, 0, w);
    XorZero(Shl(Shl(1, t), w));
    XorZero(Shl(p, t));
    ShlLaws(1, 0, t, w);
    ShlLaws(1, 0, w, t);
    PowerIsPoly(w, p);
    RemShl(Shl(1, w), t, w, p);
  }

  lemma EqualChunks(tg: Target)
    requires tg.Valid() && !tg.params.reflectIn && tg.params.width < 8 && CrcShift(tg.params.width) == tg.idxWidth < 8
    ensures 8 / tg.idxWidth * tg.idxWidth == 8
    ensures var (w, t, p) := (tg.params.width, tg.idxWidth, tg.params.poly);
      PlainChunks(tg, 0, Shl(1, t), 8 / t) == Xor(Shl(Rem(Shl(Shr(Shl(p, t), w), w), w, p), t), Shl(p, t))
  {
    hide Bit, Shl, Shr, Xor, Rem, PlainChunk;
    var t := tg.idxWidth;
    var n := 8 / t;
    assert n * t == 8 && (n - 2 + 2) * t == 8 && (n - 1 + 1) * t == 8 && (n - 2 + 1) * t + t == 8;
    EqualStart(tg, n - 2);
    EqualOne(tg, n - 2);
    assert PlainChunks(tg, 0, Shl(1, t), n - 1) == Shl(tg.params.poly, t);
    EqualLast(tg, n - 1);
  }

  lemma KeptByMask(crc: nat, e: nat, s: nat, w: nat, p: nat)
    requires crc == Xor(Shl(e, s), Shl(p, s)) && e < Pow2(w) && p < Pow2(w)
    ensures And(crc, Shl(Mask(w), s)) == crc
  {
    hide Bit, And, Shl, Xor, Mask, Pow2;
    SmallBits(e, w);
    SmallBits(p, w);
    SameBits(And(crc, Shl(Mask(w), s)), crc);
  }

  lemma PlainEqualFails(tg: Target) returns (c: byte)
    requires tg.Valid() && !tg.params.reflectIn && tg.params.width < 8 && tg.params.poly != 0
    requires CrcShift(tg.params.width) == tg.idxWidth < 8
    ensures !PlainRight(tg, 0, c)
  {
    hide Bit, Shl, Shr, And, Xor, Low, Mask, Rem, PlainChunks, Direct;
    var (w, t, p) := (tg.params.width, tg.idxWidth, tg.params.poly);
    assert Shl(1, t) < 256 by { OneBit(); EightBits(); FewBits(Shl(1, t), 8); }
    c := Shl(1, t);
    EqualChunks(tg);
    ShlLaws(0, 0, 0, t);
    var e := Rem(Shl(Shr(Shl(p, t), w), w), w, p);
    KeptByMask(Xor(Shl(e, t), Shl(p, t)), e, t, w, p);
    EqualDirect(t, w, p);
    var d := Direct(p, 0, t, w, p);
    ShiftedLookUp(p, 0, t, t, w, p, d);
    XorZero(Shr(Shl(p, t), w));
    if PlainRight(tg, 0, c) {
      XorShift(Shl(p, t), Low(Shl(Shl(p, t), t), w + t), Shl(e, t));
      forall i: nat ensures !Bit(p, i) { NoPeriod(p, t, w, i); }
      var i := NonZeroBit(p);
      assert false;
    }
  }

  /**
   The emitted sub-byte loop for plain input, for every polynomial: it is right for all registers and bytes
   exactly from width eight on.
   */
  lemma PlainLoopTheorem(tg: Target)
    requires tg.Valid() && IsPlainNarrow(tg)
    ensures (forall r: nat, c: byte :: r < Pow2(tg.params.width) ==> PlainRight(tg, r, c)) <==> 8 <= tg.params.width
  {
    hide Bit, Shl, And, Xor, Low, Mask, PlainChunks, Direct;
    var (ps, w, t) := (tg.params, tg.params.width, tg.idxWidth);
    if 8 <= w {
      forall r: nat, c: byte | r < Pow2(w) ensures PlainRight(tg, r, c) {
        ShlZero(r);
        LowSmall(r, w);
        PlainChunksAreDirect(tg, r, r, c, 8 / t);
        ShrZero(c);
        MaskIsLow(PlainChunks(tg, r, c, 8 / t), w);
        ShlZero(Mask(w));
        ShlZero(Direct(r, c, 8, w, ps.poly));
      }
    } else if ps.poly == 0 {
      PlainZeroFails(tg);
    } else if CrcShift(w) == t {
      var c := PlainEqualFails(tg);
      assert 0 < Pow2(w);
    } else {
      var r, c := PlainLateFails(tg);
    }
  }

  // ---------------------------------------------------------------- whole messages

  lemma {:induction false} PlainRunIsDirect(tg: Target, r: nat, crc: nat, data: seq<byte>)
    requires tg.Valid() && IsPlainNarrow(tg) && 8 <= tg.params.width && r == Low(crc, tg.params.width)
    ensures Low(PlainRun(tg, crc, data), tg.params.width)
         == Direct(r, MsgPoly(data, false), 8 * |data|, tg.params.width, tg.params.poly)
    decreases |data|
  {
    hide Bit, Shl, Xor, Low, Rem, Direct, PlainChunks, MsgPoly;
    var (w, p) := (tg.params.width, tg.params.poly);
    if data == [] {
      EmptyMessage(false);
      ConsumeNone(r, w, p);
    } else {
      var k := |data| - 1;
      PlainRunIsDirect(tg, r, crc, data[..k]);
      var before := PlainRun(tg, crc, data[..k]);
      PlainChunksAreDirect(tg, Low(before, w), before, data[k], 8 / tg.idxWidth);
      ShrZero(data[k]);
      DirectNextByte(r, data, k, false, w, p);
      assert data[..k + 1] == data;
    }
  }

  /** In a narrow register only the eight low bits matter. */
  lemma ChunkLow(tg: Target, a: nat, b: nat, c: nat, i: nat)
    requires tg.Valid() && IsPlainNarrow(tg) && tg.params.width < 8 && (i + 1) * tg.idxWidth <= 8 && Low(a, 8) == Low(b, 8)
    ensures Low(PlainChunk(tg, a, c, i), 8) == Low(PlainChunk(tg, b, c, i), 8)
  {
    hide Bit, Shl, Shr, And, Xor, Low, TableEntry, Mask;
    var (s, t) := (CrcShift(tg.params.width), tg.idxWidth);
    var chunk := Shr(c, 8 - (i + 1) * t);
    forall k: nat | k < 8 ensures Bit(a, k) == Bit(b, k) { assert Bit(Low(a, 8), k) == Bit(Low(b, 8), k); }
    SameBits(And(Low(Xor(Shr(a, 8 - t), chunk), tg.uintBits), Mask(t)), And(Low(Xor(Shr(b, 8 - t), chunk), tg.uintBits), Mask(t)));
    var e := TableEntry(tg.params, t, And(Low(Xor(Shr(a, 8 - t), chunk), tg.uintBits), Mask(t)));
    SameBits(Low(Low(Xor(e, Shl(a, t - s)), tg.crcBits), 8), Low(Low(Xor(e, Shl(b, t - s)), tg.crcBits), 8));
  }

  lemma {:induction false} ChunksLow(tg: Target, a: nat, b: nat, c: nat, n: nat)
    requires tg.Valid() && IsPlainNarrow(tg) && tg.params.width < 8 && n * tg.idxWidth <= 8 && Low(a, 8) == Low(b, 8)
    ensures Low(PlainChunks(tg, a, c, n), 8) == Low(PlainChunks(tg, b, c, n), 8)
    decreases n
  {
    hide Low, PlainChunk;
    if n > 0 {
      assert (n - 1) * tg.idxWidth + tg.idxWidth == n * tg.idxWidth;
      ChunksLow(tg, a, b, c, n - 1);
      ChunkLow(tg, PlainChunks(tg, a, c, n - 1), PlainChunks(tg, b, c, n - 1), c, n - 1);
    }
  }

  /** Nothing is ever left below the register. */
  ghost predicate IsAligned(crc: nat, s: nat) {
    forall k: nat :: k < s ==> !Bit(crc, k)
  }

  lemma {:induction false} ChunksAligned(tg: Target, crc: nat, c: nat, n: nat)
    requires tg.Valid() && IsPlainNarrow(tg) && n * tg.idxWidth <= 8 && IsAligned(crc, CrcShift(tg.params.width))
    ensures IsAligned(PlainChunks(tg, crc, c, n), CrcShift(tg.params.width))
    decreases n
  {
    hide Bit, Shl, Shr, And, Xor, Low, Mask, Rem;
    if n > 0 {
      assert (n - 1) * tg.idxWidth + tg.idxWidth == n * tg.idxWidth;
      ChunksAligned(tg, crc, c, n - 1);
    }
  }

  lemma MaskedLow(crc: nat, s: nat, w: nat)
    requires w + s == 8 && IsAligned(crc, s)
    ensures And(crc, Shl(Mask(w), s)) == Low(crc, 8)
  {
    hide Bit, Shl, And, Mask, Low;
    SameBits(And(crc, Shl(Mask(w), s)), Low(crc, 8));
  }

  /** If a first byte is handled right, the second is handled right exactly if the loop is right for the register between. */
  lemma SecondByte(tg: Target, x: nat, first: byte, c: byte, r: nat)
    requires tg.Valid() && IsPlainNarrow(tg) && tg.params.width < 8 && x < Pow2(tg.params.width) && r < Pow2(tg.params.width)
    requires Unheld(tg, PlainByteOf(tg, Held(tg.params, x), first)) == r
    ensures Unheld(tg, PlainByteOf(tg, PlainByteOf(tg, Held(tg.params, x), first), c)) == Unheld(tg, PlainByteOf(tg, Held(tg.params, r), c))
  {
    hide Bit, Shl, Shr, And, Low, Mask, Pow2, PlainChunks, IsAligned;
    var (w, s, n) := (tg.params.width, CrcShift(tg.params.width), 8 / tg.idxWidth);
    var (start, again) := (Shl(x, s), Shl(r, s));
    ShlAligned(x, s);
    ShlAligned(r, s);
    var one := PlainChunks(tg, start, first, n);
    ChunksAligned(tg, start, first, n);
    UnheldHeld(tg, one);
    MaskedLow(one, s, w);
    ShlBelow(r, w, s);
    LowSmall(again, 8);
    ChunksLow(tg, one, again, c, n);
    ChunksAligned(tg, one, c, n);
    ChunksAligned(tg, again, c, n);
    MaskedLow(PlainChunks(tg, one, c, n), s, w);
    MaskedLow(PlainChunks(tg, again, c, n), s, w);
  }

  lemma ShlAligned(r: nat, s: nat)
    ensures IsAligned(Shl(r, s), s)
  {
    hide Bit, Shl;
  }

  /** For an odd polynomial some byte leads from a given register to any other. */
  lemma Reachable(x: nat, r: nat, w: nat, p: nat) returns (c: byte)
    requires Divisor(w, p) && w < 8 && x < Pow2(w) && r < Pow2(w) && Bit(p, 0)
    ensures Direct(x, c, 8, w, p) == r
  {
    hide Bit, Shl, Xor, Rem, NonDirectInit, Low, Pow2;
    var s := 8 - w;
    var u := NonDirectInit(r, w, w, p);
    ForwardOfNonDirect(r, w, w, p);
    NothingLost(r, w, p);
    XorZero(r);
    ShlBelow(x, w, s);
    Pow2Monotonic(w, 8);
    XorBelow(Shl(x, s), u, 8);
    EightBits();
    c := Xor(Shl(x, s), u);
    SameBits(Xor(Shl(x, 8), Shl(c, w)), Shl(u, w));
  }

  lemma PlainOne(tg: Target, crc: nat, c: byte)
    requires tg.Valid() && IsPlainNarrow(tg)
    ensures PlainRun(tg, crc, [c]) == PlainByteOf(tg, crc, c)
  {
    hide PlainByteOf;
    assert [c][..0] == [];
    assert PlainRun(tg, crc, []) == crc;
  }

  lemma PlainTwo(tg: Target, crc: nat, c: byte, d: byte)
    requires tg.Valid() && IsPlainNarrow(tg)
    ensures PlainRun(tg, crc, [c, d]) == PlainByteOf(tg, PlainByteOf(tg, crc, c), d)
  {
    hide PlainByteOf;
    assert [c, d][..1] == [c];
    PlainOne(tg, crc, c);
  }

  lemma DirectTwo(ps: Params, c: byte, d: byte)
    requires ps.Valid() && !ps.reflectIn
    ensures MsgPoly([c], false) == c
    ensures Direct(ps.xorIn, MsgPoly([c, d], false), 16, ps.width, ps.poly)
         == Direct(Direct(ps.xorIn, c, 8, ps.width, ps.poly), d, 8, ps.width, ps.poly)
  {
    hide Bit, Shl, Xor, Rem, Direct, MsgPoly;
    EmptyMessage(false);
    MsgPolyAppend([], c, false);
    assert [] + [c] == [c];
    ShlLaws(0, 0, 0, 8);
    XorZero(c);
    MsgPolyAppend([c], d, false);
    assert [c] + [d] == [c, d];
    DirectCompose(ps.xorIn, c, 8, d, 8, ps.width, ps.poly);
  }

  /** A width below eight makes some message of at most two bytes come out wrong. */
  lemma PlainMessageFails(tg: Target) returns (msg: seq<byte>)
    requires tg.Valid() && IsPlainNarrow(tg) && tg.params.width < 8 && tg.params.OddPoly()
    ensures PlainChecksum(tg, msg) != Checksum(tg.params, msg)
  {
    hide Bit, Shl, Rem, Direct, Output, MsgPoly, PlainByteOf, Unheld, PlainRight, Held;
    var (ps, w, p, x) := (tg.params, tg.params.width, tg.params.poly, tg.params.xorIn);
    PlainLoopTheorem(tg);
    var r: nat, c: byte :| r < Pow2(w) && !PlainRight(tg, r, c);
    var first := Reachable(x, r, w, p);
    var start := Held(ps, x);
    PlainOne(tg, start, first);
    PlainTwo(tg, start, first, c);
    DirectTwo(ps, first, c);
    var (one, two) := (PlainByteOf(tg, start, first), PlainByteOf(tg, PlainByteOf(tg, start, first), c));
    UnheldHeld(tg, one);
    UnheldHeld(tg, two);
    if Output(ps, Unheld(tg, one)) != Checksum(ps, [first]) {
      msg := [first];
    } else {
      msg := [first, c];
      OutputInjective(ps, Unheld(tg, one), r);
      SecondByte(tg, x, first, c, r);
      DirectBelow(r, c, 8, w, p);
      OutputInjective(ps, Unheld(tg, two), Direct(r, c, 8, w, p));
      if Unheld(tg, two) == Direct(r, c, 8, w, p) {
        RightIfUnheld(tg, r, c);
        assert false;
      }
    }
  }

  lemma RightIfUnheld(tg: Target, r: nat, c: byte)
    requires tg.Valid() && IsPlainNarrow(tg) && r < Pow2(tg.params.width)
    requires Unheld(tg, PlainByteOf(tg, Held(tg.params, r), c)) == Direct(r, c, 8, tg.params.width, tg.params.poly)
    ensures PlainRight(tg, r, c)
  {
    hide Bit, Shl, And, Mask, Direct, Unheld, Held, PlainByteOf;
    UnheldHeld(tg, PlainByteOf(tg, Held(tg.params, r), c));
  }

  /**
   With an odd polynomial, plain input and an index narrower than a byte the emitted functions give the
   checksum of every message exactly from width eight on.
   */
  lemma PlainChecksumTheorem(tg: Target)
    requires tg.Valid() && IsPlainNarrow(tg) && tg.params.OddPoly()
    ensures (forall msg: seq<byte> :: PlainChecksum(tg, msg) == Checksum(tg.params, msg)) <==> 8 <= tg.params.width
  {
    hide Bit, Shl, Shr, And, Mask, Low, Rem, Direct, Output, MsgPoly, PlainRun;
    var (ps, w) := (tg.params, tg.params.width);
    if 8 <= w {
      forall msg: seq<byte> ensures PlainChecksum(tg, msg) == Checksum(ps, msg) {
        ShlZero(ps.xorIn);
        LowSmall(ps.xorIn, w);
        PlainRunIsDirect(tg, ps.xorIn, ps.xorIn, msg);
        var run := PlainRun(tg, ps.xorIn, msg);
        ShlZero(Mask(w));
        MaskIsLow(run, w);
        ShrZero(Low(run, w));
      }
    } else {
      var msg := PlainMessageFails(tg);
    }
  }
}
