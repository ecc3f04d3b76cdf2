/**
 The table-driven C code that the generator emits.  Registers are variables of `crcBits` bits, the
 index is a variable of `uintBits` bits, and each statement is written with the shifts and masks
 that the generator puts into it.
 */
module EmittedC {
  import opened Wrappers
  import opened Bits
  import opened Gf2
  import opened CrcModel
  import opened TableLaws
  import opened RegisterLaws
  import opened CrcAlgorithms

  /** The generator's settings and the widths of the C types. */
  datatype Target = Target(params: Params, idxWidth: nat, crcBits: nat, uintBits: nat)
  {
    ghost predicate Valid() {
      && params.Valid()
      && idxWidth in {1, 2, 4, 8}
      && params.width <= crcBits && 8 <= crcBits
      && 16 <= uintBits
    }
  }

  ghost predicate IsTable(tg: Target, tbl: seq<nat>)
    requires tg.Valid()
  {
    && |tbl| == Pow2(tg.idxWidth)
    && forall i :: 0 <= i < |tbl| ==> tbl[i] == TableEntry(tg.params, tg.idxWidth, i)
  }

  /** How a register `r` is held between calls: reversed for reflected input, kept left in narrow registers. */
  function Held(ps: Params, r: nat): nat {
    Shl(if ps.reflectIn then Reflect(r, ps.width) else r, CrcShift(ps.width))
  }

  // ---------------------------------------------------------------- generation

  /** The constant table that is printed into the C source. */
  method CrcTable(tg: Target) returns (tbl: seq<nat>)
    requires tg.Valid()
    ensures IsTable(tg, tbl)
  {
    var alg := new Crc(tg.params, Some(tg.idxWidth));
    tbl := alg.GenTable();
  }

  /** The emitted reflect function. */
  method CrcReflect(word: nat, dataLen: nat) returns (ret: nat)
    requires 1 <= dataLen
    ensures ret == Reflect(word, dataLen)
  {
    hide Bit, Shl, Shr, And, Or, Reflect;
    var data := word;
    ret := And(data, 0x01);
    OneBit();
    SameBits(ret, Reflect(word, 1));
    SameBits(data, Shr(word, 0));
    for i := 1 to dataLen
      invariant data == Shr(word, i - 1) && ret == Reflect(word, i)
    {
      ReflectStep(word, i);
      SameBits(Shr(data, 1), Shr(word, i));
      data := Shr(data, 1);
      ret := Or(Shl(ret, 1), And(data, 0x01));
    }
  }

  /** The initial value: computed by the generator, shifted by the emitted expression. */
  method CrcInit(tg: Target) returns (crc: nat)
    requires tg.Valid()
    ensures crc == Held(tg.params, tg.params.xorIn)
  {
    hide Shl, Reflect, Pow2;
    var init := tg.params.xorIn;
    if tg.params.reflectIn {
      var alg := new Crc(tg.params, Some(tg.idxWidth));
      init := alg.ReflectWord(tg.params.xorIn, tg.params.width);
    }
    SameBits(init, Shl(init, 0));
    crc := if tg.params.width < 8 then Shl(init, 8 - tg.params.width) else init;
  }

  /** The final value, from the expression that the generator emits. */
  method CrcFinalize(tg: Target, crc: nat, ghost r: nat) returns (final: nat)
    requires tg.Valid() && r < Pow2(tg.params.width) && crc == Held(tg.params, r)
    ensures final == Output(tg.params, r)
  {
    hide Bit, Shl, Shr, Reflect, Pow2, Xor;
    var (w, s) := (tg.params.width, CrcShift(tg.params.width));
    var word := if w < 8 then Shr(crc, 8 - w) else crc;
    ghost var held := if tg.params.reflectIn then Reflect(r, w) else r;
    SameBits(Shr(Shl(held, s), s), held);
    SameBits(Shl(held, 0), held);
    ReflectTwice(r, w);
    if tg.params.reflectIn != tg.params.reflectOut {
      word := CrcReflect(word, w);
    }
    final := Xor(word, tg.params.xorOut);
  }

  // ---------------------------------------------------------------- reflected input

  /** One index of the reflected loop; `pos` bits of the byte `c` have been consumed. */
  lemma ReflectedChunk(tg: Target, r: nat, crc: nat, c: byte, pos: nat, d: nat)
    requires tg.Valid() && tg.params.reflectIn && r < Pow2(tg.params.width)
    requires var (w, s) := (tg.params.width, CrcShift(tg.params.width));
      crc < Pow2(w + s) && Shr(crc, s) == Reflect(r, w)
    requires d == Direct(r, Reflect(Low(Shr(c, pos), tg.idxWidth), tg.idxWidth), tg.idxWidth, tg.params.width, tg.params.poly)
    ensures var (w, s, t) := (tg.params.width, CrcShift(tg.params.width), tg.idxWidth);
      var i := And(Low(Xor(Shr(crc, s), Shr(c, pos)), tg.uintBits), Mask(t));
      var next := Xor(TableEntry(tg.params, t, i), Shr(crc, t));
      && i < Pow2(t)
      && next < Pow2(w + s)
      && Shr(next, s) == Reflect(d, w)
  {
    hide Bit, Shl, Shr, And, Xor, Low, Reflect, Rem, Direct, Mask, Pow2;
    var (w, s, t, p) := (tg.params.width, CrcShift(tg.params.width), tg.idxWidth, tg.params.poly);
    var chunk := Low(Shr(c, pos), t);
    var v := Reflect(chunk, t);
    ReflectTwice(chunk, t);
    ReflectedLookUp(r, v, t, s, w, p, d);
    var i := And(Low(Xor(Shr(crc, s), Shr(c, pos)), tg.uintBits), Mask(t));
    SameBits(i, Xor(Low(Reflect(r, w), t), chunk));
    XorBelow(Low(Reflect(r, w), t), chunk, t);
    var e := Reflect(Rem(Shl(Reflect(i, t), w), w, p), w);
    ShrOfSum(crc, e, t, s, w);
  }

  lemma ShrOfSum(crc: nat, e: nat, t: nat, s: nat, w: nat)
    requires crc < Pow2(w + s) && e < Pow2(w)
    ensures var next := Xor(Shl(e, s), Shr(crc, t));
      next < Pow2(w + s) && Shr(next, s) == Xor(Shr(Shr(crc, s), t), e)
  {
    hide Bit, Shl, Shr, Xor, Pow2;
    var next := Xor(Shl(e, s), Shr(crc, t));
    SmallBits(crc, w + s);
    SmallBits(e, w);
    FewBits(next, w + s);
    SameBits(Shr(next, s), Xor(Shr(Shr(crc, s), t), e));
  }

  /** The chunks of a byte, low end first, add up to the reflected byte. */
  lemma ReflectedChunks(r: nat, c: nat, pos: nat, t: nat, w: nat, p: nat)
    requires p < Pow2(w)
    ensures Direct(Direct(r, Reflect(c, pos), pos, w, p), Reflect(Low(Shr(c, pos), t), t), t, w, p)
         == Direct(r, Reflect(c, pos + t), pos + t, w, p)
  {
    hide Bit, Shl, Shr, Xor, Reflect, Low, Rem, Direct;
    DirectCompose(r, Reflect(c, pos), pos, Reflect(Low(Shr(c, pos), t), t), t, w, p);
    SameBits(Xor(Shl(Reflect(c, pos), t), Reflect(Low(Shr(c, pos), t), t)), Reflect(c, pos + t));
  }

  /** The mask at the end removes what lies below a narrow register. */
  lemma MaskHeld(crc: nat, s: nat, w: nat)
    requires crc < Pow2(w + s)
    ensures And(crc, Shl(Mask(w), s)) == Shl(Shr(crc, s), s)
  {
    hide Bit, And, Shl, Shr, Mask, Pow2;
    SmallBits(crc, w + s);
    SameBits(And(crc, Shl(Mask(w), s)), Shl(Shr(crc, s), s));
  }

  lemma NoBits(c: nat)
    ensures Reflect(c, 0) == 0
  {}

  /** The emitted loop body for reflected input. */
  method ReflectedByte(tg: Target, tbl: seq<nat>, start: nat, c: byte, ghost r: nat) returns (crc: nat)
    requires tg.Valid() && tg.params.reflectIn && IsTable(tg, tbl) && r < Pow2(tg.params.width)
    requires var (w, s) := (tg.params.width, CrcShift(tg.params.width));
      start < Pow2(w + s) && Shr(start, s) == Reflect(r, w)
    ensures var (w, s) := (tg.params.width, CrcShift(tg.params.width));
      && crc < Pow2(w + s)
      && Shr(crc, s) == Reflect(Direct(r, InByte(c, true), 8, w, tg.params.poly), w)
  {
    hide Bit, Shl, Shr, And, Xor, Low, Reflect, Rem, Direct, Mask, Pow2, TableEntry;
    var (w, s, t) := (tg.params.width, CrcShift(tg.params.width), tg.idxWidth);
    ghost var p := tg.params.poly;
    crc := start;
    NoBits(c);
    ConsumeNone(r, w, p);
    if t == 8 {
      ReflectedChunk(tg, r, crc, c, 0, Direct(r, Reflect(Low(Shr(c, 0), 8), 8), 8, w, p));
      ReflectedChunks(r, c, 0, 8, w, p);
      ShrZero(c);
      var tblIdx := And(Low(Xor(Shr(crc, s), c), tg.uintBits), Mask(8));
      crc := Xor(tbl[tblIdx], Shr(crc, 8));
      MaskHeld(crc, s, w);
      MaskAgain(crc, s, w);
      crc := And(crc, Shl(Mask(w), s));
    } else {
      ghost var q := r;
      ghost var pos := 0;
      for i := 0 to 8 / t
        invariant pos == i * t && q == Direct(r, Reflect(c, pos), pos, w, p) && q < Pow2(w)
        invariant crc < Pow2(w + s) && Shr(crc, s) == Reflect(q, w)
      {
        ghost var d := Direct(q, Reflect(Low(Shr(c, pos), t), t), t, w, p);
        ReflectedChunk(tg, q, crc, c, pos, d);
        ReflectedChunks(r, c, pos, t, w, p);
        DirectBelow(q, Reflect(Low(Shr(c, pos), t), t), t, w, p);
        var tblIdx := Low(Xor(Shr(crc, s), Shr(c, i * t)), tg.uintBits);
        crc := Xor(tbl[And(tblIdx, Mask(t))], Shr(crc, t));
        q := d;
        pos := pos + t;
      }
      assert pos == 8;
    }
  }

  lemma ShrZero(c: nat)
    ensures Shr(c, 0) == c
  {}

  lemma DirectBelow(r: nat, u: nat, n: nat, w: nat, p: nat)
    requires p < Pow2(w)
    ensures Direct(r, u, n, w, p) < Pow2(w)
  {}

  lemma MaskAgain(crc: nat, s: nat, w: nat)
    requires crc < Pow2(w + s)
    ensures var m := And(crc, Shl(Mask(w), s)); m < Pow2(w + s) && Shr(m, s) == Shr(crc, s)
  {
    hide Bit, And, Shl, Shr, Mask, Pow2;
    SmallBits(crc, w + s);
    var m := And(crc, Shl(Mask(w), s));
    FewBits(m, w + s);
    SameBits(Shr(m, s), Shr(crc, s));
  }

  // ---------------------------------------------------------------- plain input

  /** The emitted statement pair for chunk `i` of byte `c`, plain input, index narrower than a byte. */
  function PlainChunk(tg: Target, crc: nat, c: nat, i: nat): nat
    requires tg.Valid() && CrcShift(tg.params.width) <= tg.idxWidth && (i + 1) * tg.idxWidth <= 8
  {
    var (w, s, t) := (tg.params.width, CrcShift(tg.params.width), tg.idxWidth);
    var tblIdx := Low(Xor(Shr(crc, w + s - t), Shr(c, 8 - (i + 1) * t)), tg.uintBits);
    Low(Xor(TableEntry(tg.params, t, And(tblIdx, Mask(t))), Shl(crc, t - s)), tg.crcBits)
  }

  /** The register after `n` chunks. */
  function PlainChunks(tg: Target, crc: nat, c: nat, n: nat): nat
    requires tg.Valid() && CrcShift(tg.params.width) <= tg.idxWidth && n * tg.idxWidth <= 8
  {
    if n == 0 then crc else
      assert (n - 1) * tg.idxWidth + tg.idxWidth == n * tg.idxWidth;
      PlainChunk(tg, PlainChunks(tg, crc, c, n - 1), c, n - 1)
  }

  /** One index of the plain loop on a full-width register: bits that fell out stay above it and do no harm. */
  lemma PlainChunkStep(tg: Target, r: nat, crc: nat, c: byte, i: nat, d: nat)
    requires tg.Valid() && !tg.params.reflectIn && 8 <= tg.params.width && (i + 1) * tg.idxWidth <= 8
    requires r == Low(crc, tg.params.width)
    requires d == Direct(r, Low(Shr(c, 8 - (i + 1) * tg.idxWidth), tg.idxWidth), tg.idxWidth, tg.params.width, tg.params.poly)
    ensures Low(PlainChunk(tg, crc, c, i), tg.params.width) == d
  {
    hide Bit, Shl, Shr, And, Xor, Low, Rem, Mask, Pow2, Direct;
    var (w, t, p) := (tg.params.width, tg.idxWidth, tg.params.poly);
    var (k, chunk) := (8 - (i + 1) * t, Low(Shr(c, 8 - (i + 1) * t), t));
    IndexOf(crc, r, chunk, Shr(c, k), t, w);
    SameBits(And(Low(Xor(Shr(crc, w - t), Shr(c, k)), tg.uintBits), Mask(t)), And(Xor(Shr(crc, w - t), Shr(c, k)), Mask(t)));
    LookUp(r, chunk, t, w, p);
    PlainSum(crc, Rem(Shl(Xor(Shr(r, w - t), chunk), w), w, p), t, w, tg.crcBits);
  }

  lemma PlainSum(crc: nat, e: nat, t: nat, w: nat, bits: nat)
    requires e < Pow2(w) && w <= bits
    ensures Low(Low(Xor(Shl(e, 0), Shl(crc, t)), bits), w) == Xor(Low(Shl(Low(crc, w), t), w), e)
  {
    hide Bit, Shl, Xor, Low, Pow2;
    SmallBits(e, w);
    SameBits(Low(Low(Xor(Shl(e, 0), Shl(crc, t)), bits), w), Xor(Low(Shl(Low(crc, w), t), w), e));
  }

  lemma PlainNextChunk(r: nat, c: byte, pos: nat, t: nat, w: nat, p: nat)
    requires p < Pow2(w) && pos + t <= 8
    ensures Direct(Direct(r, Shr(c, 8 - pos), pos, w, p), Low(Shr(c, 8 - pos - t), t), t, w, p)
         == Direct(r, Shr(c, 8 - pos - t), pos + t, w, p)
  {
    hide Bit, Shl, Shr, Xor, Low, Rem, Direct;
    DirectCompose(r, Shr(c, 8 - pos), pos, Low(Shr(c, 8 - pos - t), t), t, w, p);
    SameBits(Xor(Shl(Shr(c, 8 - pos), t), Low(Shr(c, 8 - pos - t), t)), Shr(c, 8 - pos - t));
  }

  /** On registers of eight bits or more the sub-byte loop consumes the bits of the byte. */
  lemma {:induction false} PlainChunksAreDirect(tg: Target, r: nat, crc: nat, c: byte, n: nat)
    requires tg.Valid() && !tg.params.reflectIn && 8 <= tg.params.width && n * tg.idxWidth <= 8
    requires r == Low(crc, tg.params.width)
    ensures Low(PlainChunks(tg, crc, c, n), tg.params.width)
         == Direct(r, Shr(c, 8 - n * tg.idxWidth), n * tg.idxWidth, tg.params.width, tg.params.poly)
    decreases n
  {
    hide Bit, Shl, Shr, And, Xor, Low, Rem, Mask, Pow2, Direct, PlainChunk;
    var (w, t, p) := (tg.params.width, tg.idxWidth, tg.params.poly);
    if n == 0 {
      assert Pow2(8) == 256 by { EightBits(); }
      WholeByte(c);
      ConsumeNone(r, w, p);
    } else {
      assert (n - 1) * t + t == n * t;
      PlainChunksAreDirect(tg, r, crc, c, n - 1);
      var before := PlainChunks(tg, crc, c, n - 1);
      var d := Direct(Low(before, w), Low(Shr(c, 8 - n * t), t), t, w, p);
      PlainChunkStep(tg, Low(before, w), before, c, n - 1, d);
      PlainNextChunk(r, c, (n - 1) * t, t, w, p);
    }
  }

  lemma EightBits()
    ensures Pow2(8) == 256
  {}

  /** The emitted loop body for plain input with a sub-byte index. */
  method PlainByte(tg: Target, tbl: seq<nat>, start: nat, c: byte) returns (crc: nat)
    requires tg.Valid() && !tg.params.reflectIn && IsTable(tg, tbl)
    requires tg.idxWidth != 8 && CrcShift(tg.params.width) <= tg.idxWidth
    ensures 8 / tg.idxWidth * tg.idxWidth == 8
    ensures crc == PlainChunks(tg, start, c, 8 / tg.idxWidth)
  {
    hide Bit, Shl, Shr, And, Xor, Low, TableEntry, Mask, Pow2;
    var (w, s, t) := (tg.params.width, CrcShift(tg.params.width), tg.idxWidth);
    crc := start;
    for i := 0 to 8 / t
      invariant i * t <= 8 && crc == PlainChunks(tg, start, c, i)
    {
      assert (i + 1) * t == i * t + t <= 8;
      var tblIdx := Low(Xor(Shr(crc, w + s - t), Shr(c, 8 - (i + 1) * t)), tg.uintBits);
      MaskIsLow(tblIdx, t);
      crc := Low(Xor(tbl[And(tblIdx, Mask(t))], Shl(crc, t - s)), tg.crcBits);
    }
  }

  /** The emitted loop body for plain input with an 8-bit index. */
  method PlainWholeByte(tg: Target, tbl: seq<nat>, start: nat, c: byte, ghost r: nat) returns (crc: nat)
    requires tg.Valid() && !tg.params.reflectIn && IsTable(tg, tbl) && tg.idxWidth == 8
    requires r < Pow2(tg.params.width) && start == Held(tg.params, r)
    ensures crc == Held(tg.params, Direct(r, c, 8, tg.params.width, tg.params.poly))
  {
    hide Bit, Shl, Shr, And, Xor, Low, Rem, Reflect, TableEntry, Mask, Pow2, Direct;
    var (w, s) := (tg.params.width, CrcShift(tg.params.width));
    TableStepValue(tg.params, r, c, Mask(w));
    EightBitMask();
    NarrowIndex(Xor(Shr(start, w + s - 8), c), tg.uintBits);
    var tblIdx := And(Low(Xor(Shr(start, w + s - 8), c), tg.uintBits), 0xff);
    crc := And(Xor(tbl[tblIdx], Shl(start, 8 - s)), Shl(Mask(w), s));
    XorCommutes(tbl[tblIdx], Shl(start, 8 - s));
  }

  lemma EightBitMask()
    ensures Mask(8) == 0xff
  {}

  lemma NarrowIndex(x: nat, bits: nat)
    requires 8 <= bits
    ensures And(Low(x, bits), 0xff) == And(x, 0xff)
  {
    hide Bit, And, Low, Mask;
    EightBitMask();
    SameBits(And(Low(x, bits), Mask(8)), And(x, Mask(8)));
  }

  lemma ShlZero(a: nat)
    ensures Shl(a, 0) == a
  {}

  // ---------------------------------------------------------------- the emitted functions

  /** No shift count of the emitted code is negative. */
  predicate Defined(tg: Target) {
    tg.params.reflectIn || tg.idxWidth == 8 || CrcShift(tg.params.width) <= tg.idxWidth
  }

  /** Plain input with an index narrower than a byte. */
  predicate IsPlainNarrow(tg: Target) {
    !tg.params.reflectIn && CrcShift(tg.params.width) <= tg.idxWidth < 8
  }

  /** The settings for which the emitted loops are right; `EmittedNarrow` is about the others. */
  predicate Supported(tg: Target) {
    tg.params.reflectIn || 8 <= tg.params.width || tg.idxWidth == 8
  }

  /** `crc` holds register `r` inside the update loop, where sub-byte indexes leave bits around it. */
  ghost predicate Holds(tg: Target, crc: nat, r: nat)
    requires tg.Valid()
  {
    var (w, s) := (tg.params.width, CrcShift(tg.params.width));
    if tg.params.reflectIn then crc < Pow2(w + s) && Shr(crc, s) == Reflect(r, w)
    else if tg.idxWidth == 8 then crc == Held(tg.params, r)
    else Low(crc, w) == r
  }

  lemma HeldHolds(tg: Target, r: nat)
    requires tg.Valid() && Supported(tg) && r < Pow2(tg.params.width)
    ensures Holds(tg, Held(tg.params, r), r)
  {
    hide Bit, Shl, Shr, Low, Reflect, Pow2;
    var (w, s) := (tg.params.width, CrcShift(tg.params.width));
    ShlBelow(Reflect(r, w), w, s);
    SameBits(Shr(Shl(Reflect(r, w), s), s), Reflect(r, w));
    ShlZero(r);
    LowSmall(r, w);
  }

  /** The mask of the return statement restores the form in which registers are held between calls. */
  lemma MaskedHolds(tg: Target, crc: nat, r: nat)
    requires tg.Valid() && Supported(tg) && r < Pow2(tg.params.width) && Holds(tg, crc, r)
    ensures And(crc, Shl(Mask(tg.params.width), CrcShift(tg.params.width))) == Held(tg.params, r)
  {
    hide Bit, Shl, Shr, Low, Reflect, Pow2, And, Mask;
    var (w, s) := (tg.params.width, CrcShift(tg.params.width));
    if tg.params.reflectIn {
      MaskHeld(crc, s, w);
    } else if tg.idxWidth == 8 {
      ShlBelow(r, w, s);
      MaskHeld(crc, s, w);
      SameBits(Shr(Shl(r, s), s), r);
    } else {
      ShlZero(Mask(w));
      ShlZero(r);
      MaskIsLow(crc, w);
    }
  }

  /** The emitted body of the update loop. */
  method UpdateByte(tg: Target, tbl: seq<nat>, start: nat, c: byte, ghost r: nat) returns (crc: nat)
    requires tg.Valid() && Defined(tg) && IsTable(tg, tbl) && r < Pow2(tg.params.width)
    requires Supported(tg) ==> Holds(tg, start, r)
    requires !IsPlainNarrow(tg) ==> Supported(tg)
    ensures Supported(tg) ==> Holds(tg, crc, Direct(r, InByte(c, tg.params.reflectIn), 8, tg.params.width, tg.params.poly))
    ensures IsPlainNarrow(tg) ==> crc == PlainByteOf(tg, start, c)
  {
    hide Bit, Shl, Shr, And, Xor, Low, Rem, Reflect, TableEntry, Mask, Pow2, Direct;
    if tg.params.reflectIn {
      crc := ReflectedByte(tg, tbl, start, c, r);
    } else if tg.idxWidth == 8 {
      crc := PlainWholeByte(tg, tbl, start, c, r);
    } else {
      crc := PlainByte(tg, tbl, start, c);
      if Supported(tg) {
        PlainChunksAreDirect(tg, r, start, c, 8 / tg.idxWidth);
        ShrZero(c);
      }
    }
  }

  /** All chunks of a byte. */
  function PlainByteOf(tg: Target, crc: nat, c: nat): nat
    requires tg.Valid() && IsPlainNarrow(tg)
  {
    assert 8 / tg.idxWidth * tg.idxWidth == 8;
    PlainChunks(tg, crc, c, 8 / tg.idxWidth)
  }

  /** The plain sub-byte loop over a message, without the mask of the return statement. */
  function PlainRun(tg: Target, crc: nat, data: seq<byte>): nat
    requires tg.Valid() && IsPlainNarrow(tg)
  {
    if data == [] then crc else PlainByteOf(tg, PlainRun(tg, crc, data[..|data| - 1]), data[|data| - 1])
  }

  /** The emitted update function. */
  method CrcUpdate(tg: Target, tbl: seq<nat>, start: nat, data: seq<byte>, ghost r: nat) returns (crc: nat)
    requires tg.Valid() && Defined(tg) && IsTable(tg, tbl) && r < Pow2(tg.params.width)
    requires start == Held(tg.params, r)
    ensures Supported(tg) ==>
      crc == Held(tg.params, Direct(r, MsgPoly(data, tg.params.reflectIn), 8 * |data|, tg.params.width, tg.params.poly))
    ensures IsPlainNarrow(tg) ==> crc == And(PlainRun(tg, start, data), Shl(Mask(tg.params.width), CrcShift(tg.params.width)))
  {
    hide Bit, Shl, Shr, And, Xor, Low, Rem, Reflect, TableEntry, Mask, Pow2, MsgPoly, Held, Holds, PlainByteOf;
    var (w, s, ri) := (tg.params.width, CrcShift(tg.params.width), tg.params.reflectIn);
    ghost var p := tg.params.poly;
    ghost var q := r;
    crc := start;
    if Supported(tg) { HeldHolds(tg, r); }
    EmptyMessage(ri);
    ConsumeNone(r, w, p);
    assert data[..0] == [];
    for k := 0 to |data|
      invariant q == Direct(r, MsgPoly(data[..k], ri), 8 * k, w, p)
      invariant Supported(tg) ==> Holds(tg, crc, q)
      invariant IsPlainNarrow(tg) ==> crc == PlainRun(tg, start, data[..k])
    {
      crc := UpdateByte(tg, tbl, crc, data[k], q);
      assert data[..k + 1][..k] == data[..k];
      DirectNextByte(r, data, k, ri, w, p);
      q := Direct(q, InByte(data[k], ri), 8, w, p);
    }
    assert data[..|data|] == data;
    if Supported(tg) { MaskedHolds(tg, crc, q); }
    crc := And(crc, Shl(Mask(w), s));
  }

  /** The register that a masked value stands for, plain input. */
  function Unheld(tg: Target, crc: nat): nat {
    Shr(And(crc, Shl(Mask(tg.params.width), CrcShift(tg.params.width))), CrcShift(tg.params.width))
  }

  lemma UnheldHeld(tg: Target, crc: nat)
    requires tg.Valid() && !tg.params.reflectIn
    ensures Unheld(tg, crc) < Pow2(tg.params.width)
    ensures And(crc, Shl(Mask(tg.params.width), CrcShift(tg.params.width))) == Held(tg.params, Unheld(tg, crc))
  {
    hide Bit, Shl, Shr, And, Mask, Pow2;
    var (w, s) := (tg.params.width, CrcShift(tg.params.width));
    FewBits(Unheld(tg, crc), w);
    SameBits(And(crc, Shl(Mask(w), s)), Shl(Unheld(tg, crc), s));
  }

  /** The value that the emitted functions give for plain input and an index narrower than a byte. */
  function PlainChecksum(tg: Target, msg: seq<byte>): nat
    requires tg.Valid() && IsPlainNarrow(tg)
  {
    Output(tg.params, Unheld(tg, PlainRun(tg, Held(tg.params, tg.params.xorIn), msg)))
  }

  method CrcOfMessage(tg: Target, msg: seq<byte>) returns (crc: nat)
    requires tg.Valid() && Defined(tg)
    ensures Supported(tg) ==> crc == Checksum(tg.params, msg)
    ensures IsPlainNarrow(tg) ==> crc == PlainChecksum(tg, msg)
  {
    hide Bit, Shl, Shr, And, Xor, Low, Rem, Reflect, TableEntry, Mask, Pow2, MsgPoly, Held, Output, Unheld, PlainRun, Direct;
    ghost var (ps, w, x) := (tg.params, tg.params.width, tg.params.xorIn);
    var tbl := CrcTable(tg);
    crc := CrcInit(tg);
    crc := CrcUpdate(tg, tbl, crc, msg, x);
    ghost var r := Direct(x, MsgPoly(msg, ps.reflectIn), 8 * |msg|, w, ps.poly);
    DirectBelow(x, MsgPoly(msg, ps.reflectIn), 8 * |msg|, w, ps.poly);
    if IsPlainNarrow(tg) {
      var run := PlainRun(tg, Held(ps, x), msg);
      UnheldHeld(tg, run);
      if Supported(tg) { HeldInjective(ps, r, Unheld(tg, run)); }
      r := Unheld(tg, run);
    }
    crc := CrcFinalize(tg, crc, r);
  }

  lemma HeldInjective(ps: Params, a: nat, b: nat)
    requires ps.Valid() && a < Pow2(ps.width) && b < Pow2(ps.width)
    ensures Held(ps, a) == Held(ps, b) <==> a == b
  {
    hide Bit, Shl, Reflect, Pow2;
    var (w, s) := (ps.width, CrcShift(ps.width));
    if Held(ps, a) == Held(ps, b) {
      var (x, y) := (if ps.reflectIn then Reflect(a, w) else a, if ps.reflectIn then Reflect(b, w) else b);
      forall i: nat ensures Bit(x, i) == Bit(y, i) {
        assert Bit(Shl(x, s), i + s) == Bit(Shl(y, s), i + s);
      }
      SameBits(x, y);
      ReflectTwice(a, w);
      ReflectTwice(b, w);
    }
  }

  /** A program that feeds a message to the emitted functions piece by piece gets the checksum of the whole. */
  method CrcOfPieces(tg: Target, pieces: seq<seq<byte>>) returns (crc: nat)
    requires tg.Valid() && Supported(tg)
    ensures crc == Checksum(tg.params, Flatten(pieces))
  {
    hide Bit, Shl, Shr, And, Xor, Low, Rem, Reflect, TableEntry, Mask, Pow2, MsgPoly, Held, Output;
    var (w, ri) := (tg.params.width, tg.params.reflectIn);
    ghost var p := tg.params.poly;
    var tbl := CrcTable(tg);
    crc := CrcInit(tg);
    ghost var init := tg.params.xorIn;
    EmptyMessage(ri);
    ConsumeNone(init, w, p);
    for k := 0 to |pieces|
      invariant crc == Held(tg.params, Direct(init, MsgPoly(Flatten(pieces[..k]), ri), 8 * |Flatten(pieces[..k])|, w, p))
    {
      ghost var sofar := Flatten(pieces[..k]);
      crc := CrcUpdate(tg, tbl, crc, pieces[k], Direct(init, MsgPoly(sofar, ri), 8 * |sofar|, w, p));
      DirectConcat(init, sofar, pieces[k], ri, w, p);
      assert pieces[..k + 1][..k] == pieces[..k];
    }
    assert pieces[..|pieces|] == pieces;
    crc := CrcFinalize(tg, crc, Direct(init, MsgPoly(Flatten(pieces), ri), 8 * |Flatten(pieces)|, w, p));
  }
}
