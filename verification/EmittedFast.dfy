/**
 The direct bit-by-bit C code that the generator emits.  With reflected input it runs through the byte
 from its low end, or, when the reflection is only known at run time, reflects the byte first.  The tested
 bit is kept in a variable of its own and flipped there by the message bit.
 */
module EmittedFast {
  import opened Wrappers
  import opened Bits
  import opened Gf2
  import opened CrcModel
  import opened TableLaws
  import opened RegisterLaws
  import opened CrcTheorems
  import opened EmittedC
  import opened EmittedNarrow
  import opened EmittedBitwise

  /**
   What the code does to register `r` with the `n` message bits `u`.  If the tested bit does not fit its
   variable only the message bits are seen: every 1 adds the polynomial to the shifted register.
   */
  ghost function Feed(cfg: Config, r: nat, u: nat, n: nat): (s: nat)
    requires cfg.Typed()
    ensures s < Pow2(cfg.params.width)
  {
    var (w, p) := (cfg.params.width, cfg.params.poly);
    if cfg.Fits() then Direct(r, u, n, w, p) else Low(Xor(Shl(r, n), Mul(u, p)), w)
  }

  lemma {:induction false} MulLeftShl(u: nat, n: nat, p: nat)
    ensures Mul(Shl(u, n), p) == Shl(Mul(u, p), n)
    decreases n
  {
    hide Bit, Xor, Mul;
    if n > 0 {
      MulLeftShl(u, n - 1, p);
      var a := Shl(u, n - 1);
      MulCons(Cons(a, false), p);
      XorZero(Shl(Mul(a, p), 1));
      ShlLaws(Mul(u, p), 0, n - 1, 1);
    }
  }

  lemma {:induction false} MulZero(u: nat)
    ensures Mul(u, 0) == 0
  {
    hide Bit, Xor, Shl;
    if u != 0 {
      MulZero(u / 2);
      ShlLaws(0, 0, 0, 1);
      XorZero(0);
    }
  }

  lemma FeedCompose(cfg: Config, r: nat, u: nat, m: nat, v: nat, n: nat)
    requires cfg.Typed()
    ensures Feed(cfg, Feed(cfg, r, u, m), v, n) == Feed(cfg, r, Xor(Shl(u, n), v), m + n)
  {
    hide Bit, Xor, Shl, Mul, Low, Direct;
    var (w, p) := (cfg.params.width, cfg.params.poly);
    if cfg.Fits() {
      DirectCompose(r, u, m, v, n, w, p);
    } else {
      MulXor(Shl(u, n), v, p);
      MulLeftShl(u, n, p);
      LostCompose(r, Mul(u, p), m, Mul(v, p), n, w);
    }
  }

  lemma LostCompose(r: nat, a: nat, m: nat, b: nat, n: nat, w: nat)
    ensures Low(Xor(Shl(Low(Xor(Shl(r, m), a), w), n), b), w) == Low(Xor(Shl(r, m + n), Xor(Shl(a, n), b)), w)
  {
    hide Bit, Xor, Shl, Low;
    SameBits(Low(Xor(Shl(Low(Xor(Shl(r, m), a), w), n), b), w), Low(Xor(Shl(r, m + n), Xor(Shl(a, n), b)), w));
  }

  lemma FeedNone(cfg: Config, r: nat)
    requires cfg.Typed() && r < Pow2(cfg.params.width)
    ensures Feed(cfg, r, 0, 0) == r
  {
    hide Bit, Xor, Shl, Low, Rem;
    ConsumeNone(r, cfg.params.width, cfg.params.poly);
    XorZero(r);
    ShlZero(r);
    LowSmall(r, cfg.params.width);
  }

  // ---------------------------------------------------------------- the loops

  /** The emitted turn for one message bit. */
  function FastTurn(cfg: Config, crc: nat, one: bool): nat
    requires 1 <= cfg.params.width
  {
    var bit := if one then !cfg.Flag(crc) else cfg.Flag(crc);
    var shifted := Low(Shl(crc, 1), cfg.crcBits);
    if bit then Xor(shifted, cfg.params.poly) else shifted
  }

  lemma FastTurnFeeds(cfg: Config, crc: nat, one: bool)
    requires cfg.Typed()
    ensures Low(FastTurn(cfg, crc, one), cfg.params.width) == Feed(cfg, Low(crc, cfg.params.width), if one then 1 else 0, 1)
  {
    hide Bit, Xor, Shl, Low, And, Rem, Mul, Direct, Config.Flag;
    var (w, p, bit) := (cfg.params.width, cfg.params.poly, if one then 1 else 0);
    FlagIsTop(cfg, crc);
    TestBit(crc, w - 1);
    OneBit();
    ZeroBits();
    var full := Shl(crc, 1);
    if cfg.Fits() {
      var next := if Bit(crc, w - 1) != Bit(bit, 0) then Xor(full, p) else full;
      UnmaskedDirect(crc, bit, next, w, p);
      LowTwice(full, cfg.crcBits, w);
      SameBits(Low(Xor(Low(full, cfg.crcBits), p), w), Low(Xor(full, p), w));
    } else {
      MulBit(p);
      XorZero(p);
      SameBits(Low(if one then Xor(Low(full, cfg.crcBits), p) else Low(full, cfg.crcBits), w),
               Low(Xor(Shl(Low(crc, w), 1), if one then p else 0), w));
    }
  }

  lemma MulBit(p: nat)
    ensures Mul(0, p) == 0 && Mul(1, p) == p
  {
    hide Bit, Xor, Shl;
    ShlLaws(0, 0, 0, 1);
    XorZero(p);
    assert Mul(1, p) == Xor(Shl(Mul(0, p), 1), p);
  }

  /** One more bit of the octet. */
  lemma FastNext(cfg: Config, crc: nat, r: nat, octet: nat, i: nat, one: bool)
    requires cfg.Typed() && octet < Pow2(8) && i < 8 && (one <==> Bit(And(Shr(octet, 7 - i), 1), 0))
    requires Low(crc, cfg.params.width) == Feed(cfg, r, Shr(octet, 8 - i), i)
    ensures Low(FastTurn(cfg, crc, one), cfg.params.width) == Feed(cfg, r, Shr(octet, 7 - i), i + 1)
  {
    hide Bit, Xor, Shl, Shr, Low, And, FastTurn, Feed;
    NextBit(octet, i);
    OneBit();
    ZeroBits();
    SameBits(And(Shr(octet, 7 - i), 1), if one then 1 else 0);
    FastTurnFeeds(cfg, crc, one);
    FeedCompose(cfg, r, Shr(octet, 8 - i), i, And(Shr(octet, 7 - i), 1), 1);
  }

  /** The emitted body of the bit loop. */
  method Turn(cfg: Config, start: nat, c: nat, i: nat) returns (crc: nat)
    requires 1 <= cfg.params.width
    ensures crc == FastTurn(cfg, start, And(c, i) != 0)
  {
    hide Shl, Xor, And, Low, Config.Flag;
    var bit := cfg.Flag(start);
    if And(c, i) != 0 {
      bit := !bit;
    }
    crc := Low(Shl(start, 1), cfg.crcBits);
    if bit {
      crc := Xor(crc, cfg.params.poly);
    }
  }

  /** `for (i = 0x80; i > 0; i >>= 1)` */
  method HighBitsFirst(cfg: Config, r: nat, c: nat) returns (crc: nat)
    requires cfg.Typed() && r < Pow2(cfg.params.width) && c < Pow2(8)
    ensures Low(crc, cfg.params.width) == Feed(cfg, r, c, 8)
  {
    hide Bit, Shl, Shr, Xor, And, Low, Feed, Pow2, FastTurn;
    var i := 0x80;
    ghost var k := 0;
    crc := r;
    WholeByte(c);
    FeedNone(cfg, r);
    LowSmall(r, cfg.params.width);
    TopBit(0);
    while i > 0
      invariant k <= 8 && i == Shr(0x80, k) && (i == 0 <==> k == 8)
      invariant Low(crc, cfg.params.width) == Feed(cfg, r, Shr(c, 8 - k), k)
      decreases 8 - k
    {
      BitFromTop(c, k);
      FastNext(cfg, crc, r, c, k, And(c, i) != 0);
      crc := Turn(cfg, crc, c, i);
      k := k + 1;
      TopBit(k);
      SameBits(Shr(i, 1), Shr(0x80, k));
      i := Shr(i, 1);
    }
  }

  lemma TopBit(k: nat)
    requires k <= 8
    ensures Shr(0x80, k) == 0 <==> k == 8
    ensures Shr(0x80, 0) == 0x80
  {
    hide Bit, Shr;
    assert 0x80 < Pow2(8) && Pow2(7) == 0x80;
    SmallBits(0x80, 8);
    ShlOne(7);
    ZeroBits();
    ShrZero(0x80);
    if k < 8 {
      assert Bit(Shr(0x80, k), 7 - k);
    } else {
      SameBits(Shr(0x80, 8), 0);
    }
  }

  /** `for (i = 0x01; i & 0xff; i <<= 1)` */
  method LowBitsFirst(cfg: Config, r: nat, c: nat) returns (crc: nat)
    requires cfg.Typed() && r < Pow2(cfg.params.width) && c < Pow2(8)
    ensures Low(crc, cfg.params.width) == Feed(cfg, r, Reflect(c, 8), 8)
  {
    hide Bit, Shl, Shr, Xor, And, Low, Feed, Pow2, Reflect, FastTurn;
    var i := 0x01;
    ghost var k := 0;
    ghost var octet := Reflect(c, 8);
    crc := r;
    WholeByte(octet);
    FeedNone(cfg, r);
    LowSmall(r, cfg.params.width);
    LowBit(0);
    while And(i, 0xff) != 0
      invariant k <= 8 && i == Shl(1, k) && (And(i, 0xff) == 0 <==> k == 8)
      invariant Low(crc, cfg.params.width) == Feed(cfg, r, Shr(octet, 8 - k), k)
      decreases 8 - k
    {
      ReflectedBit(c, k);
      FastNext(cfg, crc, r, octet, k, And(c, i) != 0);
      crc := Turn(cfg, crc, c, i);
      ShlLaws(1, 0, k, 1);
      k := k + 1;
      LowBit(k);
      i := Shl(i, 1);
    }
  }

  lemma LowBit(k: nat)
    requires k <= 8
    ensures And(Shl(1, k), 0xff) == 0 <==> k == 8
    ensures Shl(1, 0) == 1
  {
    hide Bit, Shl, And, Mask;
    EightBitMask();
    OneBit();
    ZeroBits();
    ShlZero(1);
    if k < 8 {
      assert Bit(And(Shl(1, k), Mask(8)), k);
    } else {
      SameBits(And(Shl(1, 8), Mask(8)), 0);
    }
  }

  lemma ReflectedBit(c: nat, k: nat)
    requires k < 8
    ensures And(c, Shl(1, k)) != 0 <==> Bit(And(Shr(Reflect(c, 8), 7 - k), 1), 0)
  {
    hide Bit, Shl, Shr, And, Reflect;
    TestBit(c, k);
    OneBit();
  }

  // ---------------------------------------------------------------- the emitted functions

  method CrcInit(cfg: Config) returns (crc: nat)
    requires cfg.Typed()
    ensures crc == cfg.params.xorIn
  {
    hide And, Mask, Low;
    MaskIsLow(cfg.params.xorIn, cfg.params.width);
    LowSmall(cfg.params.xorIn, cfg.params.width);
    crc := And(cfg.params.xorIn, Mask(cfg.params.width));
  }

  /** The emitted update function; `known` says whether the reflection was known when the code was emitted. */
  method CrcUpdate(cfg: Config, known: bool, start: nat, data: seq<byte>) returns (crc: nat)
    requires cfg.Typed() && start < Pow2(cfg.params.width)
    ensures crc == Feed(cfg, start, MsgPoly(data, cfg.params.reflectIn), 8 * |data|)
  {
    hide Bit, Shl, Xor, And, Low, Mask, MsgPoly, Reflect, Pow2, Feed;
    var (w, ri) := (cfg.params.width, cfg.params.reflectIn);
    crc := start;
    EmptyMessage(ri);
    FeedNone(cfg, start);
    assert data[..0] == [];
    for k := 0 to |data|
      invariant crc == Feed(cfg, start, MsgPoly(data[..k], ri), 8 * k)
    {
      var c: nat := data[k];
      EightBits();
      ghost var r := crc;
      if ri && !known {
        c := CrcReflect(c, 8);
      }
      if ri && known {
        crc := LowBitsFirst(cfg, crc, c);
      } else {
        crc := HighBitsFirst(cfg, crc, c);
      }
      MaskIsLow(crc, w);
      crc := And(crc, Mask(w));
      MsgPolyAppend(data[..k], data[k], ri);
      assert data[..k] + [data[k]] == data[..k + 1];
      FeedCompose(cfg, start, MsgPoly(data[..k], ri), 8 * k, InByte(data[k], ri), 8);
    }
    assert data[..|data|] == data;
    MaskIsLow(crc, w);
    LowSmall(crc, w);
    crc := And(crc, Mask(w));
  }

  method CrcFinalize(cfg: Config, register: nat) returns (crc: nat)
    requires cfg.Typed() && register < Pow2(cfg.params.width)
    ensures crc == Output(cfg.params, register)
  {
    hide Bit, Xor, And, Low, Mask, Reflect, Pow2, Output;
    var w := cfg.params.width;
    crc := register;
    LowSmall(register, w);
    FinalMask(cfg.params, crc, register);
    if cfg.params.reflectOut {
      crc := CrcReflect(crc, w);
    }
    crc := And(Xor(crc, cfg.params.xorOut), Mask(w));
  }

  /** The value that a program gets from the emitted functions of the direct form. */
  ghost function FastChecksum(cfg: Config, msg: seq<byte>): nat
    requires cfg.Typed()
  {
    Output(cfg.params, Feed(cfg, cfg.params.xorIn, MsgPoly(msg, cfg.params.reflectIn), 8 * |msg|))
  }

  method CrcOfMessage(cfg: Config, known: bool, msg: seq<byte>) returns (crc: nat)
    requires cfg.Typed()
    ensures crc == FastChecksum(cfg, msg)
  {
    hide Feed, Output, MsgPoly, Pow2;
    crc := CrcInit(cfg);
    crc := CrcUpdate(cfg, known, crc, msg);
    crc := CrcFinalize(cfg, crc);
  }

  // ---------------------------------------------------------------- when it is right

  /** A byte and enough zero bytes behind it. */
  function Padded(c: byte, n: nat): (msg: seq<byte>)
    ensures |msg| == n + 1
  {
    if n == 0 then [c] else Padded(c, n - 1) + [0]
  }

  lemma {:induction false} PaddedPoly(c: byte, n: nat, reflected: bool)
    ensures MsgPoly(Padded(c, n), reflected) == Shl(InByte(c, reflected), 8 * n)
    decreases n
  {
    hide Bit, Shl, Xor, Reflect, MsgPoly;
    if n == 0 {
      OneByteMessage(c, reflected);
      ShlZero(InByte(c, reflected));
    } else {
      PaddedPoly(c, n - 1, reflected);
      MsgPolyAppend(Padded(c, n - 1), 0, reflected);
      TwoBytes(reflected);
      XorZero(Shl(MsgPoly(Padded(c, n - 1), reflected), 8));
      ShlLaws(InByte(c, reflected), 0, 8 * (n - 1), 8);
    }
  }

  /** With `w` zero bytes behind it nothing is left of a message whose register bits are not seen. */
  lemma LostPadded(cfg: Config, c: byte)
    requires cfg.Typed() && !cfg.Fits()
    ensures Feed(cfg, cfg.params.xorIn, MsgPoly(Padded(c, cfg.params.width), cfg.params.reflectIn), 8 * (cfg.params.width + 1)) == 0
  {
    hide Bit, Shl, Xor, Low, Mul, MsgPoly;
    var (w, p) := (cfg.params.width, cfg.params.poly);
    var u := InByte(c, cfg.params.reflectIn);
    PaddedPoly(c, w, cfg.params.reflectIn);
    MulLeftShl(u, 8 * w, p);
    ZeroBits();
    SameBits(Low(Xor(Shl(cfg.params.xorIn, 8 * (w + 1)), Shl(Mul(u, p), 8 * w)), w), 0);
  }

  lemma PaddedDiffer(ps: Params, n: nat)
    requires ps.Valid() && ps.poly != 0
    ensures Checksum(ps, Padded(0, n)) != Checksum(ps, Padded(1, n))
  {
    hide Bit, Shl, Xor, Rem, Direct, MsgPoly, Output;
    var (w, p, ri) := (ps.width, ps.poly, ps.reflectIn);
    var k := if ri then 7 else 0;
    PaddedPoly(0, n, ri);
    PaddedPoly(1, n, ri);
    TwoBytes(ri);
    ShlLaws(0, 0, 0, 8 * n);
    ShlLaws(1, 0, k, 8 * n);
    DirectDifference(ps.xorIn, 0, Shl(1, k + 8 * n), 8 * (n + 1), w, p);
    XorZero(Shl(1, k + 8 * n));
    ShlLaws(1, 0, k + 8 * n, w);
    PowerTheorem(k + 8 * n + w, w, p);
    DirectBelow(ps.xorIn, 0, 8 * (n + 1), w, p);
    DirectBelow(ps.xorIn, Shl(1, k + 8 * n), 8 * (n + 1), w, p);
    OutputInjective(ps, Direct(ps.xorIn, 0, 8 * (n + 1), w, p), Direct(ps.xorIn, Shl(1, k + 8 * n), 8 * (n + 1), w, p));
  }

  lemma ZeroPolynomial(r: nat, u: nat, n: nat, w: nat)
    requires 1 <= w
    ensures 0 < Pow2(w) && Low(Xor(Shl(r, n), Mul(u, 0)), w) == Direct(r, u, n, w, 0)
  {
    hide Bit, Shl, Xor, Rem, Low, Mul;
    MulZero(u);
    RemOfPower(Xor(Shl(r, n), Shl(u, w)), w);
    ZeroBits();
    SameBits(Low(Xor(Shl(r, n), 0), w), Low(Xor(Shl(r, n), Shl(u, w)), w));
  }

  /**
   The emitted direct functions give the checksum of every message exactly when the tested bit fits its
   variable or the polynomial is 0.
   */
  lemma FastTheorem(cfg: Config)
    requires cfg.Typed()
    ensures (forall msg: seq<byte> :: FastChecksum(cfg, msg) == Checksum(cfg.params, msg))
       <==> (cfg.Fits() || cfg.params.poly == 0)
  {
    hide Bit, Shl, Xor, Rem, MsgPoly, Direct, Output, Mul, Low, Padded;
    var (ps, w) := (cfg.params, cfg.params.width);
    if cfg.Fits() || ps.poly == 0 {
      forall msg: seq<byte> ensures FastChecksum(cfg, msg) == Checksum(ps, msg) {
        if !cfg.Fits() { ZeroPolynomial(ps.xorIn, MsgPoly(msg, ps.reflectIn), 8 * |msg|, w); }
      }
    } else {
      LostPadded(cfg, 0);
      LostPadded(cfg, 1);
      PaddedDiffer(ps, w);
      assert FastChecksum(cfg, Padded(0, w)) == FastChecksum(cfg, Padded(1, w));
    }
  }
}
