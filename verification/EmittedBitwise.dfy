/**
 The bit-by-bit C code that the generator emits, in its augmented and in its direct form.  The bit that
 is tested is kept in a variable of its own, and the register has the width of its C type.
 */
module EmittedBitwise {
  import opened Wrappers
  import opened Bits
  import opened Gf2
  import opened CrcModel
  import opened NonDirect
  import opened TableLaws
  import opened RegisterLaws
  import opened CrcAlgorithms
  import opened CrcTheorems
  import opened EmittedC
  import opened EmittedNarrow

  /**
   The parameters, the number of bits of the C type `crc_t`, and of the type that holds the tested bit:
   none for `bool`, which keeps whether a value is zero, or the width of `int`, which truncates it.
   */
  datatype Config = Config(params: Params, crcBits: nat, flagBits: Option<nat>)
  {
    ghost predicate Typed() {
      params.Valid() && params.width <= crcBits && 8 <= crcBits
    }

    /** The tested bit fits its variable. */
    predicate Fits() {
      flagBits.Some? ==> params.width <= flagBits.value
    }

    ghost predicate Valid() {
      Typed() && Fits()
    }

    /** `bit = crc & msb_mask`, then `if (bit)`. */
    predicate Flag(crc: nat)
      requires 1 <= params.width
    {
      var top := And(crc, Shl(1, params.width - 1));
      (match flagBits case None => top case Some(n) => Low(top, n)) != 0
    }

    /** The polynomial that takes part in the computation: a bit that does not fit is never seen. */
    ghost function Seen(): (p: nat)
      requires Typed()
      ensures p < Pow2(params.width)
    {
      if Fits() then params.poly else 0
    }
  }

  lemma FlagIsTop(cfg: Config, crc: nat)
    requires cfg.Typed()
    ensures cfg.Flag(crc) <==> cfg.Fits() && And(crc, Shl(1, cfg.params.width - 1)) != 0
  {
    hide Bit, And, Low, Shl;
    if cfg.flagBits.Some? {
      var top := And(crc, Shl(1, cfg.params.width - 1));
      ShlOne(cfg.params.width - 1);
      ZeroBits();
      SameBits(Low(top, cfg.flagBits.value), if cfg.Fits() then top else 0);
    }
  }

  /** A turn with the flag of the code, in terms of the polynomial seen. */
  lemma TurnSeen(cfg: Config, crc: nat, shifted: nat)
    requires cfg.Typed()
    ensures (if cfg.Flag(crc) then Xor(shifted, cfg.params.poly) else shifted)
         == if And(crc, Shl(1, cfg.params.width - 1)) != 0 then Xor(shifted, cfg.Seen()) else shifted
  {
    hide Bit, And, Shl, Xor, Config.Flag;
    FlagIsTop(cfg, crc);
    XorZero(shifted);
  }

  // ---------------------------------------------------------------- the augmented form

  /** The emitted initialisation of the bit-by-bit form. */
  method CrcInit(cfg: Config) returns (crc: nat)
    requires cfg.Typed()
    ensures crc == NonDirectInit(cfg.params.xorIn, cfg.params.width, cfg.params.width, cfg.params.poly)
  {
    hide Bit, Shl, Shr, Xor, And, Or, Low, Mask;
    var (w, p) := (cfg.params.width, cfg.params.poly);
    crc := cfg.params.xorIn;
    ShlZero(1);
    for i := 0 to w
      invariant crc < Pow2(w) && crc == NonDirectInit(cfg.params.xorIn, i, w, p)
    {
      LastStep(cfg.params.xorIn, i, w, p);
      TestBit(crc, 0);
      BackByCases(crc, w, p);
      if And(crc, 0x01) != 0 {
        crc := Or(Shr(Xor(crc, p), 1), Shl(1, w - 1));
      } else {
        crc := Shr(crc, 1);
      }
    }
    MaskIsLow(crc, w);
    LowSmall(crc, w);
    crc := And(crc, Mask(w));
  }

  lemma BackByCases(c: nat, w: nat, p: nat)
    requires Divisor(w, p) && c < Pow2(w)
    ensures Back(c, w, p) == if Bit(c, 0) then Or(Shr(Xor(c, p), 1), Shl(1, w - 1)) else Shr(c, 1)
  {}

  /** One turn of the emitted bit loop: the register is truncated to `bits` bits but masked only after the byte. */
  lemma EmittedTurn(reg: nat, r: nat, octet: nat, i: nat, w: nat, p: nat, bits: nat)
    requires Divisor(w, p) && octet < Pow2(8) && i < 8 && w <= bits
    requires Low(reg, w) == AugmentedBits(r, octet, i, w, p)
    ensures var shifted := Low(Or(Shl(reg, 1), And(Shr(octet, 7 - i), 1)), bits);
      var next := if And(reg, Shl(1, w - 1)) != 0 then Xor(shifted, p) else shifted;
      Low(next, w) == AugmentedBits(r, octet, i + 1, w, p)
  {
    hide Bit, Shl, Shr, Xor, And, Or, Low, Rem, Augmented;
    var bit := And(Shr(octet, 7 - i), 1);
    var full := Or(Shl(reg, 1), bit);
    NextBit(octet, i);
    TestBit(reg, w - 1);
    UnmaskedAugmented(reg, bit, if Bit(reg, w - 1) then Xor(full, p) else full, w, p);
    SameBits(Low(Xor(Low(full, bits), p), w), Low(Xor(full, p), w));
    LowTwice(full, bits, w);
    AugmentedNextBit(r, octet, i, w, p);
  }

  /** The emitted update function of the bit-by-bit form. */
  method CrcUpdate(cfg: Config, start: nat, data: seq<byte>) returns (crc: nat)
    requires cfg.Typed() && start < Pow2(cfg.params.width)
    ensures crc == Augmented(start, MsgPoly(data, cfg.params.reflectIn), 8 * |data|, cfg.params.width, cfg.Seen())
  {
    hide Bit, Shl, Shr, Xor, And, Or, Low, Rem, Mask, MsgPoly, Reflect, Pow2;
    var (w, ri) := (cfg.params.width, cfg.params.reflectIn);
    ghost var p := cfg.Seen();
    crc := start;
    EmptyMessage(ri);
    ConsumeNone(start, w, p);
    assert data[..0] == [];
    for k := 0 to |data|
      invariant crc == Augmented(start, MsgPoly(data[..k], ri), 8 * k, w, p)
    {
      var c: nat := data[k];
      if ri {
        c := CrcReflect(c, 8);
      }
      assert c == InByte(data[k], ri);
      ghost var r := crc;
      AugmentedByte(r, c, w, p);
      LowSmall(r, w);
      for i := 0 to 8
        invariant Low(crc, w) == AugmentedBits(r, c, i, w, p)
      {
        EmittedTurn(crc, r, c, i, w, p, cfg.crcBits);
        TurnSeen(cfg, crc, Low(Or(Shl(crc, 1), And(Shr(c, 7 - i), 0x01)), cfg.crcBits));
        var bit := cfg.Flag(crc);
        crc := Low(Or(Shl(crc, 1), And(Shr(c, 7 - i), 0x01)), cfg.crcBits);
        if bit {
          crc := Xor(crc, cfg.params.poly);
        }
      }
      MaskIsLow(crc, w);
      crc := And(crc, Mask(w));
      AugmentedNextByte(start, data, k, ri, w, p);
    }
    assert data[..|data|] == data;
    MaskIsLow(crc, w);
    LowSmall(crc, w);
    crc := And(crc, Mask(w));
  }

  lemma EmittedZeroTurn(reg: nat, r: nat, i: nat, w: nat, p: nat, bits: nat)
    requires Divisor(w, p) && w <= bits
    requires Low(reg, w) == Augmented(r, 0, i, w, p)
    ensures var shifted := Low(Or(Shl(reg, 1), 0), bits);
      var next := if And(reg, Shl(1, w - 1)) != 0 then Xor(shifted, p) else shifted;
      Low(next, w) == Augmented(r, 0, i + 1, w, p)
  {
    hide Bit, Shl, Xor, And, Or, Low, Rem, Augmented;
    var full := Or(Shl(reg, 1), 0);
    TestBit(reg, w - 1);
    UnmaskedAugmented(reg, 0, if Bit(reg, w - 1) then Xor(full, p) else full, w, p);
    SameBits(Low(Xor(Low(full, bits), p), w), Low(Xor(full, p), w));
    LowTwice(full, bits, w);
    AugmentedNextZero(r, i, w, p);
  }

  /** The mask at the end of the emitted finalisation. */
  lemma FinalMask(ps: Params, crc: nat, r: nat)
    requires ps.Valid() && Low(crc, ps.width) == r
    ensures And(Xor(if ps.reflectOut then Reflect(crc, ps.width) else crc, ps.xorOut), Mask(ps.width)) == Output(ps, r)
  {
    hide Bit, Xor, And, Low, Mask, Reflect, Pow2;
    SmallBits(ps.xorOut, ps.width);
    SameBits(Reflect(crc, ps.width), Reflect(r, ps.width));
    var x := if ps.reflectOut then Reflect(crc, ps.width) else crc;
    SameBits(And(Xor(x, ps.xorOut), Mask(ps.width)), Output(ps, r));
  }

  /** The emitted finalisation of the bit-by-bit form. */
  method CrcFinalize(cfg: Config, register: nat) returns (crc: nat)
    requires cfg.Typed() && register < Pow2(cfg.params.width)
    ensures crc == Output(cfg.params, Augmented(register, 0, cfg.params.width, cfg.params.width, cfg.Seen()))
  {
    hide Bit, Shl, Xor, And, Or, Low, Rem, Mask, Reflect, Pow2, Output, Augmented;
    var w := cfg.params.width;
    ghost var p := cfg.Seen();
    crc := register;
    ConsumeNone(register, w, p);
    LowSmall(register, w);
    for i := 0 to w
      invariant Low(crc, w) == Augmented(register, 0, i, w, p)
    {
      EmittedZeroTurn(crc, register, i, w, p, cfg.crcBits);
      TurnSeen(cfg, crc, Low(Or(Shl(crc, 1), 0x00), cfg.crcBits));
      var bit := cfg.Flag(crc);
      crc := Low(Or(Shl(crc, 1), 0x00), cfg.crcBits);
      if bit {
        crc := Xor(crc, cfg.params.poly);
      }
    }
    FinalMask(cfg.params, crc, Augmented(register, 0, w, w, p));
    if cfg.params.reflectOut {
      crc := CrcReflect(crc, w);
    }
    crc := And(Xor(crc, cfg.params.xorOut), Mask(w));
  }

  /** The value that a program gets from the emitted functions of the bit-by-bit form. */
  ghost function EmittedChecksum(cfg: Config, msg: seq<byte>): nat
    requires cfg.Typed()
  {
    var (ps, w, p) := (cfg.params, cfg.params.width, cfg.Seen());
    var start := NonDirectInit(ps.xorIn, w, w, ps.poly);
    Output(ps, Augmented(Augmented(start, MsgPoly(msg, ps.reflectIn), 8 * |msg|, w, p), 0, w, w, p))
  }

  method CrcOfMessage(cfg: Config, msg: seq<byte>) returns (crc: nat)
    requires cfg.Typed()
    ensures crc == EmittedChecksum(cfg, msg)
  {
    hide Bit, Rem, Augmented, Output, NonDirectInit, MsgPoly, Pow2;
    crc := CrcInit(cfg);
    AugmentedBelow(crc, MsgPoly(msg, cfg.params.reflectIn), 8 * |msg|, cfg.params.width, cfg.Seen());
    crc := CrcUpdate(cfg, crc, msg);
    crc := CrcFinalize(cfg, crc);
  }

  lemma AugmentedBelow(r: nat, u: nat, n: nat, w: nat, p: nat)
    requires p < Pow2(w)
    ensures Augmented(r, u, n, w, p) < Pow2(w)
  {}

  /** With nothing but zeros behind it, a register whose polynomial is not seen is shifted out. */
  lemma ShiftedOut(r: nat, n: nat, w: nat)
    requires 1 <= w <= n
    ensures 0 < Pow2(w) && Augmented(r, 0, n, w, 0) == 0
  {
    hide Bit, Shl, Xor, Rem, Low;
    XorZero(Shl(r, n));
    RemOfPower(Shl(r, n), w);
    ZeroBits();
    SameBits(Low(Shl(r, n), w), 0);
  }

  lemma OneByteMessage(c: byte, reflected: bool)
    ensures MsgPoly([c], reflected) == InByte(c, reflected)
  {
    hide Xor, Shl;
    EmptyMessage(reflected);
    MsgPolyAppend([], c, reflected);
    assert [] + [c] == [c];
    ShlLaws(0, 0, 0, 8);
    XorZero(InByte(c, reflected));
  }

  /** The bytes 0 and 1 differ in one bit, wherever reflection puts it. */
  lemma TwoBytes(reflected: bool)
    ensures InByte(0, reflected) == 0
    ensures InByte(1, reflected) == Shl(1, if reflected then 7 else 0)
  {
    hide Bit, Shl, Reflect;
    ZeroBits();
    OneBit();
    SameBits(InByte(0, reflected), 0);
    SameBits(InByte(1, reflected), Shl(1, if reflected then 7 else 0));
  }

  /** Two messages of one byte that no CRC with a non-zero polynomial takes for each other. */
  lemma TwoMessages(ps: Params, r: nat)
    requires ps.Valid() && ps.poly != 0
    ensures Direct(r, MsgPoly([0], ps.reflectIn), 8, ps.width, ps.poly) != Direct(r, MsgPoly([1], ps.reflectIn), 8, ps.width, ps.poly)
  {
    hide Bit, Shl, Xor, Rem, Direct, MsgPoly;
    var k := if ps.reflectIn then 7 else 0;
    OneByteMessage(0, ps.reflectIn);
    OneByteMessage(1, ps.reflectIn);
    TwoBytes(ps.reflectIn);
    DirectDifference(r, 0, Shl(1, k), 8, ps.width, ps.poly);
    XorZero(Shl(1, k));
    ShlLaws(1, 0, k, ps.width);
    PowerTheorem(k + ps.width, ps.width, ps.poly);
  }

  /**
   The emitted bit-by-bit functions give the bit-by-bit value of every message exactly when the tested bit
   fits its variable or the polynomial is 0.  In the C89 form that variable is an `int`.
   */
  lemma FlagTheorem(cfg: Config)
    requires cfg.Typed()
    ensures (forall msg: seq<byte> :: EmittedChecksum(cfg, msg) == AugmentedChecksum(cfg.params, msg))
       <==> (cfg.Fits() || cfg.params.poly == 0)
  {
    hide Bit, Shl, Xor, Rem, MsgPoly, Augmented, Direct, Output, NonDirectInit, AugmentedChecksum;
    var (ps, w) := (cfg.params, cfg.params.width);
    var start := NonDirectInit(ps.xorIn, w, w, ps.poly);
    if cfg.Fits() || ps.poly == 0 {
      forall msg: seq<byte> ensures EmittedChecksum(cfg, msg) == AugmentedChecksum(ps, msg) {
        AugmentedValue(ps, msg, start);
      }
    } else {
      forall msg: seq<byte> ensures EmittedChecksum(cfg, msg) == Output(ps, 0) {
        ShiftedOut(Augmented(start, MsgPoly(msg, ps.reflectIn), 8 * |msg|, w, 0), w, w);
      }
      if AugmentedChecksum(ps, [0]) == Output(ps, 0) && AugmentedChecksum(ps, [1]) == Output(ps, 0) {
        var x := Rem(Shl(start, w), w, ps.poly);
        AugmentedOfByte(ps, start, 0);
        AugmentedOfByte(ps, start, 1);
        TwoMessages(ps, x);
        assert false;
      }
      assert EmittedChecksum(cfg, [0]) == Output(ps, 0) && EmittedChecksum(cfg, [1]) == Output(ps, 0);
    }
  }

  lemma AugmentedOfByte(ps: Params, start: nat, c: byte)
    requires ps.Valid() && start == NonDirectInit(ps.xorIn, ps.width, ps.width, ps.poly)
    ensures AugmentedChecksum(ps, [c]) == Output(ps, 0) ==>
      Direct(Rem(Shl(start, ps.width), ps.width, ps.poly), MsgPoly([c], ps.reflectIn), 8, ps.width, ps.poly) == 0
  {
    hide Bit, Shl, Xor, Rem, MsgPoly, Augmented, Output, NonDirectInit, AugmentedChecksum;
    var (w, p) := (ps.width, ps.poly);
    AugmentedValue(ps, [c], start);
    AugmentedIsDirect(start, MsgPoly([c], ps.reflectIn), 8, w, p);
    OutputInjective(ps, Direct(Rem(Shl(start, w), w, p), MsgPoly([c], ps.reflectIn), 8, w, p), 0);
  }
}
