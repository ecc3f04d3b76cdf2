/**
 The self-test program around the emitted bit-by-bit C code: it computes a checksum, feeds the
 checksum back into the register, and computes the checksum again byte by byte.
 */
module TestMain {
  import opened Bits
  import opened Gf2
  import opened CrcModel
  import opened NonDirect
  import opened TableLaws
  import opened RegisterLaws
  import opened CrcAlgorithms
  import opened EmittedC
  import opened EmittedBitwise

  /** The reflect function of the test program. */
  method CrcReflect(word: nat, dataLen: nat) returns (ret: nat)
    ensures ret == Reflect(word, dataLen)
  {
    hide Bit, Shl, Shr, And, Or, Reflect;
    var data := word;
    ret := 0;
    NoBits(word);
    ShrZero(word);
    for i := 0 to dataLen
      invariant data == Shr(word, i) && ret == Reflect(word, i)
    {
      ReflectByCases(word, i);
      SameBits(Shr(data, 1), Shr(word, i + 1));
      if And(data, 0x01) != 0 {
        ret := Or(Shl(ret, 1), 1);
      } else {
        ret := Shl(ret, 1);
      }
      data := Shr(data, 1);
    }
  }

  lemma ReflectByCases(word: nat, i: nat)
    ensures Reflect(word, i + 1) ==
      if And(Shr(word, i), 0x01) != 0 then Or(Shl(Reflect(word, i), 1), 1) else Shl(Reflect(word, i), 1)
  {
    hide Bit, Shl, Shr, And, Or, Reflect;
    OneBit();
    ZeroBits();
    ShlZero(1);
    TestBit(Shr(word, i), 0);
    var next := if Bit(Shr(word, i), 0) then Or(Shl(Reflect(word, i), 1), 1) else Shl(Reflect(word, i), 1);
    SameBits(Reflect(word, i + 1), next);
  }

  /** The register of the augmented form after a message, before the closing zero bits. */
  function PreFinal(ps: Params, msg: seq<byte>): nat
    requires ps.Valid()
  {
    Augmented(NonDirectInit(ps.xorIn, ps.width, ps.width, ps.poly), MsgPoly(msg, ps.reflectIn), 8 * |msg|, ps.width, ps.poly)
  }

  // ---------------------------------------------------------------- the residue

  /** Feeding the remainder itself after the register leaves nothing. */
  lemma Residue(r: nat, w: nat, p: nat)
    requires p < Pow2(w)
    ensures Augmented(r, Augmented(r, 0, w, w, p), w, w, p) == 0
  {
    hide Bit, Shl, Xor, Rem;
    var x := Shl(r, w);
    XorZero(x);
    var c := Rem(x, w, p);
    RemXor(x, c, w, p);
    RemSmall(c, w, p);
    XorZero(c);
  }

  /** A value without the output stage. */
  function Undone(ps: Params, crc: nat): nat {
    var c := Xor(crc, ps.xorOut);
    if ps.reflectOut then Reflect(c, ps.width) else c
  }

  /** Undoing the output stage. */
  lemma UndoOutput(ps: Params, r: nat)
    requires ps.Valid() && r < Pow2(ps.width)
    ensures Undone(ps, Output(ps, r)) == r
  {
    hide Bit, Xor, Reflect, Pow2;
    var y := if ps.reflectOut then Reflect(r, ps.width) else r;
    SameBits(Xor(Xor(y, ps.xorOut), ps.xorOut), y);
    ReflectTwice(r, ps.width);
  }

  /** The next byte of the checksum, most significant first. */
  lemma ChecksumByte(c: nat, w: nat, k: nat)
    requires k + 8 <= w
    ensures And(Shr(c, w - k - 8), 0xff) < 256
    ensures Xor(Shl(Shr(c, w - k), 8), And(Shr(c, w - k - 8), 0xff)) == Shr(c, w - k - 8)
  {
    hide Bit, Shl, Shr, Xor, And, Mask, Low;
    EightBitMask();
    EightBits();
    MaskIsLow(Shr(c, w - k - 8), 8);
    SameBits(Xor(Shl(Shr(c, w - k), 8), And(Shr(c, w - k - 8), Mask(8))), Shr(c, w - k - 8));
  }

  lemma UndoneIs(ps: Params, crc: nat, r: nat)
    requires ps.Valid() && crc < Pow2(ps.width) && r < Pow2(ps.width)
    ensures Undone(ps, crc) < Pow2(ps.width)
    ensures Undone(ps, crc) == r <==> crc == Output(ps, r)
  {
    hide Bit, Xor, Reflect, Pow2;
    UndoOutput(ps, r);
    XorBelow(crc, ps.xorOut, ps.width);
    var c := Xor(crc, ps.xorOut);
    if ps.reflectOut { ReflectTwice(c, ps.width); }
    SameBits(Xor(c, ps.xorOut), crc);
  }

  /** Feeding `c` after a register leaves the sum of `c` and the remainder. */
  lemma FedRemainder(r: nat, c: nat, w: nat, p: nat)
    requires p < Pow2(w) && c < Pow2(w)
    ensures Augmented(r, c, w, w, p) == 0 <==> c == Augmented(r, 0, w, w, p)
  {
    hide Bit, Shl, Xor, Rem;
    var x := Shl(r, w);
    XorZero(x);
    RemXor(x, c, w, p);
    RemSmall(c, w, p);
    XorEqual(Rem(x, w, p), c);
  }

  /**
   The verification of a checksum: undo the output stage and feed the bytes back into the
   register reached before finalisation.  The result is 0 for the checksum that the finalisation yields
   and for no other value.  Widths that are no multiple of eight are not verified.
   */
  method CrcVerify(cfg: Config, crcPreFinal: nat, crc: nat) returns (result: nat)
    requires cfg.Typed() && crcPreFinal < Pow2(cfg.params.width) && crc < Pow2(cfg.params.width)
    ensures cfg.params.width % 8 != 0 ==> result == 0
    ensures cfg.params.width % 8 == 0 ==>
      (result == 0 <==> crc == Output(cfg.params, Augmented(crcPreFinal, 0, cfg.params.width, cfg.params.width, cfg.Seen())))
  {
    hide Bit, Shl, Shr, Xor, And, Rem, Mask, Reflect, Pow2, Output, MsgPoly, Augmented;
    var (w, ri) := (cfg.params.width, cfg.params.reflectIn);
    ghost var p := cfg.Seen();
    if w % 8 != 0 {
      return 0;
    }
    AugmentedBelow(crcPreFinal, 0, w, w, p);
    UndoneIs(cfg.params, crc, Augmented(crcPreFinal, 0, w, w, p));
    ghost var c := Undone(cfg.params, crc);
    var sum := crc;
    XorZero(crc);
    if cfg.params.xorOut != 0 {
      sum := Xor(sum, cfg.params.xorOut);
    }
    if cfg.params.reflectOut {
      sum := CrcReflect(sum, w);
    }
    assert sum == c;
    result := crcPreFinal;
    ConsumeNone(crcPreFinal, w, p);
    ShrAll(c, w);
    for i := 0 to w / 8
      invariant result < Pow2(w) && result == Augmented(crcPreFinal, Shr(c, w - 8 * i), 8 * i, w, p)
    {
      ChecksumByte(c, w, 8 * i);
      var data := And(Shr(sum, w - 8 * i - 8), 0xff);
      EightBits();
      ghost var plain: byte := data;
      if ri {
        data := CrcReflect(data, 8);
        ReflectTwice(plain, 8);
      }
      AugmentedCompose(crcPreFinal, Shr(c, w - 8 * i), 8 * i, plain, 8, w, p);
      OneByteMessage(data, ri);
      result := EmittedBitwise.CrcUpdate(cfg, result, [data]);
      AugmentedBelow(crcPreFinal, Shr(c, w - 8 * i - 8), 8 * i + 8, w, p);
    }
    ShrZero(c);
    FedRemainder(crcPreFinal, c, w, p);
  }

  lemma ShrAll(c: nat, w: nat)
    requires c < Pow2(w)
    ensures Shr(c, w) == 0
  {
    hide Bit, Shr;
    SmallBits(c, w);
    ZeroBits();
    SameBits(Shr(c, w), 0);
  }

  /** The first `n` bytes of a checksum `c` from which the output stage was removed, as they are fed back. */
  function FedBack(c: nat, w: nat, reflected: bool, n: nat): (data: seq<byte>)
    requires 8 * n <= w
    ensures |data| == n
  {
    if n == 0 then []
    else
      ChecksumByte(c, w, 8 * (n - 1));
      EightBits();
      FedBack(c, w, reflected, n - 1) + [InByte(And(Shr(c, w - 8 * n), 0xff), reflected)]
  }

  lemma {:induction false} FedBackPoly(c: nat, w: nat, reflected: bool, n: nat)
    requires 8 * n <= w && c < Pow2(w)
    ensures MsgPoly(FedBack(c, w, reflected, n), reflected) == Shr(c, w - 8 * n)
    decreases n
  {
    hide Bit, Shl, Shr, Xor, And, Reflect, Pow2, MsgPoly;
    if n == 0 {
      EmptyMessage(reflected);
      ShrAll(c, w);
    } else {
      FedBackPoly(c, w, reflected, n - 1);
      ChecksumByte(c, w, 8 * (n - 1));
      EightBits();
      var plain: byte := And(Shr(c, w - 8 * n), 0xff);
      MsgPolyAppend(FedBack(c, w, reflected, n - 1), InByte(plain, reflected), reflected);
      ReflectTwice(plain, 8);
    }
  }

  /**
   The residue law: when the width is a multiple of eight, a message followed by the bytes of its own
   checksum, with the output stage undone, always brings the augmented register to zero.
   */
  lemma ResidueLaw(ps: Params, msg: seq<byte>)
    requires ps.Valid() && ps.width % 8 == 0
    ensures var c := Undone(ps, AugmentedChecksum(ps, msg));
      PreFinal(ps, msg + FedBack(c, ps.width, ps.reflectIn, ps.width / 8)) == 0
  {
    hide Bit, Shl, Shr, Xor, And, Rem, Reflect, Output, MsgPoly, Augmented, NonDirectInit, AugmentedChecksum;
    var (w, p, ri) := (ps.width, ps.poly, ps.reflectIn);
    var start := NonDirectInit(ps.xorIn, w, w, p);
    var r := PreFinal(ps, msg);
    var c := Augmented(r, 0, w, w, p);
    AugmentedBelow(r, 0, w, w, p);
    AugmentedValue(ps, msg, start);
    UndoOutput(ps, c);
    var data := FedBack(c, w, ri, w / 8);
    FedBackPoly(c, w, ri, w / 8);
    ShrZero(c);
    AugmentedConcat(start, msg, data, ri, w, p);
    Residue(r, w, p);
  }

  lemma OutputBelow(ps: Params, r: nat)
    requires ps.Valid() && r < Pow2(ps.width)
    ensures Output(ps, r) < Pow2(ps.width)
  {
    hide Xor, Reflect, Pow2;
    XorBelow(if ps.reflectOut then Reflect(r, ps.width) else r, ps.xorOut, ps.width);
  }

  datatype Status = Ok(crc: nat) | VerificationFailed | LoopVerificationFailed

  /**
   The self-test: for every configuration and every message neither complaint is ever made, not even
   where the tested bit does not fit its variable and the checksum is wrong.
   */
  method Run(cfg: Config, str: seq<byte>) returns (status: Status)
    requires cfg.Typed()
    ensures status == Ok(EmittedChecksum(cfg, str))
    ensures cfg.Valid() ==> status == Ok(AugmentedChecksum(cfg.params, str))
  {
    hide Bit, Shl, Shr, Xor, And, Rem, Mask, Reflect, Output, MsgPoly, Augmented, NonDirectInit, AugmentedChecksum;
    var (w, ri) := (cfg.params.width, cfg.params.reflectIn);
    ghost var p := cfg.Seen();
    var init := EmittedBitwise.CrcInit(cfg);
    var crcPreFinal := EmittedBitwise.CrcUpdate(cfg, init, str);
    AugmentedBelow(init, MsgPoly(str, ri), 8 * |str|, w, p);
    var crc := EmittedBitwise.CrcFinalize(cfg, crcPreFinal);
    if cfg.Valid() { AugmentedValue(cfg.params, str, init); }
    AugmentedBelow(crcPreFinal, 0, w, w, p);
    OutputBelow(cfg.params, Augmented(crcPreFinal, 0, w, w, p));
    var residue := CrcVerify(cfg, crcPreFinal, crc);
    if residue != 0 {
      return VerificationFailed;
    }
    var test := EmittedBitwise.CrcInit(cfg);
    EmptyMessage(ri);
    ConsumeNone(init, w, p);
    assert str[..0] == [];
    for i := 0 to |str|
      invariant test == Augmented(init, MsgPoly(str[..i], ri), 8 * i, w, p) && test < Pow2(w)
    {
      OneByteMessage(str[i], ri);
      AugmentedNextByte(init, str, i, ri, w, p);
      AugmentedBelow(init, MsgPoly(str[..i + 1], ri), 8 * (i + 1), w, p);
      test := EmittedBitwise.CrcUpdate(cfg, test, [str[i]]);
    }
    assert str[..|str|] == str;
    test := EmittedBitwise.CrcFinalize(cfg, test);
    if test != crc {
      return LoopVerificationFailed;
    }
    status := Ok(crc);
  }
}
