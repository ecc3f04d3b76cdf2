/**
 The class `Crc`: one checksum computed bit by bit over the augmented message, bit by bit
 directly, and from a table.
 */
module CrcAlgorithms {
  import opened Wrappers
  import opened Bits
  import opened Gf2
  import opened CrcModel
  import opened NonDirect
  import opened TableLaws
  import opened RegisterLaws

  // ---------------------------------------------------------------- the table-driven form, for every index width

  /** The index that the register and the next byte select. */
  function TableIndex(ps: Params, t: nat, register: nat, c: byte): nat
    requires ps.Valid() && t <= 8
  {
    var s := CrcShift(ps.width);
    And(Xor(Shr(register, if ps.reflectIn then s else ps.width + s - t), c), 0xff)
  }

  /** One byte; `None` is the exception for an index outside the table or for a negative shift count. */
  function TableStepOf(ps: Params, t: nat, register: nat, c: byte): Option<nat>
    requires ps.Valid() && t <= 8
  {
    var (w, s, i) := (ps.width, CrcShift(ps.width), TableIndex(ps, t, register, c));
    if Pow2(t) <= i || (!ps.reflectIn && t < s) then None
    else Some(And(Xor(if ps.reflectIn then Shr(register, t) else Shl(register, t - s), TableEntry(ps, t, i)), Shl(Mask(w), s)))
  }

  function TableStart(ps: Params): nat {
    Shl(if ps.reflectIn then Reflect(ps.xorIn, ps.width) else ps.xorIn, CrcShift(ps.width))
  }

  function TableRun(ps: Params, t: nat, msg: seq<byte>): Option<nat>
    requires ps.Valid() && t <= 8
  {
    if msg == [] then Some(TableStart(ps))
    else
      match TableRun(ps, t, msg[..|msg| - 1])
      case None => None
      case Some(register) => TableStepOf(ps, t, register, msg[|msg| - 1])
  }

  /** What the table-driven form yields with `t`-bit indexes. */
  function TableForm(ps: Params, t: nat, msg: seq<byte>): Option<nat>
    requires ps.Valid() && t <= 8
  {
    var (w, s) := (ps.width, CrcShift(ps.width));
    match TableRun(ps, t, msg)
    case None => None
    case Some(register) =>
      Some(Output(ps, if ps.reflectIn then And(Reflect(register, w + s), Mask(w)) else Shr(register, s)))
  }

  class Crc {
    const params: Params
    const tableIdxWidth: nat
    const tableWidth: nat
    const msbMask: nat
    const mask: nat
    const directInit: nat
    const nonDirectInit: nat
    const crcShift: nat

    ghost predicate Valid() {
      var (w, p) := (params.width, params.poly);
      && params.Valid()
      && 1 <= tableIdxWidth <= 8
      && tableWidth == Pow2(tableIdxWidth)
      && msbMask == Shl(1, w - 1)
      && mask == Mask(w)
      && directInit == params.xorIn
      && nonDirectInit == NonDirectInit(params.xorIn, w, w, p)
      && crcShift == CrcShift(w)
    }

    constructor (params: Params, idxWidth: Option<nat>)
      requires params.Valid() && (idxWidth.Some? ==> 1 <= idxWidth.value <= 8)
      ensures Valid() && this.params == params
      ensures tableIdxWidth == if idxWidth.Some? then idxWidth.value else 8
    {
      this.params := params;
      var msb := Shl(1, params.width - 1);
      ShlOne(params.width - 1);
      var all := Or(Shl(msb - 1, 1), 1);
      assert all == Mask(params.width) by {
        assert msb - 1 == Mask(params.width - 1);
        OneBit();
        SameBits(all, Mask(params.width));
      }
      msbMask, mask := msb, all;
      var t := if idxWidth.Some? then idxWidth.value else 8;
      ShlOne(t);
      tableIdxWidth, tableWidth := t, Shl(1, t);
      directInit := params.xorIn;
      var start := GetNonDirectInit(params, msb, all, params.xorIn);
      nonDirectInit := start;
      crcShift := if params.width < 8 then 8 - params.width else 0;
    }

    /** The initial value of the augmented form for a given direct one. */
    static method GetNonDirectInit(params: Params, msbMask: nat, mask: nat, init: nat) returns (crc: nat)
      requires params.Valid() && init < Pow2(params.width)
      requires msbMask == Shl(1, params.width - 1) && mask == Mask(params.width)
      ensures crc == NonDirectInit(init, params.width, params.width, params.poly)
    {
      var (w, p) := (params.width, params.poly);
      crc := init;
      for i := 0 to w
        invariant crc < Pow2(w) && crc == NonDirectInit(init, i, w, p)
      {
        ghost var before := crc;
        var bit := And(crc, 0x01);
        ShlOne(0);
        TestBit(crc, 0);
        if bit != 0 {
          crc := Xor(crc, p);
        }
        crc := Shr(crc, 1);
        if bit != 0 {
          crc := Or(crc, msbMask);
        }
        assert crc == Back(before, w, p);
        LastStep(init, i, w, p);
      }
      MaskIsLow(crc, w);
      LowSmall(crc, w);
      crc := And(crc, mask);
    }

    /** Reverse the bit order of a word. */
    method ReflectWord(word: nat, width: nat) returns (x: nat)
      requires 1 <= width
      ensures x == Reflect(word, width)
    {
      var data := word;
      x := And(data, 0x01);
      OneBit();
      SameBits(x, Reflect(word, 1));
      for i := 0 to width - 1
        invariant data == Shr(word, i) && x == Reflect(word, i + 1)
      {
        ReflectStep(word, i + 1);
        SameBits(Shr(data, 1), Shr(word, i + 1));
        data := Shr(data, 1);
        x := Or(Shl(x, 1), And(data, 0x01));
      }
    }

    /** The byte as it is consumed: reversed when the input is reflected. */
    method Octet(c: byte) returns (octet: nat)
      ensures octet == InByte(c, params.reflectIn)
    {
      octet := c;
      if params.reflectIn {
        octet := ReflectWord(octet, 8);
      }
    }

    /** Output reflection and output mask, as at the end of every form. */
    method Finish(register: nat) returns (crc: nat)
      requires Valid()
      ensures crc == Output(params, register)
    {
      crc := register;
      if params.reflectOut {
        crc := ReflectWord(crc, params.width);
      }
      crc := Xor(crc, params.xorOut);
    }

    /** The inner loop of the augmented form: eight message bits enter the register at the bottom. */
    method AugmentByte(r: nat, octet: nat) returns (register: nat)
      requires Valid() && r < Pow2(params.width) && octet < Pow2(8)
      ensures register == Augmented(r, octet, 8, params.width, params.poly)
    {
      var (w, p) := (params.width, params.poly);
      register := r;
      AugmentedByte(r, octet, w, p);
      for i := 0 to 8
        invariant register < Pow2(w) && register == AugmentedBits(r, octet, i, w, p)
      {
        AugmentedTurn(register, r, octet, i, w, p, msbMask, mask);
        var topbit := And(register, msbMask);
        register := Or(And(Shl(register, 1), mask), And(Shr(octet, 7 - i), 0x01));
        if topbit != 0 {
          register := Xor(register, p);
        }
      }
    }

    /** The closing loop of the augmented form: `width` zero bits. */
    method AugmentZeros(r: nat) returns (register: nat)
      requires Valid() && r < Pow2(params.width)
      ensures register == Augmented(r, 0, params.width, params.width, params.poly)
    {
      var (w, p) := (params.width, params.poly);
      register := r;
      ConsumeNone(r, w, p);
      for i := 0 to w
        invariant register < Pow2(w) && register == Augmented(r, 0, i, w, p)
      {
        AugmentedZeroTurn(register, r, i, w, p, msbMask, mask);
        var topbit := And(register, msbMask);
        register := And(Shl(register, 1), mask);
        if topbit != 0 {
          register := Xor(register, p);
        }
      }
    }

    /** The classic form: every bit of the message, then `width` zero bits, pass through the register. */
    method BitByBit(inStr: seq<byte>) returns (crc: nat)
      requires Valid()
      ensures crc == AugmentedChecksum(params, inStr)
      ensures params.OddPoly() || params.xorIn == 0 ==> crc == Checksum(params, inStr)
    {
      var (w, p, ri) := (params.width, params.poly, params.reflectIn);
      var register := nonDirectInit;
      ConsumeNone(nonDirectInit, w, p);
      for k := 0 to |inStr|
        invariant register == Augmented(nonDirectInit, MsgPoly(inStr[..k], ri), 8 * k, w, p)
      {
        var octet := Octet(inStr[k]);
        register := AugmentByte(register, octet);
        AugmentedNextByte(nonDirectInit, inStr, k, ri, w, p);
      }
      assert inStr[..|inStr|] == inStr;
      register := AugmentZeros(register);
      AugmentedValue(params, inStr, nonDirectInit);
      crc := Finish(register);
    }

    /** The inner loop of the direct form; bits that leave the register stay above it until the end. */
    method FeedByte(r: nat, octet: nat) returns (register: nat)
      requires Valid() && r < Pow2(params.width) && octet < Pow2(8)
      ensures register == Direct(r, octet, 8, params.width, params.poly)
    {
      hide Bit, Shl, Shr, Xor, And, Rem, Mask, NonDirectInit;
      var (w, p) := (params.width, params.poly);
      register := r;
      DirectByte(r, octet, w, p);
      for i := 0 to 8
        invariant Low(register, w) == DirectBits(r, octet, i, w, p)
      {
        DirectTurn(register, r, octet, i, w, p, msbMask);
        var topbit := And(register, msbMask);
        if And(octet, Shr(0x80, i)) != 0 {
          topbit := Xor(topbit, msbMask);
        }
        register := Shl(register, 1);
        if topbit != 0 {
          register := Xor(register, p);
        }
      }
      MaskIsLow(register, w);
      register := And(register, mask);
    }

    /** The direct form: the message bits meet the bits that fall out of the register. */
    method BitByBitFast(inStr: seq<byte>) returns (crc: nat)
      requires Valid()
      ensures crc == Checksum(params, inStr)
    {
      var (w, p, ri) := (params.width, params.poly, params.reflectIn);
      var register := directInit;
      ConsumeNone(directInit, w, p);
      for k := 0 to |inStr|
        invariant register == Direct(directInit, MsgPoly(inStr[..k], ri), 8 * k, w, p)
      {
        var octet := Octet(inStr[k]);
        register := FeedByte(register, octet);
        DirectNextByte(directInit, inStr, k, ri, w, p);
      }
      assert inStr[..|inStr|] == inStr;
      crc := Finish(register);
    }

    /** The inner loop of the table generator, started from index `index`. */
    method DivideIndex(index: nat) returns (register: nat)
      requires Valid() && index < Pow2(tableIdxWidth)
      ensures Low(register, params.width + crcShift) == Shl(Rem(Shl(index, params.width), params.width, params.poly), crcShift)
    {
      hide Bit, Pow2, Shl, Xor, And, Low, Mask, Rem, NonDirectInit;
      var (w, p, t, s) := (params.width, params.poly, tableIdxWidth, crcShift);
      register := Shl(index, w + s - t);
      IndexRegister(index, t, s, w, p);
      for j := 0 to t
        invariant Shl(p, s) < Pow2(w + s) && Low(register, w + s) == Rem(Shl(index, w + s - t + j), w + s, Shl(p, s))
      {
        TableTurn(register, index, w + s - t + j, s, w, p, msbMask);
        if And(register, Shl(msbMask, s)) != 0 {
          register := Xor(Shl(register, 1), Shl(p, s));
        } else {
          register := Shl(register, 1);
        }
      }
    }

    /** The table of remainders. */
    method GenTable() returns (tbl: seq<nat>)
      requires Valid()
      ensures |tbl| == tableWidth
      ensures forall i :: 0 <= i < |tbl| ==> tbl[i] == TableEntry(params, tableIdxWidth, i)
    {
      var (t, s) := (tableIdxWidth, crcShift);
      ShlOne(t);
      var tableLength := Shl(1, t);
      tbl := seq(tableLength, _ => 0);
      for i := 0 to tableLength
        invariant |tbl| == tableLength
        invariant forall k :: 0 <= k < i ==> tbl[k] == TableEntry(params, t, k)
      {
        var register: nat := i;
        if params.reflectIn {
          register := ReflectWord(register, t);
        }
        register := DivideIndex(register);
        StoredEntry(params, register, t, i);
        if params.reflectIn {
          register := ReflectWord(Shr(register, s), params.width);
          register := Shl(register, s);
        }
        tbl := tbl[i := And(register, Shl(mask, s))];
      }
    }

    /** One byte of the table-driven form. */
    method TableStep(register: nat, c: byte, tbl: seq<nat>) returns (next: Option<nat>)
      requires Valid() && |tbl| == tableWidth
      requires forall i :: 0 <= i < |tbl| ==> tbl[i] == TableEntry(params, tableIdxWidth, i)
      ensures next == TableStepOf(params, tableIdxWidth, register, c)
    {
      hide Bit, Pow2, Shl, Shr, Xor, And, Mask, Reflect, Rem, TableEntry, NonDirectInit;
      var (w, t, s) := (params.width, tableIdxWidth, crcShift);
      if !params.reflectIn {
        var tblidx := And(Xor(Shr(register, w + s - t), c), 0xff);
        if t < s || tblidx >= |tbl| {
          return None;
        }
        next := Some(And(Xor(Shl(register, t - s), tbl[tblidx]), Shl(mask, s)));
      } else {
        var tblidx := And(Xor(Shr(register, s), c), 0xff);
        if tblidx >= |tbl| {
          return None;
        }
        next := Some(And(Xor(Shr(register, t), tbl[tblidx]), Shl(mask, s)));
      }
    }

    /**
     The table-driven form.  `None` is the exception that the interpreter raises for an index
     outside the table or for a negative shift count.
     */
    method TableDriven(inStr: seq<byte>) returns (crc: Option<nat>)
      requires Valid()
      ensures crc == TableForm(params, tableIdxWidth, inStr)
      ensures tableIdxWidth == 8 ==> crc == Some(Checksum(params, inStr))
    {
      hide Bit, Pow2, Shl, Shr, Xor, And, Mask, Reflect, Rem, TableEntry, NonDirectInit, TableStepOf, Output, MsgPoly, Direct;
      var (w, s) := (params.width, crcShift);
      if tableIdxWidth == 8 {
        TableFormIsChecksum(params, inStr);
      }
      var tbl := GenTable();
      var register := Shl(directInit, s);
      if params.reflectIn {
        register := ReflectWord(register, w + s);
        ReflectShifted(directInit, s, w);
        register := Shl(register, s);
      }
      assert inStr[..0] == [];
      for k := 0 to |inStr|
        invariant TableRun(params, tableIdxWidth, inStr[..k]) == Some(register)
      {
        var next := TableStep(register, inStr[k], tbl);
        assert inStr[..k + 1][..k] == inStr[..k];
        if next == None {
          TableRunFails(params, tableIdxWidth, inStr, k + 1);
          return None;
        }
        register := next.value;
      }
      assert inStr[..|inStr|] == inStr;
      if !params.reflectIn {
        register := Shr(register, s);
      } else {
        register := ReflectWord(register, w + s);
        register := And(register, mask);
      }
      var result := Finish(register);
      crc := Some(result);
    }
  }

  lemma {:induction false} TableRunFails(ps: Params, t: nat, msg: seq<byte>, k: nat)
    requires ps.Valid() && t <= 8 && k <= |msg| && TableRun(ps, t, msg[..k]) == None
    ensures TableRun(ps, t, msg) == None
    decreases |msg| - k
  {
    hide TableStepOf;
    if k < |msg| {
      assert msg[..k + 1][..k] == msg[..k];
      TableRunFails(ps, t, msg, k + 1);
    } else {
      assert msg[..k] == msg;
    }
  }

  /** With 8-bit indexes the register holds, aligned and in its own direction, what the message leaves. */
  lemma {:induction false} TableRunIsDirect(ps: Params, msg: seq<byte>)
    requires ps.Valid()
    ensures var (w, s) := (ps.width, CrcShift(ps.width));
      var r := Direct(ps.xorIn, MsgPoly(msg, ps.reflectIn), 8 * |msg|, w, ps.poly);
      TableRun(ps, 8, msg) == Some(Shl(if ps.reflectIn then Reflect(r, w) else r, s))
    decreases |msg|
  {
    hide Bit, Shl, Shr, Xor, And, Mask, Reflect, Rem, Direct, MsgPoly, TableEntry, Pow2;
    var (w, ri) := (ps.width, ps.reflectIn);
    if msg == [] {
      EmptyMessage(ri);
      ConsumeNone(ps.xorIn, w, ps.poly);
    } else {
      var k := |msg| - 1;
      TableRunIsDirect(ps, msg[..k]);
      DirectNextByte(ps.xorIn, msg, k, ri, w, ps.poly);
      assert msg[..k + 1] == msg;
      var r := Direct(ps.xorIn, MsgPoly(msg[..k], ri), 8 * k, w, ps.poly);
      RemainderBelow(ps.xorIn, MsgPoly(msg[..k], ri), 8 * k, w, ps.poly);
      if ri {
        ReflectedTableStepValue(ps, r, msg[k], Mask(w));
      } else {
        TableStepValue(ps, r, msg[k], Mask(w));
      }
    }
  }

  lemma RemainderBelow(r: nat, u: nat, n: nat, w: nat, p: nat)
    requires p < Pow2(w)
    ensures Direct(r, u, n, w, p) < Pow2(w)
  {}

  lemma TableFormIsChecksum(ps: Params, msg: seq<byte>)
    requires ps.Valid()
    ensures TableForm(ps, 8, msg) == Some(Checksum(ps, msg))
  {
    hide Bit, Shl, Shr, And, Mask, Reflect, Direct, MsgPoly, Pow2, Output, TableRun;
    var (w, s) := (ps.width, CrcShift(ps.width));
    var r := Direct(ps.xorIn, MsgPoly(msg, ps.reflectIn), 8 * |msg|, w, ps.poly);
    RemainderBelow(ps.xorIn, MsgPoly(msg, ps.reflectIn), 8 * |msg|, w, ps.poly);
    TableRunIsDirect(ps, msg);
    SameBits(Shr(Shl(r, s), s), r);
    ReflectBack(r, s, w);
  }

  /** The register that the augmented form ends with. */
  lemma AugmentedValue(ps: Params, msg: seq<byte>, start: nat)
    requires ps.Valid() && start == NonDirectInit(ps.xorIn, ps.width, ps.width, ps.poly)
    ensures var m := Augmented(start, MsgPoly(msg, ps.reflectIn), 8 * |msg|, ps.width, ps.poly);
      var crc := Output(ps, Augmented(m, 0, ps.width, ps.width, ps.poly));
      crc == AugmentedChecksum(ps, msg) && (ps.OddPoly() || ps.xorIn == 0 ==> crc == Checksum(ps, msg))
  {
    hide Rem, Shl, Xor, Reflect;
    AugmentedIsDirect(start, MsgPoly(msg, ps.reflectIn), 8 * |msg|, ps.width, ps.poly);
    if ps.OddPoly() || ps.xorIn == 0 {
      AugmentedIsChecksum(ps, msg);
    }
  }

  /** The register after `i` bits of a byte, augmented form. */
  ghost function AugmentedBits(r: nat, octet: nat, i: nat, w: nat, p: nat): nat
    requires Divisor(w, p) && octet < Pow2(8) && i <= 8
  {
    Augmented(r, Shr(octet, 8 - i), i, w, p)
  }

  lemma AugmentedByte(r: nat, octet: nat, w: nat, p: nat)
    requires Divisor(w, p) && octet < Pow2(8) && r < Pow2(w)
    ensures AugmentedBits(r, octet, 0, w, p) == r
    ensures AugmentedBits(r, octet, 8, w, p) == Augmented(r, octet, 8, w, p)
  {
    WholeByte(octet);
    ConsumeNone(r, w, p);
  }

  /** One turn of the loop over the bits of a byte, augmented form. */
  lemma AugmentedTurn(reg: nat, r: nat, octet: nat, i: nat, w: nat, p: nat, msb: nat, mask: nat)
    requires Divisor(w, p) && reg < Pow2(w) && octet < Pow2(8) && i < 8
    requires reg == AugmentedBits(r, octet, i, w, p)
    requires msb == Shl(1, w - 1) && mask == Mask(w)
    ensures var shifted := Or(And(Shl(reg, 1), mask), And(Shr(octet, 7 - i), 1));
      var next := if And(reg, msb) != 0 then Xor(shifted, p) else shifted;
      next < Pow2(w) && next == AugmentedBits(r, octet, i + 1, w, p)
  {
    var bit := And(Shr(octet, 7 - i), 1);
    var shifted := Or(And(Shl(reg, 1), Mask(w)), bit);
    var next := if And(reg, Shl(1, w - 1)) != 0 then Xor(shifted, p) else shifted;
    TestBit(reg, w - 1);
    NextBit(octet, i);
    MaskedAugmented(reg, bit, next, w, p);
    AugmentedNextBit(r, octet, i, w, p);
  }

  lemma AugmentedZeroTurn(reg: nat, r: nat, i: nat, w: nat, p: nat, msb: nat, mask: nat)
    requires Divisor(w, p) && reg < Pow2(w) && reg == Augmented(r, 0, i, w, p)
    requires msb == Shl(1, w - 1) && mask == Mask(w)
    ensures var shifted := And(Shl(reg, 1), mask);
      var next := if And(reg, msb) != 0 then Xor(shifted, p) else shifted;
      next < Pow2(w) && next == Augmented(r, 0, i + 1, w, p)
  {
    var shifted := And(Shl(reg, 1), Mask(w));
    var next := if And(reg, Shl(1, w - 1)) != 0 then Xor(shifted, p) else shifted;
    TestBit(reg, w - 1);
    ZeroBits();
    SameBits(shifted, Or(shifted, 0));
    MaskedAugmented(reg, 0, next, w, p);
    AugmentedNextZero(r, i, w, p);
  }

  /** The register after `i` bits of a byte, direct form. */
  ghost function DirectBits(r: nat, octet: nat, i: nat, w: nat, p: nat): nat
    requires Divisor(w, p) && octet < Pow2(8) && i <= 8
  {
    Direct(r, Shr(octet, 8 - i), i, w, p)
  }

  lemma DirectByte(r: nat, octet: nat, w: nat, p: nat)
    requires Divisor(w, p) && octet < Pow2(8) && r < Pow2(w)
    ensures DirectBits(r, octet, 0, w, p) == r == Low(r, w)
    ensures DirectBits(r, octet, 8, w, p) == Direct(r, octet, 8, w, p)
  {
    WholeByte(octet);
    ConsumeNone(r, w, p);
    LowSmall(r, w);
  }

  /** One turn of the loop over the bits of a byte, direct form. */
  lemma DirectTurn(reg: nat, r: nat, octet: nat, i: nat, w: nat, p: nat, msb: nat)
    requires Divisor(w, p) && octet < Pow2(8) && i < 8 && msb == Shl(1, w - 1)
    requires Low(reg, w) == DirectBits(r, octet, i, w, p)
    ensures var top := And(reg, msb);
      var topbit := if And(octet, Shr(0x80, i)) != 0 then Xor(top, msb) else top;
      var next := if topbit != 0 then Xor(Shl(reg, 1), p) else Shl(reg, 1);
      Low(next, w) == DirectBits(r, octet, i + 1, w, p)
  {
    var bit := And(Shr(octet, 7 - i), 1);
    BitFromTop(octet, i);
    TestBit(reg, w - 1);
    TestMsb(reg, w);
    UnmaskedDirect(reg, bit, if Bit(reg, w - 1) != Bit(bit, 0) then Xor(Shl(reg, 1), p) else Shl(reg, 1), w, p);
    DirectNextBit(r, octet, i, w, p);
  }

  /** The register before and after the inner loop of the table generator. */
  lemma IndexRegister(index: nat, t: nat, s: nat, w: nat, p: nat)
    requires Divisor(w, p) && t <= w + s && index < Pow2(t)
    ensures Shl(p, s) < Pow2(w + s)
    ensures Low(Shl(index, w + s - t), w + s) == Rem(Shl(index, w + s - t), w + s, Shl(p, s))
    ensures Rem(Shl(index, w + s), w + s, Shl(p, s)) == Shl(Rem(Shl(index, w), w, p), s)
  {
    hide *;
    var register := Shl(index, w + s - t);
    EntryShifted(index, s, w, p);
    ShlBelow(index, t, w + s - t);
    RemSmall(register, w + s, Shl(p, s));
    LowSmall(register, w + s);
  }

  /** One turn of the inner loop of the table generator. */
  lemma TableTurn(reg: nat, index: nat, m: nat, s: nat, w: nat, p: nat, msb: nat)
    requires Divisor(w, p) && msb == Shl(1, w - 1)
    requires Shl(p, s) < Pow2(w + s) && Low(reg, w + s) == Rem(Shl(index, m), w + s, Shl(p, s))
    ensures var next := if And(reg, Shl(msb, s)) != 0 then Xor(Shl(reg, 1), Shl(p, s)) else Shl(reg, 1);
      Low(next, w + s) == Rem(Shl(index, m + 1), w + s, Shl(p, s))
  {
    hide Shl, Xor, And, Low, Rem, Pow2;
    var n := w + s;
    ShlLaws(1, 0, w - 1, s);
    TestBit(reg, n - 1);
    TableStep(reg, if Bit(reg, n - 1) then Xor(Shl(reg, 1), Shl(p, s)) else Shl(reg, 1), index, m, n, Shl(p, s));
  }

  /** A table step with an 8-bit index, as the methods of `Crc` write it. */
  lemma TableStepValue(ps: Params, r: nat, c: byte, mask: nat)
    requires ps.Valid() && !ps.reflectIn && r < Pow2(ps.width) && mask == Mask(ps.width)
    ensures Pow2(8) == 256
    ensures var (w, s, reg) := (ps.width, CrcShift(ps.width), Shl(r, CrcShift(ps.width)));
      var i := And(Xor(Shr(reg, w + s - 8), c), 0xff);
      i < 256 && And(Xor(Shl(reg, 8 - s), TableEntry(ps, 8, i)), Shl(mask, s)) == Shl(Direct(r, c, 8, w, ps.poly), s)
  {
    hide Bit, Shl, Shr, Xor, And, Rem, Direct, Reflect;
    TableByte(r, c, ps.width, ps.poly);
  }

  lemma ReflectedTableStepValue(ps: Params, r: nat, c: byte, mask: nat)
    requires ps.Valid() && ps.reflectIn && r < Pow2(ps.width) && mask == Mask(ps.width)
    ensures Pow2(8) == 256
    ensures var (w, s) := (ps.width, CrcShift(ps.width));
      var reg := Shl(Reflect(r, w), s);
      var i := And(Xor(Shr(reg, s), c), 0xff);
      i < 256 && And(Xor(Shr(reg, 8), TableEntry(ps, 8, i)), Shl(mask, s))
        == Shl(Reflect(Direct(r, InByte(c, true), 8, w, ps.poly), w), s)
  {
    hide Bit, Shl, Shr, Xor, And, Rem, Direct, Reflect;
    ReflectedTableByte(r, c, ps.width, ps.poly);
  }

  lemma ReflectBack(r: nat, s: nat, w: nat)
    requires r < Pow2(w)
    ensures And(Reflect(Shl(Reflect(r, w), s), w + s), Mask(w)) == r
  {
    ReflectShifted(Reflect(r, w), s, w);
    ReflectTwice(r, w);
    MaskIsLow(r, w);
    LowSmall(r, w);
  }

  /** A masked augmented step. */
  lemma MaskedAugmented(reg: nat, bit: nat, next: nat, w: nat, p: nat)
    requires Divisor(w, p) && reg < Pow2(w) && bit < 2
    requires var shifted := Or(And(Shl(reg, 1), Mask(w)), bit);
      next == if Bit(reg, w - 1) then Xor(shifted, p) else shifted
    ensures next < Pow2(w) && next == Augmented(reg, bit, 1, w, p)
  {
    assert Pow2(1) == 2;
    SmallBits(bit, 1);
    SmallBits(p, w);
    FewBits(next, w);
    AugmentedStep(reg, bit, next, w, p);
  }

  /** Flipping the tested bit flips the outcome of the test. */
  lemma TestMsb(reg: nat, w: nat)
    requires 1 <= w
    ensures Xor(And(reg, Shl(1, w - 1)), Shl(1, w - 1)) != 0 <==> !Bit(reg, w - 1)
  {
    ShlOne(w - 1);
    XorEqual(And(reg, Shl(1, w - 1)), Shl(1, w - 1));
    if Bit(reg, w - 1) {
      SameBits(And(reg, Shl(1, w - 1)), Shl(1, w - 1));
    } else {
      assert Bit(And(reg, Shl(1, w - 1)), w - 1) != Bit(Shl(1, w - 1), w - 1);
    }
  }

  /** With an index narrower than a byte, some byte always leads outside the table. */
  lemma NarrowTableFails(ps: Params, t: nat) returns (c: byte)
    requires ps.Valid() && 1 <= t < 8
    ensures TableForm(ps, t, [c]) == None
  {
    hide Bit, Shl, Shr, Reflect, Low, TableEntry, TableStart;
    var s := CrcShift(ps.width);
    var x := Shr(TableStart(ps), if ps.reflectIn then s else ps.width + s - t);
    assert Pow2(8) == 256 && Mask(8) == 0xff;
    c := Low(Xor(x, Mask(8)), 8);
    SameBits(And(Xor(x, c), Mask(8)), Mask(8));
    Pow2Monotonic(t, 7);
    assert Pow2(7) == 128;
    assert [c][..0] == [];
    assert TableRun(ps, t, []) == Some(TableStart(ps));
  }

  /** With plain input and an index narrower than the alignment every message but the empty one raises an exception. */
  lemma {:induction false} NegativeShiftFails(ps: Params, t: nat, msg: seq<byte>)
    requires ps.Valid() && 1 <= t <= 8 && !ps.reflectIn && ps.width + t < 8 && msg != []
    ensures TableForm(ps, t, msg) == None
    decreases |msg|
  {
    hide Bit, Shl, Shr, Xor, And, Reflect, TableEntry, TableStart, TableIndex, Output;
    if |msg| > 1 {
      NegativeShiftFails(ps, t, msg[..|msg| - 1]);
    } else {
      assert TableRun(ps, t, msg[..|msg| - 1]) == Some(TableStart(ps));
    }
  }

  /** The table-driven form gives the checksum of every message exactly if its indexes have eight bits. */
  lemma TableTheorem(ps: Params, t: nat)
    requires ps.Valid() && 1 <= t <= 8
    ensures (forall msg: seq<byte> :: TableForm(ps, t, msg) == Some(Checksum(ps, msg))) <==> t == 8
  {
    hide TableForm, Checksum;
    if t == 8 {
      forall msg: seq<byte> ensures TableForm(ps, 8, msg) == Some(Checksum(ps, msg)) {
        TableFormIsChecksum(ps, msg);
      }
    } else {
      var c := NarrowTableFails(ps, t);
    }
  }
}
