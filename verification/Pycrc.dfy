/** The command-line tool: checking a string with several algorithms, checking a file in pieces. */
module Pycrc {
  import opened Wrappers
  import opened Bits
  import opened Gf2
  import opened CrcModel
  import opened NonDirect
  import opened TableLaws
  import opened RegisterLaws
  import opened CrcAlgorithms

  /** The algorithms selected on the command line; none selected means all of them. */
  datatype Selection = Selection(bitByBit: bool, bitByBitFast: bool, tableDriven: bool)
  {
    function Effective(): Selection {
      if !bitByBit && !bitByBitFast && !tableDriven then Selection(true, true, true) else this
    }
  }

  /** The outcome of a run: a checksum, the complaint about different checksums, or an exception. */
  datatype Outcome = Sum(crc: nat) | DifferentChecksums | Failed

  /** What the selected algorithms yield, in the order in which they are run. */
  function Values(params: Params, idxWidth: nat, sel: Selection, str: seq<byte>): seq<Option<nat>>
    requires params.Valid() && idxWidth <= 8
  {
    (if sel.bitByBit then [Some(AugmentedChecksum(params, str))] else [])
    + (if sel.bitByBitFast then [Some(Checksum(params, str))] else [])
    + (if sel.tableDriven then [TableForm(params, idxWidth, str)] else [])
  }

  lemma ValuesAre(params: Params, idxWidth: nat, sel: Selection, str: seq<byte>)
    requires params.Valid() && idxWidth <= 8 && (sel.bitByBit || sel.bitByBitFast || sel.tableDriven)
    ensures var values := Values(params, idxWidth, sel, str);
      var (a, d, t) := (Some(AugmentedChecksum(params, str)), Some(Checksum(params, str)), TableForm(params, idxWidth, str));
      && values != [] && values[0] == (if sel.bitByBit then a else if sel.bitByBitFast then d else t)
      && forall v :: v in values <==> (sel.bitByBit && v == a) || (sel.bitByBitFast && v == d) || (sel.tableDriven && v == t)
  {
    hide AugmentedChecksum, Checksum, TableForm;
  }

  /**
   Compute the checksum with every selected algorithm and compare.  The table index width is read
   when the algorithm object is built; the later assignment to the option does not reach it.
   */
  method CheckString(params: Params, idxWidth: nat, selection: Selection, checkString: seq<byte>) returns (outcome: Outcome)
    requires params.Valid() && 1 <= idxWidth <= 8
    ensures var values := Values(params, idxWidth, selection.Effective(), checkString);
      && values != []
      && outcome ==
         if None in values then Failed
         else if forall v :: v in values ==> v == values[0] then Sum(values[0].value)
         else DifferentChecksums
    ensures params.OddPoly() && idxWidth == 8 ==> outcome == Sum(Checksum(params, checkString))
    ensures selection == Selection(true, false, false) ==> outcome == Sum(AugmentedChecksum(params, checkString))
    ensures selection == Selection(false, true, false) ==> outcome == Sum(Checksum(params, checkString))
    ensures selection == Selection(true, true, false) ==>
      outcome == if AugmentedChecksum(params, checkString) == Checksum(params, checkString)
                 then Sum(Checksum(params, checkString)) else DifferentChecksums
  {
    hide Bit, Shl, Shr, Xor, And, Reflect, Rem, NonDirectInit, Checksum, AugmentedChecksum, TableForm, Values;
    ghost var values := Values(params, idxWidth, selection.Effective(), checkString);
    ValuesAre(params, idxWidth, selection.Effective(), checkString);
    var error := false;
    var sel := selection.Effective();
    var alg := new Crc(params, Some(idxWidth));
    var crc: Option<nat> := None;
    if sel.bitByBit {
      var sum := alg.BitByBit(checkString);
      crc := Some(sum);
    }
    if sel.bitByBitFast {
      var sum := alg.BitByBitFast(checkString);
      if crc != None && crc.value != sum {
        error := true;
      }
      crc := Some(sum);
    }
    if sel.tableDriven {
      var sum := alg.TableDriven(checkString);
      if sum == None {
        return Failed;
      }
      if crc != None && crc.value != sum.value {
        error := true;
      }
      crc := sum;
    }
    if params.OddPoly() {
      AugmentedIsChecksum(params, checkString);
    }
    assert sel.bitByBit ==> Some(AugmentedChecksum(params, checkString)) in values;
    assert sel.bitByBitFast ==> Some(Checksum(params, checkString)) in values;
    assert sel.tableDriven ==> TableForm(params, idxWidth, checkString) in values;
    outcome := if error then DifferentChecksums else Sum(crc.value);
  }

  /**
   Without an algorithm option, and with all three options, the tool runs all three algorithms, and finds them in
   agreement on every string exactly under these conditions.
   */
  lemma ComparisonTheorem(params: Params, idxWidth: nat, selection: Selection)
    requires params.Valid() && 1 <= idxWidth <= 8
    requires selection in {Selection(false, false, false), Selection(true, true, true)}
    ensures (forall str: seq<byte> ::
               var values := Values(params, idxWidth, selection.Effective(), str);
               |values| == 3 && forall v :: v in values ==> v == Some(Checksum(params, str)))
       <==> idxWidth == 8 && (params.OddPoly() || params.xorIn == 0)
  {
    hide Bit, Checksum, AugmentedChecksum, TableForm;
    AgreementTheorem(params);
    TableTheorem(params, idxWidth);
    var sel := selection.Effective();
    forall str: seq<byte>
      ensures (forall v :: v in Values(params, idxWidth, sel, str) ==> v == Some(Checksum(params, str)))
         <==> AugmentedChecksum(params, str) == Checksum(params, str) && TableForm(params, idxWidth, str) == Some(Checksum(params, str))
    {
      ValuesAre(params, idxWidth, sel, str);
      assert Some(AugmentedChecksum(params, str)) in Values(params, idxWidth, sel, str);
      assert TableForm(params, idxWidth, str) in Values(params, idxWidth, sel, str);
    }
  }

  /** Update a register with a piece of a file. */
  method CrcFileUpdate(alg: Crc, register: nat, checkStr: seq<byte>) returns (updated: nat)
    requires alg.Valid() && register < Pow2(alg.params.width)
    ensures updated == Direct(register, MsgPoly(checkStr, alg.params.reflectIn), 8 * |checkStr|, alg.params.width, alg.params.poly)
  {
    hide Bit, Pow2, Shl, Shr, Xor, And, Low, Reflect, Rem, MsgPoly, NonDirectInit;
    var (w, p, ri) := (alg.params.width, alg.params.poly, alg.params.reflectIn);
    updated := register;
    ConsumeNone(register, w, p);
    assert checkStr[..0] == [] && MsgPoly([], ri) == 0 by { EmptyMessage(ri); }
    for i := 0 to |checkStr|
      invariant updated == Direct(register, MsgPoly(checkStr[..i], ri), 8 * i, w, p)
    {
      var octet: nat := checkStr[i];
      if ri {
        octet := alg.ReflectWord(octet, 8);
      }
      assert octet == InByte(checkStr[i], ri);
      ghost var r := updated;
      DirectByte(r, octet, w, p);
      for j := 0 to 8
        invariant octet == InByte(checkStr[i], ri)
        invariant Low(updated, w) == DirectBits(r, octet, j, w, p)
      {
        DirectTurn(updated, r, octet, j, w, p, alg.msbMask);
        var bit := And(updated, alg.msbMask);
        updated := Shl(updated, 1);
        if And(octet, Shr(0x80, j)) != 0 {
          bit := Xor(bit, alg.msbMask);
        }
        if bit != 0 {
          updated := Xor(updated, p);
        }
      }
      MaskIsLow(updated, w);
      updated := And(updated, alg.mask);
      DirectNextByte(register, checkStr, i, ri, w, p);
    }
    assert checkStr[..|checkStr|] == checkStr;
  }

  /** What a sequence of reads delivers: everything up to the first empty one. */
  function Content(pieces: seq<seq<byte>>): seq<byte> {
    if pieces == [] || pieces[0] == [] then [] else pieces[0] + Content(pieces[1..])
  }

  /** Everything up to the first empty read counts, and nothing after it. */
  lemma {:induction false} ContentIs(pieces: seq<seq<byte>>, k: nat)
    requires k <= |pieces| && (k < |pieces| ==> pieces[k] == []) && forall i :: 0 <= i < k ==> pieces[i] != []
    ensures Content(pieces) == Flatten(pieces[..k])
    decreases k
  {
    if k > 0 {
      ContentIs(pieces[1..], k - 1);
      assert pieces[1..][..k - 1] == pieces[..k][1..];
      FlattenHead(pieces[..k]);
    }
  }

  lemma {:induction false} FlattenHead(pieces: seq<seq<byte>>)
    requires pieces != []
    ensures Flatten(pieces) == pieces[0] + Flatten(pieces[1..])
    decreases |pieces|
  {
    var n := |pieces| - 1;
    if n > 0 {
      FlattenHead(pieces[..n]);
      assert pieces[..n][1..] == pieces[1..][..n - 1];
      var (a, b, c) := (pieces[0], Flatten(pieces[1..][..n - 1]), pieces[n]);
      assert (a + b) + c == a + (b + c);
    } else {
      assert Flatten(pieces[..0]) == [] && Flatten(pieces[1..]) == [];
    }
  }

  /** The initial value with which a file is checked. */
  function FileInit(ps: Params): nat {
    if ps.reflectIn then Reflect(ps.xorIn, ps.width) else ps.xorIn
  }

  function FileChecksum(ps: Params, content: seq<byte>): nat
    requires ps.Valid()
  {
    Output(ps, Direct(FileInit(ps), MsgPoly(content, ps.reflectIn), 8 * |content|, ps.width, ps.poly))
  }

  /** Check a file that is delivered in pieces; reading stops at the first empty piece. */
  method CheckFile(params: Params, idxWidth: nat, pieces: seq<seq<byte>>) returns (crc: nat)
    requires params.Valid() && 1 <= idxWidth <= 8
    ensures crc == FileChecksum(params, Content(pieces))
  {
    hide Bit, Shl, Xor, Rem, Reflect, NonDirectInit, MsgPoly;
    var (w, p, ri) := (params.width, params.poly, params.reflectIn);
    var alg := new Crc(params, Some(idxWidth));
    var register := params.xorIn;
    if ri {
      register := alg.ReflectWord(params.xorIn, w);
    }
    ghost var init := register;
    ghost var done: seq<byte> := [];
    assert MsgPoly([], ri) == 0 by { EmptyMessage(ri); }
    ConsumeNone(init, w, p);
    var k := 0;
    while k < |pieces| && |pieces[k]| != 0
      invariant k <= |pieces| && done + Content(pieces[k..]) == Content(pieces)
      invariant register == Direct(init, MsgPoly(done, ri), 8 * |done|, w, p)
    {
      register := CrcFileUpdate(alg, register, pieces[k]);
      DirectConcat(init, done, pieces[k], ri, w, p);
      assert pieces[k..][1..] == pieces[k + 1..];
      done := done + pieces[k];
      k := k + 1;
    }
    assert done == Content(pieces);
    crc := register;
    if params.reflectOut {
      crc := alg.ReflectWord(crc, w);
    }
    crc := Xor(crc, params.xorOut);
  }

  /** For an odd polynomial, file and string checks agree on a message exactly when they start alike. */
  lemma FileAgreement(ps: Params, msg: seq<byte>)
    requires ps.Valid() && ps.OddPoly()
    ensures FileChecksum(ps, msg) == Checksum(ps, msg) <==> !ps.reflectIn || Reflect(ps.xorIn, ps.width) == ps.xorIn
  {
    hide Bit, Shl, Xor, Rem, Reflect, MsgPoly, Output;
    var (w, p, n) := (ps.width, ps.poly, 8 * |msg|);
    var (a, b, u) := (FileInit(ps), ps.xorIn, Shl(MsgPoly(msg, ps.reflectIn), ps.width));
    OutputInjective(ps, Rem(Xor(Shl(a, n), u), w, p), Rem(Xor(Shl(b, n), u), w, p));
    RemXor(Shl(a, n), u, w, p);
    RemXor(Shl(b, n), u, w, p);
    ShlLaws(a, b, 0, n);
    RemXor(Shl(a, n), Shl(b, n), w, p);
    XorBelow(a, b, w);
    ShiftInvertible(Xor(a, b), n, w, p);
    XorEqual(a, b);
    XorEqual(Rem(Shl(a, n), w, p), Rem(Shl(b, n), w, p));
    XorCancels(Rem(Shl(a, n), w, p), Rem(Shl(b, n), w, p), Rem(u, w, p));
  }

  lemma XorCancels(a: nat, b: nat, c: nat)
    ensures Xor(a, c) == Xor(b, c) <==> a == b
  {
    hide Bit, Xor;
    if Xor(a, c) == Xor(b, c) {
      forall i: nat ensures Bit(a, i) == Bit(b, i) {
        assert Bit(Xor(a, c), i) == Bit(Xor(b, c), i);
      }
      SameBits(a, b);
    }
  }

  /**
   File and string checks agree on every message exactly when the input is not reflected or the
   initial value reads the same in both directions.
   */
  lemma FileAgreementTheorem(ps: Params)
    requires ps.Valid()
    ensures (forall msg: seq<byte> :: FileChecksum(ps, msg) == Checksum(ps, msg))
       <==> (!ps.reflectIn || Reflect(ps.xorIn, ps.width) == ps.xorIn)
  {
    hide Bit, Shl, Xor, Rem, Reflect, Output;
    ConsumeNone(ps.xorIn, ps.width, ps.poly);
    ConsumeNone(FileInit(ps), ps.width, ps.poly);
    OutputInjective(ps, FileInit(ps), ps.xorIn);
    assert FileChecksum(ps, []) == Output(ps, FileInit(ps)) && Checksum(ps, []) == Output(ps, ps.xorIn);
  }
}
