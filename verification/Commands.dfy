/**
 What the controller puts on the air, checked against the standard and against its own timing: the query
 is a valid Query command, and the gate is told to wait for as long as the transmission takes.
 */
module Commands {
  import opened Bits
  import opened Gf2
  import opened CrcModel
  import opened Downlink
  import opened Tasks
  import opened Pie
  import opened Controller

  /** Bits as the characters on which the downlink computes its CRC-5. */
  function Characters(bits: seq<bit>): (s: string)
    ensures |s| == |bits| && IsBinary(s)
    ensures forall i :: 0 <= i < |bits| ==> (s[i] == '1' <==> bits[i] == 1)
  {
    seq(|bits|, i requires 0 <= i < |bits| => if bits[i] == 1 then '1' else '0')
  }

  // ---------------------------------------------------------------- the query

  /** One bit of the CRC-5, by the bits of the numbers. */
  lemma Turn(r: nat, b: bit, s: nat)
    requires r < 32 && s < 32
    requires forall i: nat :: i < 5 ==> Bit(s, i) == ((0 < i && Bit(r, i - 1)) != ((Bit(r, 4) != (b == 1)) && Bit(9, i)))
    ensures Pow2(5) == 32 && s == Direct(r, b, 1, 5, 9)
  {
    hide Xor, Rem, Shl, Direct;
    assert Pow2(5) == 32;
    assert Bit(b, 0) == (b == 1);
    DirectStep(r, b, s, 5, 9);
  }

  /** The register of the CRC-5 after the first `k` bits of the query. */
  function QueryRegister(k: nat): nat
    requires k <= |QUERY|
  {
    Crc5(Characters(QUERY)[..k])
  }

  lemma NextBit(k: nat, r: nat, s: nat)
    requires k < |QUERY| && QueryRegister(k) == r && r < 32 && s < 32
    requires forall i: nat :: i < 5 ==>
      Bit(s, i) == ((0 < i && Bit(r, i - 1)) != ((Bit(r, 4) != (QUERY[k] == 1)) && Bit(9, i)))
    ensures QueryRegister(k + 1) == s
  {
    hide Crc5, Direct, Characters;
    Crc5Next(Characters(QUERY), k);
    Turn(r, QUERY[k], s);
  }

  lemma QueryStart()
    ensures QueryRegister(0) == 9
  {
    hide Direct, Rem, Xor, Shl;
    assert Characters(QUERY)[..0] == "";
    assert Pow2(5) == 32;
    ConsumeNone(9, 5, 9);
  }

  lemma QueryCrcTo3()
    requires QueryRegister(0) == 9
    ensures QueryRegister(3) == 23
  {
    hide QueryRegister;
    NextBit(0, 9, 27);
    NextBit(1, 27, 31);
    NextBit(2, 31, 23);
  }

  lemma QueryCrcTo6()
    requires QueryRegister(3) == 23
    ensures QueryRegister(6) == 21
  {
    hide QueryRegister;
    NextBit(3, 23, 7);
    NextBit(4, 7, 14);
    NextBit(5, 14, 21);
  }

  lemma QueryCrcTo9()
    requires QueryRegister(6) == 21
    ensures QueryRegister(9) == 30
  {
    hide QueryRegister;
    NextBit(6, 21, 3);
    NextBit(7, 3, 15);
    NextBit(8, 15, 30);
  }

  lemma QueryCrcTo13()
    requires QueryRegister(9) == 30
    ensures QueryRegister(13) == 12
  {
    hide QueryRegister;
    NextBit(9, 30, 21);
    NextBit(10, 21, 3);
    NextBit(11, 3, 6);
    NextBit(12, 6, 12);
  }

  lemma QueryCrcTo17()
    requires QueryRegister(13) == 12
    ensures QueryRegister(17) == 31
  {
    hide QueryRegister;
    NextBit(13, 12, 24);
    NextBit(14, 24, 25);
    NextBit(15, 25, 27);
    NextBit(16, 27, 31);
  }

  lemma QueryCrcTo22()
    requires QueryRegister(17) == 31
    ensures QueryRegister(22) == 0
  {
    hide QueryRegister;
    NextBit(17, 31, 30);
    NextBit(18, 30, 28);
    NextBit(19, 28, 24);
    NextBit(20, 24, 16);
    NextBit(21, 16, 0);
  }

  lemma QueryCrc()
    ensures QueryRegister(17) == 31 && QueryRegister(22) == 0
  {
    hide QueryRegister;
    QueryStart();
    QueryCrcTo3();
    QueryCrcTo6();
    QueryCrcTo9();
    QueryCrcTo13();
    QueryCrcTo17();
    QueryCrcTo22();
  }

  /**
   The query is a Query command: 22 bits, the command code `1000`, a divide ratio of 8, Miller-4 with pilot
   tone, all tags of session S0 with flag A and `Q` 0, and its CRC-5, which is what the downlink computes of the first
   17 bits.
   */
  lemma QueryIsValid()
    ensures |QUERY| == 22 && QUERY[..4] == [1, 0, 0, 0]
    ensures QUERY[4] == 0 && QUERY[5..7] == [1, 0] && QUERY[7] == 1
    ensures QUERY[8..10] == [0, 0] && QUERY[10..12] == [0, 0] && QUERY[12] == 0 && QUERY[13..17] == [0, 0, 0, 0]
    ensures StringPoly(Characters(QUERY)[17..]) == Crc5(Characters(QUERY)[..17])
    ensures Crc5(Characters(QUERY)) == 0
  {
    hide Crc5;
    QueryCrc();
    var s := Characters(QUERY);
    assert s[..22] == s;
    assert forall i :: 17 <= i < 22 ==> QUERY[i] == 1;
    AllOnes(s[17..]);
  }

  lemma AllOnes(s: string)
    requires |s| == 5 && forall i :: 0 <= i < 5 ==> s[i] == '1'
    ensures StringPoly(s) == 31
  {
    assert forall i: nat :: Bit(31, i) == (i < 5) by { assert Mask(5) == 31; }
    SameBits(StringPoly(s), 31);
  }

  // ---------------------------------------------------------------- how long it takes

  /** Number of ones. */
  function Ones(bits: seq<bit>): nat {
    if bits == [] then 0 else bits[0] + Ones(bits[1..])
  }

  /** The timing of the air interface in microseconds: a data-0 of 25, a data-1 of 50, a second calibration symbol of 83. */
  ghost predicate Microseconds(t: Timing) {
    t.Valid() && t.tari == 25 && t.data1 == 50 && t.trcal == 83
  }

  lemma {:induction false} BitsLength(t: Timing, bits: seq<bit>)
    requires Microseconds(t)
    ensures |BitsWave(t, bits)| == 25 * |bits| + 25 * Ones(bits)
    decreases |bits|
  {
    if bits != [] { BitsLength(t, bits[1..]); }
  }

  /** From the end of the delimiter to the end of a frame. */
  function FrameTime(t: Timing, full: bool, bits: seq<bit>): nat
    requires t.Valid()
  {
    |(if full then PreambleWave(t) else FrameSyncWave(t)) + BitsWave(t, bits)| - t.delimiter
  }

  lemma {:induction false} OnesConcat(a: seq<bit>, b: seq<bit>)
    ensures Ones(a + b) == Ones(a) + Ones(b)
    decreases |a|
  {
    if a == [] {
      assert a + b == b;
    } else {
      assert (a + b)[1..] == a[1..] + b;
      OnesConcat(a[1..], b);
    }
  }

  /** The ones of a run of equal bits. */
  lemma {:induction false} OnesRun(bits: seq<bit>, b: bit)
    requires forall i :: 0 <= i < |bits| ==> bits[i] == b
    ensures Ones(bits) == b * |bits|
    decreases |bits|
  {
    if bits != [] { OnesRun(bits[1..], b); }
  }

  lemma QueryOnes()
    ensures Ones(QUERY) == 8
  {
    hide Ones;
    var a: seq<bit> := [1, 0, 0, 0, 0, 1, 0, 1];
    var z: seq<bit> := [0, 0, 0, 0, 0, 0, 0, 0, 0];
    var o: seq<bit> := [1, 1, 1, 1, 1];
    assert QUERY == a + (z + o);
    OnesConcat(a, z + o);
    OnesConcat(z, o);
    OnesRun(z, 0);
    OnesRun(o, 1);
    OnesOfStart();
  }

  lemma OnesOfStart()
    ensures Ones([1, 0, 0, 0, 0, 1, 0, 1]) == 3
  {
    hide Ones;
    var a: seq<bit> := [1];
    var z: seq<bit> := [0, 0, 0, 0];
    var b: seq<bit> := [1];
    var y: seq<bit> := [0];
    OnesConcat(a, z + (b + (y + b)));
    OnesConcat(z, b + (y + b));
    OnesConcat(b, y + b);
    OnesConcat(y, b);
    OnesRun(a, 1);
    OnesRun(z, 0);
    OnesRun(y, 0);
    assert a + (z + (b + (y + b))) == [1, 0, 0, 0, 0, 1, 0, 1];
  }

  /**
   After the delimiter of the query the gate stays closed for as long as the query takes, and ten
   microseconds more.
   */
  lemma QueryGateTime(t: Timing)
    requires Microseconds(t)
    ensures QueryGate()[0] == Gate(FrameTime(t, true, QUERY) + 10)
  {
    hide Ones, FrameTime, BitsWave, Microseconds;
    FrameTimeIs(t, true, QUERY);
    QueryOnes();
  }

  lemma FrameTimeIs(t: Timing, full: bool, bits: seq<bit>)
    requires Microseconds(t)
    ensures FrameTime(t, full, bits) == 25 + 75 + (if full then 83 else 0) + 25 * |bits| + 25 * Ones(bits)
  {
    hide BitsWave, Ones;
    BitsLength(t, bits);
  }

  /**
   After the delimiter of an acknowledgement the gate stays closed for 25 microseconds times two minus the
   number of ones in the reply longer than the acknowledgement takes: it opens too early exactly
   if the reply has more than two ones.
   */
  lemma AckGateTime(t: Timing, rn16: seq<bit>)
    requires Microseconds(t) && |rn16| == 16
    ensures AckGate()[0].Gate?
    ensures AckGate()[0].len == FrameTime(t, false, [0, 1] + rn16) + 25 * (2 - Ones(rn16))
    ensures AckGate()[0].len < FrameTime(t, false, [0, 1] + rn16) <==> 2 < Ones(rn16)
  {
    var bits: seq<bit> := [0, 1] + rn16;
    FrameTimeIs(t, false, bits);
    assert bits[1..] == [1] + rn16 && bits[1..][1..] == rn16;
  }

  // ---------------------------------------------------------------- what is asked of the receiver

  /** The opening of the gate in either phase. */
  function Opening(mac: MacState): RxTask {
    if mac == MsEpc then AckGate()[1] else QueryGate()[1]
  }

  /**
   In either phase the opening has room for the samples that are cut out behind the start of a frame, the samples
   cut out have room for the symbols asked for and for the match filter, eight to a symbol, and the
   search starts as many symbols before the message as there are in front of it, and one more.
   */
  lemma AnswersFit(mac: MacState)
    ensures Opening(mac).Ungate? && SearchAnswer(mac, true) != NoSearch
    ensures var (search, synch, decode) := (SearchAnswer(mac, true), SynchAnswer(mac), DecodeAnswer(mac));
      && 8 + search.outputSampleLen <= Opening(mac).len
      && 8 * synch.outputSymbolLen + synch.matchFilterOffset <= search.outputSampleLen
      && synch.matchFilterOffset < 8
      && synch.outputSymbolLen == 2 * (decode.bitOffset + decode.outputBitLen)
      && search.sampleOffset == 8 * (2 * decode.bitOffset + 1)
      && decode.outputBitLen == if mac == MsEpc then 16 + 96 else 16
  {}

  /** The numbers themselves, in samples, symbols and bits. */
  lemma PhaseNumbers()
    ensures QueryGate() == [Gate(943), Ungate(800), Done] && AckGate() == [Gate(625), Ungate(2800), Done]
    ensures SearchAnswer(MsRn16, true) == SearchTask(152, 415) && SearchAnswer(MsEpc, true) == SearchTask(152, 1975)
    ensures SynchAnswer(MsRn16) == SyncTask(50, 7) && SynchAnswer(MsEpc) == SyncTask(242, 7)
    ensures DecodeAnswer(MsRn16) == DecodeTask(9, 16) && DecodeAnswer(MsEpc) == DecodeTask(9, 112)
  {}
}
