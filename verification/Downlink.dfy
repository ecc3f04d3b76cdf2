/** The CRC-5 of the downlink, computed on strings of the characters `0` and `1`. */
module Downlink {
  import opened Bits
  import opened Gf2
  import opened CrcModel
  import opened RegisterLaws

  const PRESET := "01001"

  ghost predicate IsBinary(s: string) {
    forall i :: 0 <= i < |s| ==> s[i] == '0' || s[i] == '1'
  }

  /** A binary string as a polynomial, the first character being the highest coefficient. */
  function StringPoly(s: string): (r: nat)
    ensures forall i: nat {:trigger Bit(r, i)} :: Bit(r, i) == (i < |s| && s[|s| - 1 - i] == '1')
  {
    if s == "" then
      ZeroBits();
      0
    else
      Cons(StringPoly(s[..|s| - 1]), s[|s| - 1] == '1')
  }

  /** The string of two strings' differences. */
  method StringXor(str1: string, str2: string) returns (out: string)
    requires |str1| <= |str2|
    ensures |out| == |str1| && IsBinary(out)
    ensures forall i :: 0 <= i < |str1| ==> (out[i] == '1' <==> str1[i] != str2[i])
  {
    out := "";
    for i := 0 to |str1|
      invariant |out| == i && IsBinary(out)
      invariant forall k :: 0 <= k < i ==> (out[k] == '1' <==> str1[k] != str2[k])
    {
      if str1[i] != str2[i] {
        out := out[..i] + "1";
      } else {
        out := out[..i] + "0";
      }
    }
  }

  /** The register that the string `s` leaves behind. */
  function Crc5(s: string): nat {
    assert Pow2(5) == 32;
    Direct(9, StringPoly(s), |s|, 5, 9)
  }

  lemma PresetPoly()
    ensures Pow2(5) == 32 && StringPoly(PRESET) == 9
  {
    assert StringPoly("0") == 0;
    assert "01"[..1] == "0" && StringPoly("01") == 1;
    assert "010"[..2] == "01" && StringPoly("010") == 2;
    assert "0100"[..3] == "010" && StringPoly("0100") == 4;
    assert "01001"[..4] == "0100";
  }

  lemma StringPolyBelow(s: string)
    ensures StringPoly(s) < Pow2(|s|)
  {
    FewBits(StringPoly(s), |s|);
  }

  /** One turn of the loop: `bit` meets the first character of the register. */
  lemma Crc5Turn(register: string, bit: char, next: string)
    requires |register| == 5 && IsBinary(register) && (bit == '0' || bit == '1')
    requires |next| == 5
    requires forall i :: 0 <= i < 5 ==>
      (next[i] == '1' <==> (i < 4 && register[i + 1] == '1') != (register[0] != bit && PRESET[i] == '1'))
    ensures Pow2(5) == 32
    ensures StringPoly(next) == Direct(StringPoly(register), if bit == '1' then 1 else 0, 1, 5, 9)
  {
    hide Xor, Rem, Direct;
    PresetPoly();
    StringPolyBelow(register);
    StringPolyBelow(next);
    ZeroBits();
    OneBit();
    var (r, b, s) := (StringPoly(register), if bit == '1' then 1 else 0, StringPoly(next));
    forall i: nat | i < 5
      ensures Bit(s, i) == ((0 < i && Bit(r, i - 1)) != ((Bit(r, 4) != Bit(b, 0)) && Bit(9, i)))
    {
      assert Bit(9, i) == (PRESET[4 - i] == '1') by { assert Bit(StringPoly(PRESET), i) == (PRESET[4 - i] == '1'); }
      assert Bit(s, i) == (next[4 - i] == '1');
      assert Bit(r, 4) == (register[0] == '1');
      if 0 < i { assert Bit(r, i - 1) == (register[5 - i] == '1'); }
    }
    DirectStep(r, b, s, 5, 9);
  }

  /** The register after one more character. */
  lemma Crc5Next(s: string, k: nat)
    requires k < |s| && IsBinary(s)
    ensures Pow2(5) == 32
    ensures Crc5(s[..k + 1]) == Direct(Crc5(s[..k]), if s[k] == '1' then 1 else 0, 1, 5, 9)
  {
    hide Xor, Rem, Shl;
    PresetPoly();
    var b := if s[k] == '1' then 1 else 0;
    assert s[..k + 1][..k] == s[..k];
    DirectCompose(9, StringPoly(s[..k]), k, b, 1, 5, 9);
    ZeroBits();
    OneBit();
    SameBits(StringPoly(s[..k + 1]), Xor(Shl(StringPoly(s[..k]), 1), b));
  }

  /** The five-character checksum of a binary string. */
  method Make3Crc5(bitStream: string) returns (register: string)
    requires IsBinary(bitStream)
    ensures |register| == 5 && IsBinary(register)
    ensures StringPoly(register) == Crc5(bitStream)
  {
    hide Rem, Shl, Xor;
    var preset := PRESET;
    register := PRESET;
    var stream := bitStream;
    PresetPoly();
    assert bitStream[..0] == "";
    ConsumeNone(9, 5, 9);
    for i := 0 to |bitStream|
      invariant stream == bitStream[i..]
      invariant |register| == 5 && IsBinary(register)
      invariant StringPoly(register) == Crc5(bitStream[..i])
    {
      ghost var before := register;
      var flag := register[0] != stream[0];
      register := register[1..] + "0";
      stream := stream[1..];
      if flag {
        register := StringXor(register, preset);
      }
      Crc5Turn(before, bitStream[i], register);
      Crc5Next(bitStream, i);
    }
    assert bitStream[..|bitStream|] == bitStream;
  }

  /** The bytes whose bits, most significant first, are the characters of `s`. */
  function Pack(s: string): (msg: seq<byte>)
    requires |s| % 8 == 0
    ensures |msg| == |s| / 8
  {
    if s == "" then []
    else
      StringPolyBelow(s[|s| - 8..]);
      assert Pow2(8) == 256;
      Pack(s[..|s| - 8]) + [StringPoly(s[|s| - 8..])]
  }

  lemma StringPolySplit(head: string, tail: string)
    ensures StringPoly(head + tail) == Xor(Shl(StringPoly(head), |tail|), StringPoly(tail))
  {
    hide Xor, Shl, StringPoly, Bit;
    SameBits(StringPoly(head + tail), Xor(Shl(StringPoly(head), |tail|), StringPoly(tail)));
  }

  lemma {:induction false} PackPoly(s: string)
    requires |s| % 8 == 0
    ensures MsgPoly(Pack(s), false) == StringPoly(s)
    decreases |s|
  {
    hide Xor, Shl, StringPoly, Bit, Reflect, MsgPoly;
    if s == "" {
      EmptyMessage(false);
      ZeroBits();
      SameBits(StringPoly(s), 0);
    } else {
      var (head, tail) := (s[..|s| - 8], s[|s| - 8..]);
      PackPoly(head);
      assert Pow2(8) == 256;
      StringPolyBelow(tail);
      MsgPolyAppend(Pack(head), StringPoly(tail), false);
      StringPolySplit(head, tail);
      assert s == head + tail;
    }
  }

  /** On whole bytes the string computation is the checksum of width 5, polynomial 9, initial value 9. */
  lemma Crc5IsChecksum(s: string)
    requires |s| % 8 == 0
    ensures Params(5, 9, false, 9, false, 0).Valid()
    ensures Crc5(s) == Checksum(Params(5, 9, false, 9, false, 0), Pack(s))
  {
    hide Rem, Shl, Xor;
    assert Pow2(5) == 32;
    PackPoly(s);
    XorZero(Crc5(s));
  }

  /** Running the computation on a string followed by its own result gives five zeros, whatever the length. */
  lemma SelfCheck(s: string, check: string, again: string)
    requires |check| == 5 && StringPoly(check) == Crc5(s)
    requires |again| == 5 && IsBinary(again) && StringPoly(again) == Crc5(s + check)
    ensures again == "00000"
  {
    hide Rem, Xor, Shl;
    PresetPoly();
    StringPolySplit(s, check);
    var r := Crc5(s);
    DirectCompose(9, StringPoly(s), |s|, r, 5, 5, 9);
    XorZero(Shl(r, 5));
    RemZero(5, 9);
    assert StringPoly(again) == 0;
    ZeroBits();
    forall i | 0 <= i < 5 ensures again[i] == '0' {
      assert Bit(StringPoly(again), 4 - i) == (again[i] == '1');
    }
  }
}
