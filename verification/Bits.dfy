/**
 Non-negative integers read as bit strings of unbounded length, with the operators that
 the checksum code applies to them: `<<`, `>>`, `&`, `|` and `^`.  Every operator is
 characterised bit by bit, and two numbers with the same bits are equal (`SameBits`).
 */
module Bits {

  type byte = x: int | 0 <= x < 256

  function Pow2(n: nat): (r: nat)
    ensures r >= 1
  {
    if n == 0 then 1 else 2 * Pow2(n - 1)
  }

  /** Whether bit `i` of `a` is set; bit 0 is the least significant one. */
  predicate Bit(a: nat, i: nat) {
    if i == 0 then a % 2 == 1 else Bit(a / 2, i - 1)
  }

  function Cons(high: nat, low: bool): (r: nat)
    ensures r / 2 == high && (r % 2 == 1) == low
    ensures forall i: nat {:trigger Bit(r, i)} :: Bit(r, i) == if i == 0 then low else Bit(high, i - 1)
  {
    2 * high + if low then 1 else 0
  }

  function Xor(a: nat, b: nat): (r: nat)
    ensures forall i: nat {:trigger Bit(r, i)} :: Bit(r, i) == (Bit(a, i) != Bit(b, i))
  {
    if a == 0 && b == 0 then
      ZeroBits();
      0
    else
      Cons(Xor(a / 2, b / 2), (a % 2 == 1) != (b % 2 == 1))
  }

  function And(a: nat, b: nat): (r: nat)
    ensures forall i: nat {:trigger Bit(r, i)} :: Bit(r, i) == (Bit(a, i) && Bit(b, i))
  {
    if a == 0 && b == 0 then
      ZeroBits();
      0
    else
      Cons(And(a / 2, b / 2), a % 2 == 1 && b % 2 == 1)
  }

  function Or(a: nat, b: nat): (r: nat)
    ensures forall i: nat {:trigger Bit(r, i)} :: Bit(r, i) == (Bit(a, i) || Bit(b, i))
  {
    if a == 0 && b == 0 then
      ZeroBits();
      0
    else
      Cons(Or(a / 2, b / 2), a % 2 == 1 || b % 2 == 1)
  }

  /** `a << n` */
  function Shl(a: nat, n: nat): (r: nat)
    ensures forall i: nat {:trigger Bit(r, i)} :: Bit(r, i) == (n <= i && Bit(a, i - n))
  {
    if n == 0 then a else Cons(Shl(a, n - 1), false)
  }

  /** `a >> n` */
  function Shr(a: nat, n: nat): (r: nat)
    ensures forall i: nat {:trigger Bit(r, i)} :: Bit(r, i) == Bit(a, i + n)
  {
    if n == 0 then a else Shr(a / 2, n - 1)
  }

  /** The `n` low bits of `a`: what is left of `a` in an `n`-bit unsigned variable. */
  function Low(a: nat, n: nat): (r: nat)
    ensures r < Pow2(n)
    ensures forall i: nat {:trigger Bit(r, i)} :: Bit(r, i) == (i < n && Bit(a, i))
  {
    if n == 0 then
      ZeroBits();
      0
    else
      Cons(Low(a / 2, n - 1), a % 2 == 1)
  }

  /** The number made of the `n` low bits of `a` in reverse order. */
  function Reflect(a: nat, n: nat): (r: nat)
    ensures r < Pow2(n)
    ensures forall i: nat {:trigger Bit(r, i)} :: Bit(r, i) == (i < n && Bit(a, n - 1 - i))
  {
    if n == 0 then
      ZeroBits();
      0
    else
      var rest := Reflect(a / 2, n - 1);
      var r := Xor(rest, Shl(a % 2, n - 1));
      assert forall i: nat :: Bit(a % 2, i) == (i == 0 && Bit(a, 0)) by { SmallBits(a % 2, 1); }
      assert r < Pow2(n) by {
        SmallBits(rest, n - 1);
        FewBits(r, n);
      }
      r
  }

  /** `(1 << n) - 1` */
  function Mask(n: nat): (r: nat)
    ensures r == Pow2(n) - 1
    ensures forall i: nat {:trigger Bit(r, i)} :: Bit(r, i) == (i < n)
  {
    if n == 0 then
      ZeroBits();
      0
    else
      Cons(Mask(n - 1), true)
  }

  lemma ZeroBits()
    ensures forall i: nat :: !Bit(0, i)
  {
    forall i: nat ensures !Bit(0, i) { ZeroBit(i); }
  }

  lemma ZeroBit(i: nat)
    ensures !Bit(0, i)
  {}

  lemma {:induction false} SameBits(a: nat, b: nat)
    requires forall i: nat :: Bit(a, i) == Bit(b, i)
    ensures a == b
  {
    assert Bit(a, 0) == Bit(b, 0);
    if a != 0 || b != 0 {
      forall i: nat ensures Bit(a / 2, i) == Bit(b / 2, i) {
        assert Bit(a, i + 1) == Bit(b, i + 1);
      }
      SameBits(a / 2, b / 2);
    }
  }

  lemma {:induction false} SmallBits(a: nat, n: nat)
    requires a < Pow2(n)
    ensures forall i: nat {:trigger Bit(a, i)} :: n <= i ==> !Bit(a, i)
  {
    if n == 0 {
      ZeroBits();
    } else {
      SmallBits(a / 2, n - 1);
      forall i: nat | n <= i ensures !Bit(a, i) {
        assert !Bit(a / 2, i - 1);
      }
    }
  }

  lemma {:induction false} FewBits(a: nat, n: nat)
    requires forall i: nat {:trigger Bit(a, i)} :: n <= i ==> !Bit(a, i)
    ensures a < Pow2(n)
  {
    if n == 0 {
      ZeroBits();
      SameBits(a, 0);
    } else {
      forall i: nat | n - 1 <= i ensures !Bit(a / 2, i) {
        assert !Bit(a, i + 1);
      }
      FewBits(a / 2, n - 1);
    }
  }

  /** A number is non-zero exactly when one of its bits is set. */
  lemma NonZeroBit(a: nat) returns (i: nat)
    requires a != 0
    ensures Bit(a, i)
  {
    if forall j: nat :: !Bit(a, j) {
      ZeroBits();
      SameBits(a, 0);
    }
    i :| Bit(a, i);
  }

  lemma OneBit()
    ensures forall i: nat {:trigger Bit(1, i)} :: Bit(1, i) == (i == 0)
  {
    forall i: nat ensures Bit(1, i) == (i == 0) {
      if i > 0 { ZeroBit(i - 1); }
    }
  }

  lemma {:induction false} ShlOne(n: nat)
    ensures Shl(1, n) == Pow2(n)
    ensures forall i: nat {:trigger Bit(Shl(1, n), i)} :: Bit(Shl(1, n), i) == (i == n)
  {
    OneBit();
    if n > 0 { ShlOne(n - 1); }
  }

  lemma {:induction false} Pow2Monotonic(m: nat, n: nat)
    requires m <= n
    ensures Pow2(m) <= Pow2(n)
  {
    if m < n { Pow2Monotonic(m, n - 1); }
  }
}
