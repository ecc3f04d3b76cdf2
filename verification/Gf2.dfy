/**
 Polynomials over GF(2).  The number whose bit `i` is set exactly when `x^i` occurs stands for
 the polynomial, so addition is `Xor` and multiplication by `x^n` is `Shl(_, n)`.

 `Rem` is long division, one coefficient at a time; `RemainderTheorem` ties it to the
 definition of a remainder that mentions no algorithm.
 */
module Gf2 {
  import opened Bits

  /** A divisor `x^w + p` of degree `w`. */
  ghost predicate Divisor(w: nat, p: nat) {
    1 <= w && p < Pow2(w)
  }

  function Modulus(w: nat, p: nat): (g: nat)
    requires p < Pow2(w)
    ensures forall i: nat {:trigger Bit(g, i)} :: Bit(g, i) == (i == w || Bit(p, i))
  {
    ShlOne(w);
    SmallBits(p, w);
    Xor(Shl(1, w), p)
  }

  /** Product of two polynomials. */
  function Mul(a: nat, b: nat): (r: nat) {
    if a == 0 then 0 else Xor(Shl(Mul(a / 2, b), 1), if a % 2 == 1 then b else 0)
  }

  /** `r` is the remainder of `a` modulo `x^w + p`. */
  ghost predicate IsRemainder(a: nat, r: nat, w: nat, p: nat)
    requires p < Pow2(w)
  {
    r < Pow2(w) && exists q: nat :: a == Xor(Mul(q, Modulus(w, p)), r)
  }

  function Reduce(y: nat, w: nat, p: nat): (r: nat)
    requires p < Pow2(w) && y < Pow2(w + 1)
    ensures r < Pow2(w)
    ensures forall i: nat {:trigger Bit(r, i)} :: Bit(r, i) == (i < w && (Bit(y, i) != (Bit(y, w) && Bit(p, i))))
  {
    SmallBits(y, w + 1);
    SmallBits(p, w);
    var r := if Bit(y, w) then Xor(y, Modulus(w, p)) else y;
    FewBits(r, w);
    r
  }

  function Rem(a: nat, w: nat, p: nat): (r: nat)
    requires p < Pow2(w)
    ensures r < Pow2(w)
  {
    if a == 0 then 0 else Reduce(Cons(Rem(a / 2, w, p), a % 2 == 1), w, p)
  }

  // ---------------------------------------------------------------- arithmetic

  lemma XorCommutes(a: nat, b: nat)
    ensures Xor(a, b) == Xor(b, a)
  {
    SameBits(Xor(a, b), Xor(b, a));
  }

  lemma XorAssociates(a: nat, b: nat, c: nat)
    ensures Xor(a, Xor(b, c)) == Xor(Xor(a, b), c)
  {
    SameBits(Xor(a, Xor(b, c)), Xor(Xor(a, b), c));
  }

  lemma XorZero(a: nat)
    ensures Xor(a, 0) == a == Xor(0, a)
    ensures Xor(a, a) == 0
  {
    ZeroBits();
    SameBits(Xor(a, 0), a);
    SameBits(Xor(0, a), a);
    SameBits(Xor(a, a), 0);
  }

  /** Two numbers are equal exactly when their sum is zero. */
  lemma XorEqual(a: nat, b: nat)
    ensures Xor(a, b) == 0 <==> a == b
  {
    XorZero(a);
    if Xor(a, b) == 0 {
      ZeroBits();
      forall i: nat ensures Bit(a, i) == Bit(b, i) { assert !Bit(Xor(a, b), i); }
      SameBits(a, b);
    }
  }

  lemma XorBelow(a: nat, b: nat, n: nat)
    requires a < Pow2(n) && b < Pow2(n)
    ensures Xor(a, b) < Pow2(n)
  {
    SmallBits(a, n);
    SmallBits(b, n);
    FewBits(Xor(a, b), n);
  }

  lemma ShlBelow(a: nat, m: nat, n: nat)
    requires a < Pow2(m)
    ensures Shl(a, n) < Pow2(m + n)
  {
    SmallBits(a, m);
    FewBits(Shl(a, n), m + n);
  }

  lemma ShlLaws(a: nat, b: nat, m: nat, n: nat)
    ensures Shl(Shl(a, m), n) == Shl(a, m + n)
    ensures Shl(Xor(a, b), n) == Xor(Shl(a, n), Shl(b, n))
    ensures Shl(0, n) == 0
  {
    ZeroBits();
    SameBits(Shl(Shl(a, m), n), Shl(a, m + n));
    SameBits(Shl(Xor(a, b), n), Xor(Shl(a, n), Shl(b, n)));
    SameBits(Shl(0, n), 0);
  }

  // ---------------------------------------------------------------- long division

  lemma RemZero(w: nat, p: nat)
    requires p < Pow2(w)
    ensures Rem(0, w, p) == 0
  {}

  /** One division step, also when the dividend is zero. */
  lemma RemCons(a: nat, b: bool, w: nat, p: nat)
    requires p < Pow2(w)
    ensures Rem(Cons(a, b), w, p) == Reduce(Cons(Rem(a, w, p), b), w, p)
  {
    if Cons(a, b) == 0 {
      ZeroBits();
      SameBits(0, Reduce(0, w, p));
    }
  }

  lemma {:induction false} RemSmall(a: nat, w: nat, p: nat)
    requires p < Pow2(w) && a < Pow2(w)
    ensures Rem(a, w, p) == a
  {
    if a != 0 {
      assert a / 2 < Pow2(w);
      RemSmall(a / 2, w, p);
      assert Cons(a / 2, a % 2 == 1) == a;
      SmallBits(a, w);
      SameBits(Reduce(a, w, p), a);
    }
  }

  lemma ReduceXor(a: nat, b: nat, w: nat, p: nat)
    requires p < Pow2(w) && a < Pow2(w + 1) && b < Pow2(w + 1)
    ensures Xor(a, b) < Pow2(w + 1)
    ensures Reduce(Xor(a, b), w, p) == Xor(Reduce(a, w, p), Reduce(b, w, p))
  {
    XorBelow(a, b, w + 1);
    SameBits(Reduce(Xor(a, b), w, p), Xor(Reduce(a, w, p), Reduce(b, w, p)));
  }

  /** Taking the remainder is linear. */
  lemma {:induction false} RemXor(a: nat, b: nat, w: nat, p: nat)
    requires p < Pow2(w)
    ensures Rem(Xor(a, b), w, p) == Xor(Rem(a, w, p), Rem(b, w, p))
    decreases a + b
  {
    if a == 0 && b == 0 {
      XorZero(0);
    } else {
      var (a1, b1) := (a / 2, b / 2);
      var (a0, b0) := (a % 2 == 1, b % 2 == 1);
      RemXor(a1, b1, w, p);
      RemCons(a1, a0, w, p);
      RemCons(b1, b0, w, p);
      RemCons(Xor(a1, b1), a0 != b0, w, p);
      SameBits(Xor(a, b), Cons(Xor(a1, b1), a0 != b0));
      var (u, v) := (Cons(Rem(a1, w, p), a0), Cons(Rem(b1, w, p), b0));
      ReduceXor(u, v, w, p);
      SameBits(Xor(u, v), Cons(Xor(Rem(a1, w, p), Rem(b1, w, p)), a0 != b0));
    }
  }

  /** A dividend may be reduced before it is multiplied by a power of `x`. */
  lemma {:induction false} RemShl(a: nat, n: nat, w: nat, p: nat)
    requires p < Pow2(w)
    ensures Rem(Shl(Rem(a, w, p), n), w, p) == Rem(Shl(a, n), w, p)
  {
    if n == 0 {
      RemSmall(Rem(a, w, p), w, p);
    } else {
      RemShl(a, n - 1, w, p);
      RemCons(Shl(a, n - 1), false, w, p);
      RemCons(Shl(Rem(a, w, p), n - 1), false, w, p);
    }
  }

  // ---------------------------------------------------------------- remainders

  lemma MulXor(a: nat, b: nat, c: nat)
    ensures Mul(Xor(a, b), c) == Xor(Mul(a, c), Mul(b, c))
    decreases a + b
  {
    if a == 0 && b == 0 {
      XorZero(0);
    } else {
      MulXor(a / 2, b / 2, c);
      SameBits(Xor(a, b), Cons(Xor(a / 2, b / 2), (a % 2 == 1) != (b % 2 == 1)));
      MulCons(a, c);
      MulCons(b, c);
      MulCons(Xor(a, b), c);
      ZeroBits();
      SameBits(Mul(Xor(a, b), c), Xor(Mul(a, c), Mul(b, c)));
    }
  }

  lemma MulCons(a: nat, c: nat)
    ensures Mul(a, c) == Xor(Shl(Mul(a / 2, c), 1), if a % 2 == 1 then c else 0)
  {
    if a == 0 {
      ZeroBits();
      SameBits(0, Xor(Shl(0, 1), 0));
    }
  }

  /** A non-zero multiple of a polynomial of degree `w` has degree at least `w`. */
  lemma {:induction false} MulDegree(q: nat, w: nat, p: nat)
    requires p < Pow2(w) && q != 0
    ensures Mul(q, Modulus(w, p)) >= Pow2(w)
  {
    var g := Modulus(w, p);
    SmallBits(p, w);
    MulCons(q, g);
    var m := Mul(q, g);
    if q == 1 {
      XorZero(g);
      ShlLaws(0, 0, 0, 1);
      BigBit(m, w);
    } else {
      MulDegree(q / 2, w, p);
      var h := Mul(q / 2, g);
      var i := HighBit(h, w);
      assert Bit(Shl(h, 1), i + 1) == Bit(h, i);
      ZeroBit(i + 1);
      BigBit(m, i + 1);
      Pow2Monotonic(w, i + 1);
    }
  }

  lemma BigBit(a: nat, n: nat)
    requires Bit(a, n)
    ensures a >= Pow2(n)
  {
    if a < Pow2(n) {
      SmallBits(a, n);
      assert false;
    }
  }

  lemma HighBit(a: nat, n: nat) returns (i: nat)
    requires a >= Pow2(n)
    ensures n <= i && Bit(a, i)
  {
    if forall j: nat {:trigger Bit(a, j)} :: n <= j ==> !Bit(a, j) {
      FewBits(a, n);
      assert false;
    }
    i :| n <= i && Bit(a, i);
  }

  /** Quotient of the long division. */
  ghost function Quot(a: nat, w: nat, p: nat): nat
    requires p < Pow2(w)
  {
    if a == 0 then 0 else Cons(Quot(a / 2, w, p), Bit(Cons(Rem(a / 2, w, p), a % 2 == 1), w))
  }

  lemma {:induction false} Division(a: nat, w: nat, p: nat)
    requires p < Pow2(w)
    ensures a == Xor(Mul(Quot(a, w, p), Modulus(w, p)), Rem(a, w, p))
  {
    var g := Modulus(w, p);
    if a == 0 {
      XorZero(0);
    } else {
      Division(a / 2, w, p);
      var (q, r) := (Quot(a / 2, w, p), Rem(a / 2, w, p));
      var y := Cons(r, a % 2 == 1);
      SmallBits(y, w + 1);
      SmallBits(p, w);
      MulCons(Cons(q, Bit(y, w)), g);
      ZeroBits();
      forall i: nat ensures Bit(a, i) == Bit(Xor(Mul(Quot(a, w, p), g), Rem(a, w, p)), i) {
        if i > 0 {
          assert Bit(a, i) == Bit(a / 2, i - 1);
          assert Bit(a / 2, i - 1) == (Bit(Mul(q, g), i - 1) != Bit(r, i - 1));
        }
      }
      SameBits(a, Xor(Mul(Quot(a, w, p), g), Rem(a, w, p)));
    }
  }

  /** `Rem` computes the remainder, and there is only one. */
  lemma RemainderTheorem(a: nat, r: nat, w: nat, p: nat)
    requires p < Pow2(w)
    ensures IsRemainder(a, r, w, p) <==> r == Rem(a, w, p)
  {
    var g := Modulus(w, p);
    Division(a, w, p);
    if IsRemainder(a, r, w, p) {
      var q :| a == Xor(Mul(q, g), r);
      var q' := Quot(a, w, p);
      var r' := Rem(a, w, p);
      MulXor(q, q', g);
      SameBits(Mul(Xor(q, q'), g), Xor(r, r')) by {
        forall i: nat ensures Bit(Mul(Xor(q, q'), g), i) == Bit(Xor(r, r'), i) {
          assert Bit(a, i) == (Bit(Mul(q, g), i) != Bit(r, i));
          assert Bit(a, i) == (Bit(Mul(q', g), i) != Bit(r', i));
        }
      }
      XorBelow(r, r', w);
      if Xor(q, q') != 0 {
        MulDegree(Xor(q, q'), w, p);
        assert false;
      }
      XorEqual(r, r');
    }
  }
}
