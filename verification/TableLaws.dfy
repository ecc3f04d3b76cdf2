/**
 Several message bits at once.  A register may be kept `s` places to the left of where the
 polynomial puts it (widths below eight), bit-reversed (reflected input), or under bits that
 have already fallen out of it; these lemmas say when a table look-up is right in each case.
 */
module TableLaws {
  import opened Bits
  import opened Gf2
  import opened CrcModel

  /** How far a register of width `w` is kept to the left, so that a byte fits in it. */
  function CrcShift(w: nat): nat {
    if w < 8 then 8 - w else 0
  }

  /** Entry `i` of the table with `t`-bit indexes. */
  function TableEntry(ps: Params, t: nat, i: nat): nat
    requires ps.Valid()
  {
    var (w, p) := (ps.width, ps.poly);
    Shl(if ps.reflectIn then Reflect(Rem(Shl(Reflect(i, t), w), w, p), w) else Rem(Shl(i, w), w, p), CrcShift(w))
  }

  // ---------------------------------------------------------------- shifted registers

  lemma MulShl(q: nat, g: nat, s: nat)
    ensures Mul(q, Shl(g, s)) == Shl(Mul(q, g), s)
  {
    if q == 0 {
      ShlLaws(0, 0, 0, s);
    } else {
      MulShl(q / 2, g, s);
      var m := Mul(q / 2, g);
      ShlLaws(0, 0, 0, s);
      ShlLaws(Shl(m, 1), if q % 2 == 1 then g else 0, 0, s);
      ShlLaws(m, 0, 1, s);
      ShlLaws(m, 0, s, 1);
    }
  }

  /** Dividend and divisor times `x^s` give the remainder times `x^s`. */
  lemma RemShifted(a: nat, s: nat, w: nat, p: nat)
    requires Divisor(w, p)
    ensures Shl(p, s) < Pow2(w + s)
    ensures Rem(Shl(a, s), w + s, Shl(p, s)) == Shl(Rem(a, w, p), s)
  {
    hide Bit, Shl, Xor, Rem, Pow2;
    var (g, r) := (Modulus(w, p), Rem(a, w, p));
    ShlBelow(p, w, s);
    ShlBelow(r, w, s);
    RemainderTheorem(a, r, w, p);
    var q :| a == Xor(Mul(q, g), r);
    MulShl(q, g, s);
    ShlLaws(Mul(q, g), r, 0, s);
    SameBits(Shl(g, s), Modulus(w + s, Shl(p, s)));
    assert Shl(a, s) == Xor(Mul(q, Modulus(w + s, Shl(p, s))), Shl(r, s));
    RemainderTheorem(Shl(a, s), Shl(r, s), w + s, Shl(p, s));
  }

  lemma DirectShifted(r: nat, u: nat, n: nat, s: nat, w: nat, p: nat)
    requires Divisor(w, p)
    ensures Shl(p, s) < Pow2(w + s)
    ensures Direct(Shl(r, s), u, n, w + s, Shl(p, s)) == Shl(Direct(r, u, n, w, p), s)
  {
    RemShifted(Xor(Shl(r, n), Shl(u, w)), s, w, p);
    ShlLaws(Shl(r, n), Shl(u, w), 0, s);
    ShlLaws(r, 0, n, s);
    ShlLaws(r, 0, s, n);
    ShlLaws(u, 0, w, s);
  }

  // ---------------------------------------------------------------- look-up

  /** `t` bits at once: the bits that fall out meet the message bits and select the entry. */
  lemma LookUp(r: nat, v: nat, t: nat, w: nat, p: nat)
    requires Divisor(w, p) && r < Pow2(w) && t <= w
    ensures Direct(r, v, t, w, p) == Xor(Low(Shl(r, t), w), Rem(Shl(Xor(Shr(r, w - t), v), w), w, p))
  {
    var (low, top) := (Low(Shl(r, t), w), Shr(r, w - t));
    SmallBits(r, w);
    SameBits(Shl(r, t), Xor(low, Shl(top, w)));
    XorAssociates(low, Shl(top, w), Shl(v, w));
    ShlLaws(top, v, 0, w);
    RemXor(low, Shl(Xor(top, v), w), w, p);
    RemSmall(low, w, p);
  }

  lemma EntryShifted(i: nat, s: nat, w: nat, p: nat)
    requires Divisor(w, p)
    ensures Shl(p, s) < Pow2(w + s)
    ensures Rem(Shl(i, w + s), w + s, Shl(p, s)) == Shl(Rem(Shl(i, w), w, p), s)
  {
    RemShifted(Shl(i, w), s, w, p);
    ShlLaws(i, 0, w, s);
  }

  /** The same on a register kept `s` places to the left; `d` is the register after the `t` bits `v`. */
  lemma ShiftedLookUp(r: nat, v: nat, t: nat, s: nat, w: nat, p: nat, d: nat)
    requires Divisor(w, p) && r < Pow2(w) && t <= w + s && d == Direct(r, v, t, w, p)
    ensures Shl(d, s) ==
      Xor(Low(Shl(Shl(r, s), t), w + s), Shl(Rem(Shl(Xor(Shr(Shl(r, s), w + s - t), v), w), w, p), s))
  {
    var q := Shl(p, s);
    DirectShifted(r, v, t, s, w, p);
    ShlBelow(r, w, s);
    LookUp(Shl(r, s), v, t, w + s, q);
    EntryShifted(Xor(Shr(Shl(r, s), w + s - t), v), s, w, p);
  }

  /** `x & ((1 << n) - 1)` */
  lemma MaskIsLow(a: nat, n: nat)
    ensures And(a, Mask(n)) == Low(a, n)
  {
    SameBits(And(a, Mask(n)), Low(a, n));
  }

  lemma LowSmall(a: nat, n: nat)
    requires a < Pow2(n)
    ensures Low(a, n) == a
  {
    SmallBits(a, n);
    SameBits(Low(a, n), a);
  }

  /** The index that the non-reflected loops compute, whatever lies above the register. */
  lemma IndexOf(reg: nat, r: nat, v: nat, c: nat, t: nat, n: nat)
    requires Low(reg, n) == r && t <= n && v < Pow2(t) && Low(c, t) == v
    ensures And(Xor(Shr(reg, n - t), c), Mask(t)) == Xor(Shr(r, n - t), v)
    ensures Xor(Shr(r, n - t), v) < Pow2(t)
  {
    hide Bit, Shr, Xor, And, Low, Mask, Pow2;
    var i := Xor(Shr(r, n - t), v);
    SmallBits(v, t);
    FewBits(i, t);
    forall k: nat ensures Bit(And(Xor(Shr(reg, n - t), c), Mask(t)), k) == Bit(i, k) {
      if k < t {
        assert Bit(v, k) == Bit(c, k);
        assert Bit(r, k + (n - t)) == Bit(reg, k + (n - t));
      }
    }
    SameBits(And(Xor(Shr(reg, n - t), c), Mask(t)), i);
  }

  // ---------------------------------------------------------------- reflected registers

  lemma ReflectTwice(a: nat, n: nat)
    requires a < Pow2(n)
    ensures Reflect(Reflect(a, n), n) == a
  {
    SmallBits(a, n);
    SameBits(Reflect(Reflect(a, n), n), a);
  }

  /** Reflecting a register that is kept to the left brings it back to the right. */
  lemma ReflectShifted(r: nat, s: nat, w: nat)
    requires r < Pow2(w)
    ensures Reflect(Shl(r, s), w + s) == Reflect(r, w)
    ensures Low(Reflect(r, w + s), w + s) == Shl(Reflect(r, w), s)
  {
    SmallBits(r, w);
    SameBits(Reflect(Shl(r, s), w + s), Reflect(r, w));
    SameBits(Low(Reflect(r, w + s), w + s), Shl(Reflect(r, w), s));
  }

  /** Undoing the left shift of a looked-up register. */
  lemma UnshiftedBit(d: nat, r: nat, e: nat, t: nat, s: nat, w: nat, j: nat)
    requires Shl(d, s) == Xor(Low(Shl(Shl(r, s), t), w + s), Shl(e, s)) && j < w
    ensures Bit(d, j) == ((t <= j && Bit(r, j - t)) != Bit(e, j))
  {
    hide Xor, Shl, Low, Bit;
    assert Bit(Shl(d, s), j + s) == Bit(d, j);
    assert Bit(Shl(e, s), j + s) == Bit(e, j);
    assert Bit(Shl(Shl(r, s), t), j + s) == (t <= j + s && Bit(Shl(r, s), j + s - t));
  }

  lemma ReflectedSum(d: nat, r: nat, e: nat, t: nat, w: nat)
    requires r < Pow2(w)
    requires forall j: nat :: j < w ==> Bit(d, j) == ((t <= j && Bit(r, j - t)) != Bit(e, j))
    ensures Reflect(d, w) == Xor(Shr(Reflect(r, w), t), Reflect(e, w))
  {
    hide Xor, Shr, Reflect, Pow2, Bit;
    var sum := Xor(Shr(Reflect(r, w), t), Reflect(e, w));
    forall k: nat ensures Bit(Reflect(d, w), k) == Bit(sum, k) {
      assert Bit(sum, k) == (Bit(Reflect(r, w), k + t) != Bit(Reflect(e, w), k));
      if k < w {
        var j := w - 1 - k;
        assert Bit(d, j) == ((t <= j && Bit(r, j - t)) != Bit(e, j));
      }
    }
    SameBits(Reflect(d, w), sum);
  }

  lemma ReflectedIndex(r: nat, v: nat, t: nat, s: nat, w: nat)
    requires r < Pow2(w) && t <= w + s && v < Pow2(t)
    ensures Reflect(Xor(Low(Reflect(r, w), t), Reflect(v, t)), t) == Xor(Shr(Shl(r, s), w + s - t), v)
  {
    SmallBits(r, w);
    SmallBits(v, t);
    var (a, b) := (Reflect(Xor(Low(Reflect(r, w), t), Reflect(v, t)), t), Xor(Shr(Shl(r, s), w + s - t), v));
    forall k: nat ensures Bit(a, k) == Bit(b, k) {
      if k < t {
        var j := t - 1 - k;
        assert Bit(a, k) == Bit(Xor(Low(Reflect(r, w), t), Reflect(v, t)), j);
        assert Bit(Reflect(v, t), j) == Bit(v, k);
        assert Bit(Reflect(r, w), j) == (j < w && Bit(r, w - 1 - j));
        assert Bit(Shl(r, s), k + (w + s - t)) == (s <= k + (w + s - t) && Bit(r, k + w - t));
      } else {
        assert Bit(Shl(r, s), k + (w + s - t)) == Bit(r, k + w - t);
      }
    }
    SameBits(a, b);
  }

  /** The reflected look-up: the register runs to the right and the low bits select the entry. */
  lemma ReflectedLookUp(r: nat, v: nat, t: nat, s: nat, w: nat, p: nat, d: nat)
    requires Divisor(w, p) && r < Pow2(w) && t <= w + s && v < Pow2(t) && d == Direct(r, v, t, w, p)
    ensures Reflect(d, w) ==
      Xor(Shr(Reflect(r, w), t),
          Reflect(Rem(Shl(Reflect(Xor(Low(Reflect(r, w), t), Reflect(v, t)), t), w), w, p), w))
  {
    var i := Xor(Shr(Shl(r, s), w + s - t), v);
    ShiftedLookUp(r, v, t, s, w, p, d);
    var e := Rem(Shl(i, w), w, p);
    forall j: nat | j < w ensures Bit(d, j) == ((t <= j && Bit(r, j - t)) != Bit(e, j)) {
      UnshiftedBit(d, r, e, t, s, w, j);
    }
    ReflectedSum(d, r, e, t, w);
    ReflectedIndex(r, v, t, s, w);
  }
}
