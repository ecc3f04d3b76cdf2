/**
 What the comparisons of the macro language mean, by laws about what the parser reads from tokens: equality
 and order of numbers, equality and dictionary order of texts, and which texts are numbers.
 */
module MacroComparisons {
  import opened Wrappers
  import opened MacroSyntax
  import opened MacroParser
  import opened MacroMeaning

  /** The parser reads the comparison of two operands as true. */
  ghost predicate Reads(tb: Table, l: Operand, op: Operator, r: Operand) {
    ParseComparison(tb, OperandTokens(l) + [Compare(op)] + OperandTokens(r) + [ParClose]) == Cond(true, [ParClose])
  }

  /** It never fails on known operands. */
  lemma ReadsEither(tb: Table, l: Operand, op: Operator, r: Operand)
    requires KnownOperand(tb, l) && KnownOperand(tb, r)
    ensures Reads(tb, l, op, r) <==> Holds(op, OperandValue(tb, l), OperandValue(tb, r))
    ensures !Reads(tb, l, op, r) ==>
      ParseComparison(tb, OperandTokens(l) + [Compare(op)] + OperandTokens(r) + [ParClose]) == Cond(false, [ParClose])
  {
    hide ParseComparison, Holds, OperandTokens, OperandValue;
    TestRead(tb, Comparison(l, op, r), [ParClose]);
  }

  lemma ReadsAll(tb: Table, l: Operand, r: Operand)
    requires KnownOperand(tb, l) && KnownOperand(tb, r)
    ensures forall op: Operator :: Reads(tb, l, op, r) <==> Holds(op, OperandValue(tb, l), OperandValue(tb, r))
  {
    hide Reads, Holds, OperandValue;
    forall op: Operator ensures Reads(tb, l, op, r) <==> Holds(op, OperandValue(tb, l), OperandValue(tb, r)) {
      ReadsEither(tb, l, op, r);
    }
  }

  // ---------------------------------------------------------------- numbers

  /** The decimal numeral of a number. */
  function Decimal(n: nat): (s: string)
    ensures s != "" && forall i :: 0 <= i < |s| ==> '0' <= s[i] <= '9'
  {
    if n < 10 then [(n as char) + '0'] else Decimal(n / 10) + [((n % 10) as char) + '0']
  }

  function HexDigit(d: nat, upper: bool): (c: char)
    requires d < 16
    ensures '0' <= c <= '9' || (upper && 'A' <= c <= 'F') || (!upper && 'a' <= c <= 'f')
  {
    if d < 10 then (d as char) + '0' else ((d - 10) as char) + if upper then 'A' else 'a'
  }

  /** The hexadecimal numeral of a number. */
  function Hexadecimal(n: nat, upper: bool): (s: string)
    ensures s != "" && forall i :: 0 <= i < |s| ==> '0' <= s[i] <= '9' || 'A' <= s[i] <= 'F' || 'a' <= s[i] <= 'f'
  {
    if n < 16 then [HexDigit(n, upper)] else Hexadecimal(n / 16, upper) + [HexDigit(n % 16, upper)]
  }

  lemma {:induction false} DecimalValue(n: nat)
    ensures NumberValue(Decimal(n), 10) == n
    decreases n
  {
    var s := Decimal(n);
    if n < 10 {
      assert s[..0] == "";
    } else {
      DecimalValue(n / 10);
      assert s[..|s| - 1] == Decimal(n / 10);
    }
  }

  lemma {:induction false} HexadecimalValue(n: nat, upper: bool)
    ensures NumberValue(Hexadecimal(n, upper), 16) == n
    decreases n
  {
    var s := Hexadecimal(n, upper);
    if n < 16 {
      assert s[..0] == "";
    } else {
      HexadecimalValue(n / 16, upper);
      assert s[..|s| - 1] == Hexadecimal(n / 16, upper);
    }
  }

  /** Numerals are read as their numbers, with a sign, with either prefix and in either case, and before a final line feed. */
  lemma NumeralsAreNumbers(n: nat, upper: bool)
    ensures var (d, h, m: int) := (Decimal(n), Hexadecimal(n, upper), n);
      && GetNum(d) == Some(m) && GetNum(d + "\n") == Some(m)
      && GetNum("+" + d) == Some(m) && GetNum("-" + d) == Some(0 - m)
      && GetNum("0x" + h) == Some(m) && GetNum("0X" + h) == Some(m)
  {
    hide GetNum, Decimal, Hexadecimal;
    PlainNumeral(n);
    SignedNumeral(n);
    HexNumeral(n, upper);
  }

  lemma PlainNumeral(n: nat)
    ensures var (d, m: int) := (Decimal(n), n); GetNum(d) == Some(m) && GetNum(d + "\n") == Some(m)
  {
    hide NumberValue, Decimal;
    DecimalValue(n);
    var d := Decimal(n);
    assert (d + "\n")[..|d + "\n"| - 1] == d;
    DigitsAreInt(d);
  }

  lemma DigitsAreInt(d: string)
    requires d != "" && forall i :: 0 <= i < |d| ==> '0' <= d[i] <= '9'
    ensures !IsHex(d) && Unsigned(d) == d && IsInt(d) && d[0] != '-' && d[|d| - 1] != '\n'
    ensures BeforeFinalLineFeed(d) == d
  {}

  lemma SignedNumeral(n: nat)
    ensures var (d, m: int) := (Decimal(n), n); GetNum("+" + d) == Some(m) && GetNum("-" + d) == Some(0 - m)
  {
    hide NumberValue, Decimal;
    DecimalValue(n);
    SignedIsInt('+', Decimal(n));
    SignedIsInt('-', Decimal(n));
  }

  lemma SignedIsInt(c: char, d: string)
    requires c == '+' || c == '-'
    requires d != "" && forall i :: 0 <= i < |d| ==> '0' <= d[i] <= '9'
    ensures var s := [c] + d; !IsHex(s) && Unsigned(s) == d && IsInt(s) && BeforeFinalLineFeed(s) == s
  {
    assert ([c] + d)[1..] == d;
  }

  lemma HexNumeral(n: nat, upper: bool)
    ensures var (h, m: int) := (Hexadecimal(n, upper), n); GetNum("0x" + h) == Some(m) && GetNum("0X" + h) == Some(m)
  {
    hide NumberValue, Hexadecimal;
    HexadecimalValue(n, upper);
    PrefixedIsHex('x', Hexadecimal(n, upper));
    PrefixedIsHex('X', Hexadecimal(n, upper));
    assert "0x" == ['0', 'x'] && "0X" == ['0', 'X'];
  }

  lemma PrefixedIsHex(c: char, h: string)
    requires c == 'x' || c == 'X'
    requires h != "" && forall i :: 0 <= i < |h| ==> '0' <= h[i] <= '9' || 'A' <= h[i] <= 'F' || 'a' <= h[i] <= 'f'
    ensures var s := ['0', c] + h; IsHex(s) && s[2..] == h && BeforeFinalLineFeed(s) == s
  {}

  /** Decimal digits from place `k` on, and at least one. */
  predicate DigitsFrom(s: string, k: nat) {
    k < |s| && forall i :: k <= i < |s| ==> '0' <= s[i] <= '9'
  }

  predicate HexDigitsFrom(s: string, k: nat) {
    k < |s| && forall i :: k <= i < |s| ==> '0' <= s[i] <= '9' || 'a' <= s[i] <= 'f' || 'A' <= s[i] <= 'F'
  }

  /** A text is a number exactly if it has the form of one, but for a final line feed. */
  lemma NumberShape(text: string)
    ensures var s := if text != "" && text[|text| - 1] == '\n' then text[..|text| - 1] else text;
      GetNum(text) != None <==>
        || DigitsFrom(s, 0) || (s != "" && (s[0] == '+' || s[0] == '-') && DigitsFrom(s, 1))
        || (2 < |s| && s[0] == '0' && (s[1] == 'x' || s[1] == 'X') && HexDigitsFrom(s, 2))
  {
    var s := BeforeFinalLineFeed(text);
    var k := if s != "" && (s[0] == '-' || s[0] == '+') then 1 else 0;
    assert forall i :: k <= i < |s| ==> s[i] == Unsigned(s)[i - k];
    assert forall i :: 0 <= i < |Unsigned(s)| ==> Unsigned(s)[i] == s[i + k];
  }

  // ---------------------------------------------------------------- dictionary order

  /** `a` comes before `b` in the dictionary: they agree up to `k`, and there `a` ends or has the smaller character. */
  ghost predicate Before(a: string, b: string) {
    exists k :: 0 <= k <= |a| && k < |b| && a[..k] == b[..k] && (k == |a| || a[k] < b[k])
  }

  lemma DifferentHeads(a: string, b: string)
    requires a != "" && b != "" && a[0] != b[0]
    ensures forall k :: 0 < k <= |a| && k <= |b| ==> a[..k] != b[..k]
  {
    forall k | 0 < k <= |a| && k <= |b| ensures a[..k] != b[..k] {
      assert a[..k][0] == a[0] && b[..k][0] == b[0];
    }
  }

  lemma {:induction false} LessIsBefore(a: string, b: string)
    ensures StringLess(a, b) <==> Before(a, b)
    decreases |a|
  {
    if b != "" && a != "" {
      LessIsBefore(a[1..], b[1..]);
      if a[0] < b[0] {
        assert a[..0] == b[..0];
      } else if a[0] == b[0] {
        if k :| 0 <= k <= |a[1..]| && k < |b[1..]| && a[1..][..k] == b[1..][..k] && (k == |a[1..]| || a[1..][k] < b[1..][k]) {
          assert a[..k + 1] == [a[0]] + a[1..][..k] && b[..k + 1] == [b[0]] + b[1..][..k];
        }
        if k :| 0 <= k <= |a| && k < |b| && a[..k] == b[..k] && (k == |a| || a[k] < b[k]) {
          assert k > 0;
          assert a[1..][..k - 1] == a[..k][1..] && b[1..][..k - 1] == b[..k][1..];
        }
      } else {
        DifferentHeads(a, b);
      }
    } else if a == "" && b != "" {
      assert a[..0] == b[..0];
    }
  }

  lemma {:induction false} OneOfThree(a: string, b: string)
    ensures StringLess(a, b) || a == b || StringLess(b, a)
    ensures !(StringLess(a, b) && StringLess(b, a)) && !StringLess(a, a)
    decreases |a|
  {
    if a != "" {
      if b != "" {
        OneOfThree(a[1..], b[1..]);
        if a[0] == b[0] && a[1..] == b[1..] { assert a == [a[0]] + a[1..] && b == [b[0]] + b[1..]; }
      }
      OneOfThree(a[1..], a[1..]);
    }
  }

  lemma {:induction false} LessChain(a: string, b: string, c: string)
    requires StringLess(a, b) && StringLess(b, c)
    ensures StringLess(a, c)
    decreases |a|
  {
    if a != "" && a[0] == b[0] == c[0] { LessChain(a[1..], b[1..], c[1..]); }
  }

  // ---------------------------------------------------------------- the laws

  /** A symbol reads as its value, an undefined one as the text `Undefined`. */
  lemma SymbolLaw(tb: Table, name: string, op: Operator, o: Operand)
    requires name in tb.symbols && KnownOperand(tb, o)
    ensures var value := Constant(if tb.symbols[name].text.Some? then tb.symbols[name].text.value else "Undefined");
      && (Reads(tb, Name(name), op, o) <==> Reads(tb, value, op, o))
      && (Reads(tb, o, op, Name(name)) <==> Reads(tb, o, op, value))
  {
    hide Reads, Holds;
    var value := Constant(if tb.symbols[name].text.Some? then tb.symbols[name].text.value else "Undefined");
    ReadsEither(tb, Name(name), op, o);
    ReadsEither(tb, value, op, o);
    ReadsEither(tb, o, op, Name(name));
    ReadsEither(tb, o, op, value);
  }

  /** Two numbers are compared as numbers. */
  lemma NumberLaw(tb: Table, a: string, b: string, m: int, n: int)
    requires GetNum(a) == Some(m) && GetNum(b) == Some(n)
    ensures Reads(tb, Constant(a), Eq, Constant(b)) <==> m == n
    ensures Reads(tb, Constant(a), Ne, Constant(b)) <==> m != n
    ensures Reads(tb, Constant(a), Lt, Constant(b)) <==> m < n
    ensures Reads(tb, Constant(a), Le, Constant(b)) <==> m <= n
    ensures Reads(tb, Constant(a), Gt, Constant(b)) <==> m > n
    ensures Reads(tb, Constant(a), Ge, Constant(b)) <==> m >= n
  {
    hide Reads, GetNum;
    ReadsAll(tb, Constant(a), Constant(b));
  }

  /** Anything else is compared as text: equality is equality, and the order is that of the dictionary. */
  lemma TextLaw(tb: Table, a: string, b: string)
    requires GetNum(a) == None || GetNum(b) == None
    ensures Reads(tb, Constant(a), Eq, Constant(b)) <==> a == b
    ensures Reads(tb, Constant(a), Lt, Constant(b)) <==> Before(a, b)
  {
    hide Reads, GetNum, Before;
    ReadsEither(tb, Constant(a), Eq, Constant(b));
    ReadsEither(tb, Constant(a), Lt, Constant(b));
    LessIsBefore(a, b);
  }

  /** The operators belong together, whatever is compared. */
  lemma OperatorLaws(tb: Table, l: Operand, r: Operand)
    requires KnownOperand(tb, l) && KnownOperand(tb, r)
    ensures Reads(tb, l, Eq, l) && !Reads(tb, l, Lt, l)
    ensures Reads(tb, l, Ne, r) <==> !Reads(tb, l, Eq, r)
    ensures Reads(tb, l, Gt, r) <==> !Reads(tb, l, Le, r)
    ensures Reads(tb, l, Ge, r) <==> !Reads(tb, l, Lt, r)
    ensures Reads(tb, l, Le, r) <==> Reads(tb, l, Lt, r) || Reads(tb, l, Eq, r)
    ensures Reads(tb, l, Gt, r) <==> Reads(tb, r, Lt, l)
    ensures Reads(tb, l, Lt, r) || Reads(tb, l, Eq, r) || Reads(tb, r, Lt, l)
    ensures !(Reads(tb, l, Lt, r) && Reads(tb, l, Eq, r)) && !(Reads(tb, l, Lt, r) && Reads(tb, r, Lt, l))
  {
    hide Reads, GetNum, OperandValue;
    ReadsAll(tb, l, r);
    ReadsAll(tb, r, l);
    ReadsAll(tb, l, l);
    OneOfThree(OperandValue(tb, l), OperandValue(tb, r));
    OneOfThree(OperandValue(tb, l), OperandValue(tb, l));
  }

  /** How many of three texts are numbers. */
  function Numbers(a: string, b: string, c: string): nat {
    (if GetNum(a) == None then 0 else 1) + (if GetNum(b) == None then 0 else 1) + (if GetNum(c) == None then 0 else 1)
  }

  /** The order is transitive, but not on two numbers and a text. */
  lemma OrderLaw(tb: Table, a: string, b: string, c: string)
    requires Reads(tb, Constant(a), Lt, Constant(b)) && Reads(tb, Constant(b), Lt, Constant(c))
    requires Numbers(a, b, c) != 2
    ensures Reads(tb, Constant(a), Lt, Constant(c))
  {
    hide Reads, GetNum;
    ReadsEither(tb, Constant(a), Lt, Constant(b));
    ReadsEither(tb, Constant(b), Lt, Constant(c));
    ReadsEither(tb, Constant(a), Lt, Constant(c));
    if Numbers(a, b, c) < 2 { LessChain(a, b, c); }
  }

  /** As texts, "10" comes before "1x" and that before "9"; as numbers, 10 does not come before 9. */
  lemma MixedOrder(tb: Table)
    ensures Reads(tb, Constant("10"), Lt, Constant("1x")) && Reads(tb, Constant("1x"), Lt, Constant("9"))
    ensures !Reads(tb, Constant("10"), Lt, Constant("9"))
  {
    hide Reads, GetNum;
    assert Decimal(1) == "1" && Decimal(10) == "10" && Decimal(9) == "9";
    NumeralsAreNumbers(10, false);
    NumeralsAreNumbers(9, false);
    NumberLaw(tb, "10", "9", 10, 9);
    NumberShape("1x");
    assert "1x"[1] == 'x';
    assert "10"[..1] == "1x"[..1];
    assert "1x"[..0] == "9"[..0];
    TextLaw(tb, "10", "1x");
    TextLaw(tb, "1x", "9");
  }
}
