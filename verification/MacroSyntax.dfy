/**
 The macro language of the code generator: tokens, the symbol table, and how much text a token
 stands for once every identifier in it has been expanded.
 */
module MacroSyntax {
  import opened Wrappers

  datatype Operator = Le | Lt | Eq | Ne | Ge | Gt

  datatype Token =
    | Text(text: string)
    | Ident(name: string)
    | Open
    | Close
    | ParOpen
    | ParClose
    | Compare(op: Operator)
    | AndToken
    | OrToken
    | Literal(value: string)
    | Unknown

  /** A symbol has a value as text, unless it is undefined, and the same value as tokens. */
  datatype Symbol = Symbol(text: Option<string>, tokens: seq<Token>)

  /** The symbol table; `rank` orders the symbols by what their values mention. */
  datatype Table = Table(symbols: map<string, Symbol>, rank: map<string, nat>, depth: nat)
  {
    /** Symbol values name only symbols of lower rank. */
    ghost predicate Valid() {
      && symbols.Keys <= rank.Keys
      && (forall n :: n in symbols ==> rank[n] < depth)
      && forall n :: n in symbols ==> Below(symbols[n].tokens, rank[n])
    }

    ghost predicate Below(ts: seq<Token>, bound: nat)
      requires symbols.Keys <= rank.Keys
    {
      forall i :: 0 <= i < |ts| && ts[i].Ident? && ts[i].name in symbols ==> rank[ts[i].name] < bound
    }
  }

  /** Number of tokens after expanding every identifier of rank below `bound`, counting the identifiers too. */
  ghost function WeightBelow(tb: Table, ts: seq<Token>, bound: nat): nat
    requires tb.Valid()
    decreases bound, |ts|
  {
    if ts == [] then 0
    else
      1 + (if ts[0].Ident? && ts[0].name in tb.symbols && tb.rank[ts[0].name] < bound
           then WeightBelow(tb, tb.symbols[ts[0].name].tokens, tb.rank[ts[0].name]) else 0)
        + WeightBelow(tb, ts[1..], bound)
  }

  ghost function Weight(tb: Table, ts: seq<Token>): nat
    requires tb.Valid()
  {
    WeightBelow(tb, ts, tb.depth)
  }

  lemma {:induction false} WeightConcat(tb: Table, a: seq<Token>, b: seq<Token>, bound: nat)
    requires tb.Valid()
    ensures WeightBelow(tb, a + b, bound) == WeightBelow(tb, a, bound) + WeightBelow(tb, b, bound)
    decreases |a|
  {
    if a == [] {
      assert a + b == b;
    } else {
      assert (a + b)[1..] == a[1..] + b;
      WeightConcat(tb, a[1..], b, bound);
    }
  }

  lemma {:induction false} WeightBound(tb: Table, ts: seq<Token>, bound: nat, more: nat)
    requires tb.Valid() && tb.Below(ts, bound) && bound <= more
    ensures WeightBelow(tb, ts, bound) == WeightBelow(tb, ts, more)
    decreases |ts|
  {
    if ts != [] {
      assert tb.Below(ts[1..], bound) by {
        forall i | 0 <= i < |ts[1..]| && ts[1..][i].Ident? && ts[1..][i].name in tb.symbols
          ensures tb.rank[ts[1..][i].name] < bound
        {
          assert ts[1..][i] == ts[i + 1];
        }
      }
      WeightBound(tb, ts[1..], bound, more);
    }
  }

  /** Expanding an identifier makes the input lighter, although it may make it longer. */
  lemma ExpansionIsLighter(tb: Table, name: string, rest: seq<Token>)
    requires tb.Valid() && name in tb.symbols
    ensures Weight(tb, tb.symbols[name].tokens + rest) < Weight(tb, [Ident(name)] + rest)
  {
    var value := tb.symbols[name].tokens;
    WeightBound(tb, value, tb.rank[name], tb.depth);
    WeightConcat(tb, value, rest, tb.depth);
    assert ([Ident(name)] + rest)[1..] == rest;
  }

  /** Dropping tokens from the front makes the input lighter. */
  lemma SuffixIsLighter(tb: Table, ts: seq<Token>, k: nat)
    requires tb.Valid() && k <= |ts|
    ensures Weight(tb, ts[k..]) <= Weight(tb, ts)
    ensures 0 < k ==> Weight(tb, ts[k..]) < Weight(tb, ts)
  {
    WeightConcat(tb, ts[..k], ts[k..], tb.depth);
    assert ts[..k] + ts[k..] == ts;
  }

  // ---------------------------------------------------------------- values in conditions

  predicate IsDigit(c: char) { '0' <= c <= '9' }

  predicate IsHexDigit(c: char) { IsDigit(c) || 'a' <= c <= 'f' || 'A' <= c <= 'F' }

  function DigitValue(c: char): nat
    requires IsHexDigit(c)
  {
    if IsDigit(c) then (c - '0') as nat else if 'a' <= c then (c - 'a') as nat + 10 else (c - 'A') as nat + 10
  }

  function NumberValue(s: string, base: nat): nat
    requires forall i :: 0 <= i < |s| ==> IsHexDigit(s[i])
  {
    if s == "" then 0 else NumberValue(s[..|s| - 1], base) * base + DigitValue(s[|s| - 1])
  }

  function Unsigned(s: string): string {
    if s != "" && (s[0] == '-' || s[0] == '+') then s[1..] else s
  }

  predicate IsInt(s: string) {
    Unsigned(s) != "" && forall i :: 0 <= i < |Unsigned(s)| ==> IsDigit(Unsigned(s)[i])
  }

  predicate IsHex(s: string) {
    2 < |s| && s[0] == '0' && (s[1] == 'x' || s[1] == 'X') && forall i :: 2 <= i < |s| ==> IsHexDigit(s[i])
  }

  /** The end of a pattern also matches in front of a final line feed. */
  function BeforeFinalLineFeed(s: string): string {
    if s != "" && s[|s| - 1] == '\n' then s[..|s| - 1] else s
  }

  /** The numeric value of a string that looks like a decimal or hexadecimal number. */
  function GetNum(text: string): Option<int> {
    var s := BeforeFinalLineFeed(text);
    if IsHex(s) then Some(NumberValue(s[2..], 16))
    else if !IsInt(s) then None
    else if s[0] == '-' then Some(0 - NumberValue(Unsigned(s), 10))
    else Some(NumberValue(Unsigned(s), 10))
  }

  /** Lexicographic order. */
  predicate StringLess(a: string, b: string) {
    b != "" && (a == "" || a[0] < b[0] || (a[0] == b[0] && StringLess(a[1..], b[1..])))
  }

  /** The outcome of a comparison: numeric if both sides are numbers, else by the strings. */
  predicate Holds(op: Operator, l: string, r: string) {
    match (GetNum(l), GetNum(r))
    case (Some(m), Some(n)) =>
      (match op
       case Le => m <= n
       case Lt => m < n
       case Eq => m == n
       case Ne => m != n
       case Ge => m >= n
       case Gt => m > n)
    case _ =>
      match op
      case Le => !StringLess(r, l)
      case Lt => StringLess(l, r)
      case Eq => l == r
      case Ne => l != r
      case Ge => !StringLess(l, r)
      case Gt => StringLess(r, l)
  }
}
