/**
 The macro parser.  It writes plain text, expands identifiers by pushing their values back onto its
 own input, and follows conditional blocks.  The functions say what each procedure does to the
 input and the output; the class does it.  White space that the parser strips around blocks is
 taken to be gone from the token stream.
 */
module MacroParser {
  import opened Wrappers
  import opened MacroSyntax

  // ---------------------------------------------------------------- conditions

  /** The value of a term: text, or a truth value if it is in parentheses. */
  datatype TermResult = NoTerm | TextTerm(text: string, rest: seq<Token>) | BoolTerm(value: bool, rest: seq<Token>)
  datatype CondResult = NoCond | Cond(value: bool, rest: seq<Token>)

  /** `rest` is what is left of `ts` after at least one token. */
  predicate ProperSuffix(rest: seq<Token>, ts: seq<Token>) {
    |rest| < |ts| && rest == ts[|ts| - |rest|..]
  }

  function ParseTerm(tb: Table, ts: seq<Token>): (r: TermResult)
    ensures !r.NoTerm? ==> ProperSuffix(r.rest, ts)
    decreases |ts|, 0
  {
    if ts == [] then NoTerm
    else
      match ts[0]
      case Ident(name) =>
        if name !in tb.symbols then NoTerm
        else
          TextTerm(match tb.symbols[name].text case None => "Undefined" case Some(text) => text, ts[1..])
      case Literal(value) => TextTerm(value, ts[1..])
      case ParOpen =>
        (match ParseOr(tb, ts[1..], false)
         case NoCond => NoTerm
         case Cond(value, rest) => if rest == [] || rest[0] != ParClose then NoTerm else BoolTerm(value, rest[1..]))
      case _ => NoTerm
  }

  /** Both sides have to be text: the number test of the code fails on a truth value. */
  function ParseComparison(tb: Table, ts: seq<Token>): (r: CondResult)
    ensures r.Cond? ==> ProperSuffix(r.rest, ts)
    decreases |ts|, 1
  {
    var l := ParseTerm(tb, ts);
    if l.NoTerm? || l.rest == [] || !l.rest[0].Compare? then NoCond
    else
      var r := ParseTerm(tb, l.rest[1..]);
      if l.TextTerm? && r.TextTerm? then Cond(Holds(l.rest[0].op, l.text, r.text), r.rest) else NoCond
  }

  function ParseAnd(tb: Table, ts: seq<Token>, sofar: bool): (r: CondResult)
    ensures r.Cond? ==> ProperSuffix(r.rest, ts)
    decreases |ts|, 2
  {
    match ParseComparison(tb, ts)
    case NoCond => NoCond
    case Cond(value, rest) =>
      if rest != [] && rest[0] == AndToken then ParseAnd(tb, rest[1..], value && sofar) else Cond(value && sofar, rest)
  }

  function ParseOr(tb: Table, ts: seq<Token>, sofar: bool): (r: CondResult)
    ensures r.Cond? ==> ProperSuffix(r.rest, ts)
    decreases |ts|, 3
  {
    match ParseAnd(tb, ts, true)
    case NoCond => NoCond
    case Cond(value, rest) =>
      if rest != [] && rest[0] == OrToken then ParseOr(tb, rest[1..], value || sofar) else Cond(value || sofar, rest)
  }

  // ---------------------------------------------------------------- data

  /** Parsing fails with an error, or leaves a rest of the input and the output written so far. */
  datatype Result = Failed | Parsed(rest: seq<Token>, out: string)
  datatype BranchResult = BranchFailed | Branch(value: bool, rest: seq<Token>, out: string)

  function ParseData(tb: Table, ts: seq<Token>, show: bool, out: string): (r: Result)
    requires tb.Valid()
    ensures r.Parsed? ==> Weight(tb, r.rest) <= Weight(tb, ts) && (r.rest == [] || r.rest[0] == Close)
    decreases Weight(tb, ts), 3
  {
    if ts == [] || ts[0] == Close then Parsed(ts, out)
    else
      SuffixIsLighter(tb, ts, 1);
      match ts[0]
      case Text(text) => ParseData(tb, ts[1..], show, if show then out + text else out)
      case Open => Then(tb, ts, ParseBlock(tb, ts, show, out), show)
      case Ident(name) =>
        if name == "if" then Then(tb, ts, ParseIf(tb, ts, show, out), show)
        else if name !in tb.symbols then Failed
        else if !show then ParseData(tb, ts[1..], show, out)
        else if tb.symbols[name].text == None then Failed
        else
          ExpansionIsLighter(tb, name, ts[1..]);
          assert ts == [Ident(name)] + ts[1..];
          ParseData(tb, tb.symbols[name].tokens + ts[1..], show, out)
      case _ => Failed
  }

  /** Continue with the data that follows a block. */
  function Then(tb: Table, ts: seq<Token>, block: Result, show: bool): (r: Result)
    requires tb.Valid() && (block.Parsed? ==> Weight(tb, block.rest) < Weight(tb, ts))
    ensures r.Parsed? ==> Weight(tb, r.rest) <= Weight(tb, ts) && (r.rest == [] || r.rest[0] == Close)
    decreases Weight(tb, ts), 0
  {
    match block
    case Failed => Failed
    case Parsed(rest, out) => ParseData(tb, rest, show, out)
  }

  function ParseBlock(tb: Table, ts: seq<Token>, show: bool, out: string): (r: Result)
    requires tb.Valid()
    ensures r.Parsed? ==> Weight(tb, r.rest) < Weight(tb, ts)
    decreases Weight(tb, ts), 0
  {
    if ts == [] || ts[0] != Open then Failed
    else
      SuffixIsLighter(tb, ts, 1);
      match ParseData(tb, ts[1..], show, out)
      case Failed => Failed
      case Parsed(rest, written) =>
        if rest == [] || rest[0] != Close then Failed
        else
          SuffixIsLighter(tb, rest, 1);
          Parsed(rest[1..], written)
  }

  /** `$if` or `$elif`, a condition in parentheses, and a block that is written if the condition holds. */
  function ParseConditional(tb: Table, ts: seq<Token>, show: bool, out: string): (r: BranchResult)
    requires tb.Valid() && ts != []
    ensures r.Branch? ==> Weight(tb, r.rest) < Weight(tb, ts)
    decreases Weight(tb, ts), 1
  {
    if |ts| < 2 || ts[1] != ParOpen then BranchFailed
    else
      match ParseOr(tb, ts[2..], false)
      case NoCond => BranchFailed
      case Cond(value, rest) =>
        if rest == [] || rest[0] != ParClose then BranchFailed
        else
          var k := |ts| - |rest| + 1;
          assert rest[1..] == ts[k..];
          SuffixIsLighter(tb, ts, k);
          match ParseBlock(tb, rest[1..], show && value, out)
          case Failed => BranchFailed
          case Parsed(after, written) => Branch(value, after, written)
  }

  predicate StartsWith(ts: seq<Token>, name: string) {
    ts != [] && ts[0] == Ident(name)
  }

  function ParseIf(tb: Table, ts: seq<Token>, show: bool, out: string): (r: Result)
    requires tb.Valid() && ts != []
    ensures r.Parsed? ==> Weight(tb, r.rest) < Weight(tb, ts)
    decreases Weight(tb, ts), 2
  {
    match ParseConditional(tb, ts, show, out)
    case BranchFailed => Failed
    case Branch(value, rest, written) => ParseElse(tb, rest, show && !value, written)
  }

  /** The `$elif` blocks and the `$else` block that may follow. */
  function ParseElse(tb: Table, ts: seq<Token>, show: bool, out: string): (r: Result)
    requires tb.Valid()
    ensures r.Parsed? ==> Weight(tb, r.rest) <= Weight(tb, ts)
    decreases Weight(tb, ts), 2
  {
    if StartsWith(ts, "elif") then
      match ParseConditional(tb, ts, show, out)
      case BranchFailed => Failed
      case Branch(value, rest, written) => ParseElse(tb, rest, show && !value, written)
    else if StartsWith(ts, "else") then
      SuffixIsLighter(tb, ts, 1);
      ParseBlock(tb, ts[1..], show, out)
    else Parsed(ts, out)
  }

  /** Parsing a whole input: nothing may be left. */
  function ParseAll(tb: Table, ts: seq<Token>): Option<string>
    requires tb.Valid()
  {
    match ParseData(tb, ts, true, "")
    case Failed => None
    case Parsed(rest, out) => if rest == [] then Some(out) else None
  }

  // ---------------------------------------------------------------- the parser object

  /** The lexer as the parser uses it: a stream of tokens that can be read and extended at the front. */
  class Lexer {
    var input: seq<Token>

    constructor ()
      ensures input == []
    {
      input := [];
    }

    method SetInput(ts: seq<Token>)
      modifies this
      ensures input == ts
    {
      input := ts;
    }

    /** The next token without taking it; `None` at the end of the input. */
    method Peek() returns (tok: Option<Token>)
      ensures tok == if input == [] then None else Some(input[0])
    {
      tok := if input == [] then None else Some(input[0]);
    }

    method Advance()
      requires input != []
      modifies this
      ensures input == old(input)[1..]
    {
      input := input[1..];
    }

    /** Push tokens back in front of the input. */
    method Prepend(ts: seq<Token>)
      modifies this
      ensures input == ts + old(input)
    {
      input := ts + input;
    }
  }

  /** A value in a condition. */
  datatype Value = TextValue(text: string) | BoolValue(value: bool)

  /** The parser.  Every procedure returns false where the code raises an error. */
  class MacroParserBlock {
    const table: Table
    const lex: Lexer
    var outStr: string

    ghost predicate Valid() {
      table.Valid()
    }

    constructor (table: Table)
      requires table.Valid()
      ensures Valid() && this.table == table && fresh(lex)
    {
      this.table := table;
      lex := new Lexer();
      outStr := "";
    }

    method Parse(ts: seq<Token>) returns (ok: bool)
      requires Valid()
      modifies this, lex
      ensures ok == ParseAll(table, ts).Some?
      ensures ok ==> outStr == ParseAll(table, ts).value
    {
      lex.SetInput(ts);
      outStr := "";
      ok := ReadData(true);
      if ok {
        var tok := lex.Peek();
        ok := tok == None;
      }
    }

    method ReadData(show: bool) returns (ok: bool)
      requires Valid()
      modifies this, lex
      ensures ok == ParseData(table, old(lex.input), show, old(outStr)).Parsed?
      ensures ok ==> Parsed(lex.input, outStr) == ParseData(table, old(lex.input), show, old(outStr))
      decreases Weight(table, lex.input), 3
    {
      ghost var whole := ParseData(table, lex.input, show, outStr);
      while lex.input != []
        invariant ParseData(table, lex.input, show, outStr) == whole
        invariant Weight(table, lex.input) <= Weight(table, old(lex.input))
        decreases Weight(table, lex.input)
      {
        ghost var ts := lex.input;
        SuffixIsLighter(table, ts, 1);
        var tok := lex.Peek();
        match tok.value {
          case Text(text) =>
            if show {
              outStr := outStr + text;
            }
            lex.Advance();
          case Open =>
            ok := ReadBlock(show);
            if !ok {
              return;
            }
          case Ident(name) =>
            if name == "if" {
              ok := ReadIf(show);
              if !ok {
                return;
              }
            } else {
              ok := ReadIdentifier(show);
              if !ok {
                return;
              }
            }
          case Close =>
            return true;
          case _ =>
            return false;
        }
      }
      ok := true;
    }

    /** Look the identifier up and push its value back onto the input, unless nothing is to be written. */
    method ReadIdentifier(show: bool) returns (ok: bool)
      requires Valid() && lex.input != [] && lex.input[0].Ident? && lex.input[0].name != "if"
      modifies lex
      ensures ok ==> Weight(table, lex.input) < Weight(table, old(lex.input))
      ensures ok ==> ParseData(table, lex.input, show, outStr) == ParseData(table, old(lex.input), show, outStr)
      ensures !ok ==> ParseData(table, old(lex.input), show, outStr) == Failed
    {
      ghost var ts := lex.input;
      var name := lex.input[0].name;
      if name !in table.symbols {
        return false;
      }
      SuffixIsLighter(table, ts, 1);
      lex.Advance();
      if show {
        if table.symbols[name].text == None {
          return false;
        }
        ExpansionIsLighter(table, name, ts[1..]);
        assert ts == [Ident(name)] + ts[1..];
        lex.Prepend(table.symbols[name].tokens);
      }
      ok := true;
    }

    method ReadBlock(show: bool) returns (ok: bool)
      requires Valid()
      modifies this, lex
      ensures ok == ParseBlock(table, old(lex.input), show, old(outStr)).Parsed?
      ensures ok ==> Parsed(lex.input, outStr) == ParseBlock(table, old(lex.input), show, old(outStr))
      decreases Weight(table, lex.input), 0
    {
      if lex.input == [] || lex.input[0] != Open {
        return false;
      }
      SuffixIsLighter(table, lex.input, 1);
      lex.Advance();
      ok := ReadData(show);
      if !ok || lex.input == [] || lex.input[0] != Close {
        return false;
      }
      lex.Advance();
    }

    method ReadConditional(show: bool) returns (ok: bool, value: bool)
      requires Valid() && lex.input != []
      modifies this, lex
      ensures ok == ParseConditional(table, old(lex.input), show, old(outStr)).Branch?
      ensures ok ==> Branch(value, lex.input, outStr) == ParseConditional(table, old(lex.input), show, old(outStr))
      decreases Weight(table, lex.input), 1
    {
      hide ParseOr, ParseBlock, Weight;
      ghost var ts := lex.input;
      value := false;
      lex.Advance();
      if lex.input == [] || lex.input[0] != ParOpen {
        return false, false;
      }
      lex.Advance();
      assert lex.input == ts[2..];
      ok, value := ReadOr();
      if !ok || lex.input == [] || lex.input[0] != ParClose {
        return false, value;
      }
      ghost var k := |ts| - |lex.input| + 1;
      lex.Advance();
      assert lex.input == ts[k..];
      SuffixIsLighter(table, ts, k);
      ok := ReadBlock(show && value);
    }

    method ReadIf(show: bool) returns (ok: bool)
      requires Valid() && lex.input != []
      modifies this, lex
      ensures ok == ParseIf(table, old(lex.input), show, old(outStr)).Parsed?
      ensures ok ==> Parsed(lex.input, outStr) == ParseIf(table, old(lex.input), show, old(outStr))
      decreases Weight(table, lex.input), 2
    {
      var value;
      ok, value := ReadConditional(show);
      if !ok {
        return;
      }
      var writing := show && !value;
      ghost var whole := ParseElse(table, lex.input, writing, outStr);
      while lex.input != [] && lex.input[0] == Ident("elif")
        invariant ParseElse(table, lex.input, writing, outStr) == whole
        invariant Weight(table, lex.input) < Weight(table, old(lex.input))
        decreases Weight(table, lex.input)
      {
        ok, value := ReadConditional(writing);
        if !ok {
          return;
        }
        writing := writing && !value;
      }
      if lex.input != [] && lex.input[0] == Ident("else") {
        SuffixIsLighter(table, lex.input, 1);
        lex.Advance();
        ok := ReadBlock(writing);
      } else {
        ok := true;
      }
    }

    method ReadOr() returns (ok: bool, ret: bool)
      requires Valid()
      modifies lex
      ensures ok == ParseOr(table, old(lex.input), false).Cond?
      ensures ok ==> Cond(ret, lex.input) == ParseOr(table, old(lex.input), false)
      decreases |lex.input|, 3
    {
      ret := false;
      ghost var whole := ParseOr(table, lex.input, false);
      while true
        invariant ParseOr(table, lex.input, ret) == whole
        invariant |lex.input| <= |old(lex.input)|
        decreases |lex.input|
      {
        var value;
        ok, value := ReadAnd();
        if !ok {
          return;
        }
        ret := value || ret;
        if lex.input == [] || lex.input[0] != OrToken {
          return;
        }
        lex.Advance();
      }
    }

    method ReadAnd() returns (ok: bool, ret: bool)
      requires Valid()
      modifies lex
      ensures ok == ParseAnd(table, old(lex.input), true).Cond?
      ensures ok ==> Cond(ret, lex.input) == ParseAnd(table, old(lex.input), true)
      decreases |lex.input|, 2
    {
      ret := true;
      ghost var whole := ParseAnd(table, lex.input, true);
      while true
        invariant ParseAnd(table, lex.input, ret) == whole
        invariant |lex.input| <= |old(lex.input)|
        decreases |lex.input|
      {
        var value;
        ok, value := ReadComparison();
        if !ok {
          return;
        }
        ret := value && ret;
        if lex.input == [] || lex.input[0] != AndToken {
          return;
        }
        lex.Advance();
      }
    }

    method ReadComparison() returns (ok: bool, ret: bool)
      requires Valid()
      modifies lex
      ensures ok == ParseComparison(table, old(lex.input)).Cond?
      ensures ok ==> Cond(ret, lex.input) == ParseComparison(table, old(lex.input))
      decreases |lex.input|, 1
    {
      ret := false;
      var l, r;
      ok, l := ReadTerm();
      if !ok || lex.input == [] || !lex.input[0].Compare? {
        return false, false;
      }
      var op := lex.input[0].op;
      lex.Advance();
      ok, r := ReadTerm();
      if !ok || !l.TextValue? || !r.TextValue? {
        return false, false;
      }
      ret := Holds(op, l.text, r.text);
    }

    method ReadTerm() returns (ok: bool, ret: Value)
      requires Valid()
      modifies lex
      ensures ok == !ParseTerm(table, old(lex.input)).NoTerm?
      ensures ok ==>
        ParseTerm(table, old(lex.input)) ==
          match ret case TextValue(text) => TextTerm(text, lex.input) case BoolValue(value) => BoolTerm(value, lex.input)
      decreases |lex.input|, 0
    {
      hide ParseOr;
      ok, ret := true, BoolValue(false);
      if lex.input == [] {
        return false, ret;
      }
      match lex.input[0] {
        case Ident(name) =>
          if name !in table.symbols {
            return false, ret;
          }
          ret := TextValue(match table.symbols[name].text case None => "Undefined" case Some(text) => text);
        case Literal(value) =>
          ret := TextValue(value);
        case ParOpen =>
          lex.Advance();
          var value;
          ok, value := ReadOr();
          if !ok || lex.input == [] || lex.input[0] != ParClose {
            return false, ret;
          }
          ret := BoolValue(value);
        case _ =>
          return false, ret;
      }
      lex.Advance();
    }
  }
}
