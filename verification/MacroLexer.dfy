/**
 The lexer on plain text: characters to tokens, as it works outside the parentheses of a condition.
 */
module MacroLexer {
  import opened Wrappers
  import opened MacroSyntax
  import opened MacroParser

  predicate IsLetter(c: char) { 'a' <= c <= 'z' || 'A' <= c <= 'Z' }

  predicate InName(c: char) { IsLetter(c) || IsDigit(c) || c == '_' || c == '-' }

  /** Where the run of name characters that starts at `i` ends. */
  function NameEnd(s: string, i: nat): (e: nat)
    requires i <= |s|
    ensures i <= e <= |s|
    decreases |s| - i
  {
    if i < |s| && InName(s[i]) then NameEnd(s, i + 1) else i
  }

  predicate StartsName(s: string) {
    |s| > 1 && s[0] == '$' && IsLetter(s[1])
  }

  predicate DelimiterAt(s: string, i: nat) {
    i + 1 < |s| && ((s[i] == '{' && s[i + 1] == ':') || (s[i] == ':' && s[i + 1] == '}'))
  }

  predicate SpecialAt(s: string, i: nat) {
    i < |s| && (s[i] == '$' || DelimiterAt(s, i))
  }

  /** The first special character at or after `i`, or the end. */
  function FirstSpecial(s: string, i: nat): (e: nat)
    requires i <= |s|
    ensures i <= e <= |s| && (e < |s| ==> SpecialAt(s, e))
    ensures forall j :: i <= j < e ==> !SpecialAt(s, j)
    decreases |s| - i
  {
    if i == |s| || SpecialAt(s, i) then i else FirstSpecial(s, i + 1)
  }

  /** The next token of a text, and the text after it; a lone `$` is not taken. */
  function Next(s: string): (r: (Token, string))
    requires s != ""
    ensures r.0 != Unknown ==> |r.1| < |s|
  {
    if StartsName(s) then (Ident(s[1..NameEnd(s, 1)]), s[NameEnd(s, 1)..])
    else if DelimiterAt(s, 0) then (if s[0] == '{' then Open else Close, s[2..])
    else if |s| > 1 && s[0] == '$' then if s[1] == '$' then (Text("$"), s[2..]) else (Unknown, s)
    else if |s| == 1 then (Text(s), "")
    else (Text(s[..FirstSpecial(s, 0)]), s[FirstSpecial(s, 0)..])
  }

  /** The parser drops a line feed after a block delimiter, unless it is the last character. */
  function AfterToken(tok: Token, rest: string): (r: string)
    ensures |r| <= |rest|
  {
    if tok in [Open, Close] && |rest| > 1 && rest[0] == '\n' then rest[1..] else rest
  }

  /** The token stream of a text. */
  function Lexed(s: string): seq<Token>
    decreases |s|
  {
    if s == "" then []
    else if Next(s).0 == Unknown then [Unknown]
    else [Next(s).0] + Lexed(AfterToken(Next(s).0, Next(s).1))
  }

  // ---------------------------------------------------------------- the lexer object

  predicate OccursAt(s: string, pattern: string, i: nat)
    requires i <= |s|
  {
    pattern <= s[i..]
  }

  /** The first place of `pattern` in `s`, or -1. */
  function Find(s: string, pattern: string, i: nat): (pos: int)
    requires i <= |s|
    ensures pos == -1 || i <= pos <= |s|
    ensures pos >= 0 ==> OccursAt(s, pattern, pos)
    ensures forall j :: i <= j < (if pos < 0 then |s| else pos) ==> !OccursAt(s, pattern, j)
    decreases |s| - i
  {
    if OccursAt(s, pattern, i) then i else if i == |s| then -1 else Find(s, pattern, i + 1)
  }

  class TextLexer {
    var inputStr: string
    var text: string
    var nextToken: Option<Token>

    /** A token that has been peeked at is gone from `inputStr`, a lone `$` excepted. */
    ghost predicate Valid()
      reads this
    {
      nextToken == Some(Unknown) ==> inputStr != "" && Next(inputStr).0 == Unknown
    }

    /** The tokens still to come. */
    ghost function Stream(): seq<Token>
      reads this
    {
      match nextToken
      case None => Lexed(inputStr)
      case Some(tok) =>
        if tok == Unknown then [Unknown] else [tok] + Lexed(AfterToken(tok, inputStr))
    }

    constructor (s: string)
      ensures Valid() && nextToken == None && Stream() == Lexed(s)
    {
      inputStr, text, nextToken := s, "", None;
    }

    method Peek() returns (tok: Option<Token>)
      requires Valid()
      modifies this
      ensures Valid() && Stream() == old(Stream())
      ensures tok == if Stream() == [] then None else Some(Stream()[0])
      ensures nextToken == tok
    {
      if nextToken == None && inputStr != "" {
        var t := ParseGibberish();
        nextToken := Some(t);
      }
      tok := nextToken;
    }

    /** The parser asks for the line feed to be skipped exactly after a block delimiter. */
    method Advance(skipNewline: bool)
      requires Valid() && nextToken.Some? && nextToken != Some(Unknown)
      requires skipNewline <==> nextToken in [Some(Open), Some(Close)]
      modifies this
      ensures Valid() && nextToken == None && Stream() == old(Stream())[1..]
    {
      nextToken := None;
      if skipNewline && |inputStr| > 1 && inputStr[0] == '\n' {
        inputStr := inputStr[1..];
      }
    }

    /** Only used when no token has been peeked at. */
    method Prepend(s: string)
      requires Valid() && nextToken == None
      modifies this
      ensures Valid() && nextToken == None && inputStr == s + old(inputStr) && Stream() == Lexed(s + old(inputStr))
    {
      inputStr := s + inputStr;
    }

    method ParseGibberish() returns (tok: Token)
      requires inputStr != ""
      modifies this`inputStr, this`text
      ensures (tok, inputStr) == Next(old(inputStr))
    {
      if StartsName(inputStr) {
        var end := NameEnd(inputStr, 1);
        text := inputStr[1..end];
        inputStr := inputStr[end..];
        return Ident(text);
      }
      if |inputStr| > 1 {
        if inputStr[0..2] == "{:" {
          text, inputStr := inputStr[0..2], inputStr[2..];
          return Open;
        }
        if inputStr[0..2] == ":}" {
          text, inputStr := inputStr[0..2], inputStr[2..];
          return Close;
        }
        if inputStr[0..2] == "$$" {
          assert inputStr[0] == inputStr[0..2][0] && inputStr[1] == inputStr[0..2][1];
          text, inputStr := inputStr[0..1], inputStr[2..];
          assert text == "$";
          return Text(text);
        }
        if inputStr[0] == '$' {
          text := inputStr[0..1];
          return Unknown;
        }
      }
      var pos := Find(inputStr, "$", 0);
      var tmp := Find(inputStr, "{:", 0);
      if pos < 0 || (tmp >= 0 && tmp < pos) {
        pos := tmp;
      }
      tmp := Find(inputStr, ":}", 0);
      if pos < 0 || (tmp >= 0 && tmp < pos) {
        pos := tmp;
      }
      CutIsFirstSpecial(inputStr, pos);
      assert inputStr[..|inputStr|] == inputStr && inputStr[|inputStr|..] == "";
      if pos < 0 || |inputStr| == 1 {
        text, inputStr := inputStr, "";
      } else {
        text, inputStr := inputStr[..pos], inputStr[pos..];
      }
      tok := Text(text);
    }
  }

  lemma PatternAt(s: string, i: nat)
    requires i <= |s|
    ensures SpecialAt(s, i) <==> OccursAt(s, "$", i) || OccursAt(s, "{:", i) || OccursAt(s, ":}", i)
  {
    var t := s[i..];
    assert forall j :: 0 <= j < |t| ==> t[j] == s[i + j];
    assert "$" <= t <==> |t| >= 1 && t[0] == '$';
    assert "{:" <= t <==> |t| >= 2 && t[0] == '{' && t[1] == ':' by {
      if |t| >= 2 && t[0] == '{' && t[1] == ':' { assert t[..2] == "{:"; }
    }
    assert ":}" <= t <==> |t| >= 2 && t[0] == ':' && t[1] == '}' by {
      if |t| >= 2 && t[0] == ':' && t[1] == '}' { assert t[..2] == ":}"; }
    }
  }

  /** The least of three searches is the first special character. */
  lemma CutIsFirstSpecial(s: string, pos: int)
    requires var a, b, c := Find(s, "$", 0), Find(s, "{:", 0), Find(s, ":}", 0);
             var ab := if a < 0 || (b >= 0 && b < a) then b else a;
             pos == if ab < 0 || (c >= 0 && c < ab) then c else ab
    ensures FirstSpecial(s, 0) == if pos < 0 then |s| else pos
  {
    hide SpecialAt, FirstSpecial, Find, OccursAt;
    var end := if pos < 0 then |s| else pos;
    if pos >= 0 { PatternAt(s, pos); }
    forall j | 0 <= j < end
      ensures !SpecialAt(s, j)
    {
      PatternAt(s, j);
    }
    FirstSpecialIs(s, end);
  }

  lemma FirstSpecialIs(s: string, end: nat)
    requires end <= |s| && (end < |s| ==> SpecialAt(s, end))
    requires forall j :: 0 <= j < end ==> !SpecialAt(s, j)
    ensures FirstSpecial(s, 0) == end
  {
    hide SpecialAt, FirstSpecial;
    var e := FirstSpecial(s, 0);
  }

  // ---------------------------------------------------------------- plain text comes back

  function Doubled(s: string): (d: string)
    ensures |s| <= |d| && (s == "" <==> d == "")
  {
    if s == "" then "" else (if s[0] == '$' then "$$" else [s[0]]) + Doubled(s[1..])
  }

  predicate HasDelimiter(s: string) {
    exists i :: 0 <= i < |s| && DelimiterAt(s, i)
  }

  function TextOf(ts: seq<Token>): string {
    if ts == [] then "" else (if ts[0].Text? then ts[0].text else "") + TextOf(ts[1..])
  }

  predicate IsPlain(ts: seq<Token>) {
    forall i :: 0 <= i < |ts| ==> ts[i].Text? || ts[i] == Open || ts[i] == Close
  }

  predicate IsText(ts: seq<Token>) {
    forall i :: 0 <= i < |ts| ==> ts[i].Text?
  }

  lemma {:induction false} DoubledPrefix(s: string, c: nat)
    requires c <= |s| && forall j :: 0 <= j < c ==> s[j] != '$'
    ensures Doubled(s) == s[..c] + Doubled(s[c..])
    decreases c
  {
    if c == 0 {
      assert s[0..] == s;
    } else {
      DoubledPrefix(s[1..], c - 1);
      assert s[1..][c - 1..] == s[c..];
      assert s[..c] == [s[0]] + s[1..][..c - 1];
    }
  }

  /** Doubling moves no special character before the first one. */
  lemma DoubledSpecial(s: string)
    ensures FirstSpecial(Doubled(s), 0) == FirstSpecial(s, 0)
    ensures Doubled(s) == s[..FirstSpecial(s, 0)] + Doubled(s[FirstSpecial(s, 0)..])
  {
    var c := FirstSpecial(s, 0);
    var d := Doubled(s);
    forall j | 0 <= j < c
      ensures s[j] != '$'
    {
      assert !SpecialAt(s, j);
    }
    DoubledPrefix(s, c);
    DoubledHead(s[c..]);
    assert forall j :: 0 <= j < |s| - c ==> s[c..][j] == s[c + j];
    assert forall j :: 0 <= j < |d| - c ==> d[c + j] == Doubled(s[c..])[j];
    forall j | 0 <= j < c
      ensures !SpecialAt(d, j)
    {
      assert !SpecialAt(s, j) && d[j] == s[j];
    }
    FirstSpecialIs(d, c);
  }

  lemma DoubledHead(s: string)
    ensures s != "" ==> Doubled(s)[0] == s[0]
    ensures DelimiterAt(s, 0) ==> DelimiterAt(Doubled(s), 0) && Doubled(s)[2..] == Doubled(s[2..])
    ensures DelimiterAt(Doubled(s), 0) ==> DelimiterAt(s, 0)
  {
    if |s| > 1 && s[0] != '$' {
      assert Doubled(s) == [s[0]] + Doubled(s[1..]);
      assert Doubled(s[1..])[0] == s[1];
      assert s[1..][1..] == s[2..];
      if s[1] != '$' { assert Doubled(s[1..]) == [s[1]] + Doubled(s[2..]); }
    }
  }

  lemma DelimiterFrom(s: string, c: nat)
    requires c <= |s| && forall j :: 0 <= j < c ==> !DelimiterAt(s, j)
    ensures HasDelimiter(s) <==> HasDelimiter(s[c..])
  {
    var t := s[c..];
    assert forall j :: 0 <= j < |t| ==> t[j] == s[c + j];
    assert forall j :: 0 <= j < |t| ==> DelimiterAt(t, j) == DelimiterAt(s, c + j);
    if i :| 0 <= i < |s| && DelimiterAt(s, i) { assert DelimiterAt(t, i - c); }
  }

  lemma TextOfCons(tok: Token, ts: seq<Token>)
    ensures TextOf([tok] + ts) == (if tok.Text? then tok.text else "") + TextOf(ts)
    ensures IsPlain(ts) && (tok.Text? || tok == Open || tok == Close) ==> IsPlain([tok] + ts)
  {
    assert ([tok] + ts)[1..] == ts;
  }

  ghost predicate LexesTo(s: string, ts: seq<Token>) {
    && IsPlain(ts) && |TextOf(ts)| <= |s|
    && (HasDelimiter(s) ==> |TextOf(ts)| < |s|)
    && (!HasDelimiter(s) ==> TextOf(ts) == s && IsText(ts))
  }

  /** A doubled text lexes to its own characters, but for block delimiters, which are lost. */
  lemma {:induction false} DoubledLexes(s: string)
    ensures LexesTo(s, Lexed(Doubled(s)))
    decreases |s|
  {
    hide HasDelimiter, IsPlain, DelimiterAt, LexesTo, FirstSpecial;
    if s == "" {
      EmptyLexes();
    } else if s[0] == '$' {
      assert Doubled(s) == "$$" + Doubled(s[1..]);
      assert Doubled(s)[2..] == Doubled(s[1..]);
      assert s[..1] == "$";
      PlainAt(Doubled(s), 0);
      DoubledLexes(s[1..]);
      PlainAt(s, 0);
      TextLexes(s, 1, Lexed(Doubled(s[1..])));
    } else if DelimiterAt(s, 0) {
      DelimiterLexes(s);
    } else {
      PieceLexes(s);
    }
  }

  lemma PlainAt(s: string, j: nat)
    requires j < |s| && (s[j] == '$' || !SpecialAt(s, j))
    ensures !DelimiterAt(s, j)
  {}

  lemma EmptyLexes()
    ensures LexesTo("", [])
  {}

  /** A piece of text without a delimiter goes in front. */
  lemma TextLexes(s: string, c: nat, ts: seq<Token>)
    requires c <= |s| && LexesTo(s[c..], ts) && forall j :: 0 <= j < c ==> !DelimiterAt(s, j)
    ensures LexesTo(s, [Text(s[..c])] + ts)
  {
    hide HasDelimiter, DelimiterAt, IsPlain;
    DelimiterFrom(s, c);
    TextOfCons(Text(s[..c]), ts);
    assert s[..c] + s[c..] == s;
  }

  lemma {:induction false} DelimiterLexes(s: string)
    requires DelimiterAt(s, 0)
    ensures LexesTo(s, Lexed(Doubled(s)))
    decreases |s|, 0
  {
    hide LexesTo;
    var d := Doubled(s);
    DoubledHead(s);
    var t := s[2..];
    var tok := Next(d).0;
    assert tok in [Open, Close] && Next(d).1 == Doubled(t);
    var rest := AfterToken(tok, Doubled(t));
    var k := if rest == Doubled(t) then 2 else 3;
    if k == 3 {
      DoubledHead(t);
      assert Doubled(t) == "\n" + Doubled(t[1..]);
      assert t[1..] == s[3..];
    }
    assert rest == Doubled(s[k..]);
    DoubledLexes(s[k..]);
    DelimiterIn(s, k, tok, Lexed(rest));
  }

  lemma DelimiterIn(s: string, k: nat, tok: Token, ts: seq<Token>)
    requires DelimiterAt(s, 0) && 0 < k <= |s| && LexesTo(s[k..], ts) && tok in [Open, Close]
    ensures LexesTo(s, [tok] + ts)
  {
    hide IsPlain, DelimiterAt;
    TextOfCons(tok, ts);
    assert HasDelimiter(s) by { hide *; assert 0 <= 0 < |s| && DelimiterAt(s, 0); }
  }

  lemma {:induction false} PieceLexes(s: string)
    requires s != "" && s[0] != '$' && !DelimiterAt(s, 0)
    ensures LexesTo(s, Lexed(Doubled(s)))
    decreases |s|, 0
  {
    hide LexesTo, HasDelimiter, DelimiterAt, FirstSpecial, Doubled;
    var c := FirstSpecial(s, 0);
    var d := Doubled(s);
    assert c > 0;
    DoubledSpecial(s);
    DoubledHead(s);
    assert d[..c] == s[..c] && d[c..] == Doubled(s[c..]);
    if |d| == 1 { assert c == 1 && d[..c] == d && d[c..] == ""; }
    assert Next(d) == (Text(s[..c]), d[c..]);
    DoubledLexes(s[c..]);
    forall j | 0 <= j < c
      ensures !DelimiterAt(s, j)
    {
      PlainAt(s, j);
    }
    TextLexes(s, c, Lexed(d[c..]));
  }

  // ---------------------------------------------------------------- and is parsed back to itself

  /** On plain pieces and blocks the parser writes the pieces, if it gets through. */
  lemma {:induction false} PlainData(tb: Table, ts: seq<Token>, out: string)
    requires tb.Valid() && IsPlain(ts)
    ensures var r := ParseData(tb, ts, true, out);
            r.Parsed? ==> IsPlain(r.rest) && r.out + TextOf(r.rest) == out + TextOf(ts)
    ensures IsText(ts) ==> ParseData(tb, ts, true, out) == Parsed([], out + TextOf(ts))
    decreases Weight(tb, ts), 1
  {
    hide ParseBlock, IsPlain, IsText, ParseIf, TextOf, Weight;
    if ts == [] {
      assert out + TextOf(ts) == out by { hide *; EmptyText(ts); }
    } else {
      PlainTail(ts);
      SuffixIsLighter(tb, ts, 1);
      if ts[0].Text? {
        assert (out + ts[0].text) + TextOf(ts[1..]) == out + TextOf(ts);
        PlainData(tb, ts[1..], out + ts[0].text);
      } else if ts[0] == Open {
        PlainBlock(tb, ts, out);
        var b := ParseBlock(tb, ts, true, out);
        if b.Parsed? { PlainData(tb, b.rest, b.out); }
      }
    }
  }

  lemma EmptyText(ts: seq<Token>)
    requires ts == []
    ensures TextOf(ts) == ""
  {}

  lemma PlainTail(ts: seq<Token>)
    requires IsPlain(ts) && ts != []
    ensures IsPlain(ts[1..]) && (ts[0].Text? || ts[0] == Open || ts[0] == Close)
    ensures TextOf(ts) == if ts[0].Text? then ts[0].text + TextOf(ts[1..]) else TextOf(ts[1..])
    ensures IsText(ts) ==> ts[0].Text? && IsText(ts[1..])
  {
    assert forall i :: 0 <= i < |ts[1..]| ==> ts[1..][i] == ts[i + 1];
  }

  lemma {:induction false} PlainBlock(tb: Table, ts: seq<Token>, out: string)
    requires tb.Valid() && IsPlain(ts)
    ensures var r := ParseBlock(tb, ts, true, out);
            r.Parsed? ==> IsPlain(r.rest) && r.out + TextOf(r.rest) == out + TextOf(ts)
    decreases Weight(tb, ts), 0
  {
    hide ParseData, IsPlain;
    if ts != [] && ts[0] == Open {
      PlainTail(ts);
      SuffixIsLighter(tb, ts, 1);
      PlainData(tb, ts[1..], out);
      var r := ParseData(tb, ts[1..], true, out);
      if r.Parsed? && r.rest != [] { PlainTail(r.rest); }
    }
  }

  // ---------------------------------------------------------------- blocks have to match

  /**
   What is left where an unmatched closing delimiter stops the reading, `depth` opening ones having been met
   before; nothing if the text ends inside a block.
   */
  function Unmatched(ts: seq<Token>, depth: nat): Option<seq<Token>> {
    if ts == [] then if depth == 0 then Some([]) else None
    else if ts[0] == Open then Unmatched(ts[1..], depth + 1)
    else if ts[0] == Close then if depth == 0 then Some(ts) else Unmatched(ts[1..], depth - 1)
    else Unmatched(ts[1..], depth)
  }

  /** Every delimiter has its partner. */
  predicate Balanced(ts: seq<Token>) {
    Unmatched(ts, 0) == Some([])
  }

  lemma {:induction false} UnmatchedInner(ts: seq<Token>, depth: nat)
    ensures Unmatched(ts, depth + 1) ==
      match Unmatched(ts, 0)
      case None => None
      case Some(rest) => if rest == [] then None else Unmatched(rest[1..], depth)
    ensures Unmatched(ts, 0).Some? && Unmatched(ts, 0).value != [] ==> Unmatched(ts, 0).value[0] == Close
    ensures Unmatched(ts, 0).Some? ==> |Unmatched(ts, 0).value| <= |ts|
    decreases |ts|
  {
    if ts != [] {
      UnmatchedInner(ts[1..], depth);
      if ts[0] == Open {
        UnmatchedInner(ts[1..], 0);
        UnmatchedInner(ts[1..], depth + 1);
        var first := Unmatched(ts[1..], 0);
        if first.Some? && first.value != [] {
          UnmatchedInner(first.value[1..], depth);
        }
      }
    }
  }

  /** The parser stops where the matching does. */
  lemma {:induction false} PlainStops(tb: Table, ts: seq<Token>, out: string)
    requires tb.Valid() && IsPlain(ts)
    ensures var r := ParseData(tb, ts, true, out);
      match Unmatched(ts, 0)
      case None => r == Failed
      case Some(rest) => r.Parsed? && r.rest == rest && IsPlain(rest)
    decreases |ts|
  {
    hide IsPlain, ParseIf, ParseBlock, TextOf, Weight;
    if ts != [] {
      PlainTail(ts);
      if ts[0].Text? {
        PlainStops(tb, ts[1..], out + ts[0].text);
      } else if ts[0] == Open {
        PlainBlockStops(tb, ts, out);
        UnmatchedInner(ts[1..], 0);
        var b := ParseBlock(tb, ts, true, out);
        if b.Parsed? { PlainStops(tb, b.rest, b.out); }
      }
    }
  }

  lemma {:induction false} PlainBlockStops(tb: Table, ts: seq<Token>, out: string)
    requires tb.Valid() && IsPlain(ts) && ts != [] && ts[0] == Open
    ensures var (r, u) := (ParseBlock(tb, ts, true, out), Unmatched(ts[1..], 0));
      if u == None || u.value == [] then r == Failed
      else r.Parsed? && |u.value| < |ts| && r.rest == u.value[1..] && IsPlain(r.rest)
    decreases |ts|, 0
  {
    hide IsPlain, ParseData, Weight;
    PlainTail(ts);
    PlainStops(tb, ts[1..], out);
    UnmatchedInner(ts[1..], 0);
    var u := Unmatched(ts[1..], 0);
    if u.Some? && u.value != [] { PlainTail(u.value); }
  }

  /** Pieces and delimiters are parsed to the end exactly if the delimiters match, and then only the pieces are written. */
  lemma BlocksTheorem(tb: Table, ts: seq<Token>)
    requires tb.Valid() && IsPlain(ts)
    ensures ParseAll(tb, ts) == if Balanced(ts) then Some(TextOf(ts)) else None
  {
    hide IsPlain, ParseData, Unmatched;
    PlainStops(tb, ts, "");
    PlainData(tb, ts, "");
    assert "" + TextOf(ts) == TextOf(ts);
    var r := ParseData(tb, ts, true, "");
    if r.Parsed? && r.rest == [] {
      EmptyText(r.rest);
      assert r.out + "" == r.out;
    }
  }

  /** A text with every `$` doubled parses back to itself exactly when it holds no block delimiter. */
  lemma PlainTextTheorem(tb: Table, s: string)
    requires tb.Valid()
    ensures ParseAll(tb, Lexed(Doubled(s))) == Some(s) <==> !HasDelimiter(s)
  {
    hide Lexed, Doubled, HasDelimiter, ParseData, IsPlain;
    var ts := Lexed(Doubled(s));
    DoubledLexes(s);
    PlainData(tb, ts, "");
    assert "" + TextOf(ts) == TextOf(ts);
    var r := ParseData(tb, ts, true, "");
    if r.Parsed? && r.rest == [] {
      assert r.out + TextOf([]) == r.out;
    }
  }
}
