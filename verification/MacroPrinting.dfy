/**
 The lexer undoes printing: a list of text pieces, identifiers and block delimiters, written down as a
 macro text, is read back as the same list.
 */
module MacroPrinting {
  import opened MacroSyntax
  import opened MacroParser
  import opened MacroLexer

  /** A letter, and then letters, digits, `_` or `-`. */
  ghost predicate IsName(name: string) {
    && name != "" && ('a' <= name[0] <= 'z' || 'A' <= name[0] <= 'Z')
    && forall i :: 0 < i < |name| ==> ContinuesName(name[i..])
  }

  /** The text starts with a character that would continue a name. */
  predicate ContinuesName(s: string) {
    s != "" &&
    ('a' <= s[0] <= 'z' || 'A' <= s[0] <= 'Z' || '0' <= s[0] <= '9' || s[0] == '_' || s[0] == '-')
  }

  /** Text without `$`, `{:` and `:}`. */
  ghost predicate IsPiece(s: string) {
    s != "" && forall i :: 0 <= i < |s| ==>
      s[i] != '$' && (i + 1 < |s| ==> s[i..i + 2] != "{:" && s[i..i + 2] != ":}")
  }

  /** What may stand behind a piece: no other piece, and no `:}` behind a `{`, which would read as `{:`. */
  ghost predicate MayFollowPiece(s: string, rest: seq<Token>)
    requires s != ""
  {
    rest == [] || rest[0] == Text("$") || rest[0].Ident? || rest[0] == Open || (rest[0] == Close && s[|s| - 1] != '{')
  }

  ghost predicate MayFollowName(rest: seq<Token>) {
    rest == [] || !rest[0].Text? || !ContinuesName(rest[0].text)
  }

  ghost predicate Printable(ts: seq<Token>) {
    ts == [] ||
    (&& Printable(ts[1..])
     && match ts[0]
        case Text(s) => s == "$" || (IsPiece(s) && MayFollowPiece(s, ts[1..]))
        case Ident(name) => IsName(name) && MayFollowName(ts[1..])
        case Open => true
        case Close => true
        case _ => false)
  }

  /** A delimiter swallows a line feed behind it, so a line feed that is meant is written twice. */
  function BehindDelimiter(rest: string): string {
    if rest != "" && rest[0] == '\n' then "\n" + rest else rest
  }

  function Printed(ts: seq<Token>): string {
    if ts == [] then ""
    else
      match ts[0]
      case Text(s) => (if s == "$" then "$$" else s) + Printed(ts[1..])
      case Ident(name) => "$" + name + Printed(ts[1..])
      case Open => "{:" + BehindDelimiter(Printed(ts[1..]))
      case Close => ":}" + BehindDelimiter(Printed(ts[1..]))
      case _ => ""
  }

  // ---------------------------------------------------------------- one token

  lemma {:induction false} NameEndIs(s: string, i: nat, e: nat)
    requires i <= e <= |s| && (forall k :: i <= k < e ==> ContinuesName(s[k..])) && !ContinuesName(s[e..])
    ensures NameEnd(s, i) == e
    decreases e - i
  {
    if i < e {
      assert s[i..][0] == s[i];
      NameEndIs(s, i + 1, e);
    } else if e < |s| {
      assert s[e..][0] == s[e];
    }
  }

  /** An identifier reaches as far as its characters do. */
  lemma NameLexed(name: string, rest: string)
    requires IsName(name) && !ContinuesName(rest)
    ensures Lexed("$" + name + rest) == [Ident(name)] + Lexed(rest)
  {
    hide Lexed, NameEnd;
    var s := "$" + name + rest;
    var e := 1 + |name|;
    assert s[e..] == rest && s[1..e] == name;
    forall k | 1 <= k < e ensures ContinuesName(s[k..]) {
      assert s[k] == name[k - 1] && s[k..][0] == s[k];
      if k > 1 { assert name[k - 1..][0] == name[k - 1]; }
    }
    NameEndIs(s, 1, e);
    assert s[1] == name[0];
    assert Next(s) == (Ident(name), rest);
    LexedNext(s);
  }

  lemma LexedNext(s: string)
    requires s != "" && Next(s).0 != Unknown
    ensures Lexed(s) == [Next(s).0] + Lexed(AfterToken(Next(s).0, Next(s).1))
  {}

  lemma DollarLexed(rest: string)
    ensures Lexed("$$" + rest) == [Text("$")] + Lexed(rest)
  {
    hide Lexed;
    var s := "$$" + rest;
    assert s[2..] == rest;
    assert Next(s) == (Text("$"), rest);
    LexedNext(s);
  }

  /** A delimiter, and the line feed behind it unless that ends the text. */
  lemma DelimiterLexed(rest: string)
    ensures var after := if |rest| > 1 && rest[0] == '\n' then rest[1..] else rest;
      Lexed("{:" + rest) == [Open] + Lexed(after) && Lexed(":}" + rest) == [Close] + Lexed(after)
  {
    hide Lexed;
    assert ("{:" + rest)[2..] == rest && (":}" + rest)[2..] == rest;
    assert Next("{:" + rest) == (Open, rest) && Next(":}" + rest) == (Close, rest);
    LexedNext("{:" + rest);
    LexedNext(":}" + rest);
  }

  /** A piece reaches up to the next `$` or delimiter. */
  lemma PieceLexed(piece: string, rest: string)
    requires IsPiece(piece)
    requires rest == "" || rest[0] == '$' || "{:" <= rest || (":}" <= rest && piece[|piece| - 1] != '{')
    ensures Lexed(piece + rest) == [Text(piece)] + Lexed(rest)
  {
    hide Lexed, FirstSpecial;
    var s := piece + rest;
    var c := |piece|;
    forall j | 0 <= j < c ensures !SpecialAt(s, j) {
      assert s[j] == piece[j];
      if j + 1 < c {
        assert s[j + 1] == piece[j + 1] && piece[j..j + 2] == [piece[j], piece[j + 1]];
      }
    }
    if rest != "" { assert s[c] == rest[0] && (1 < |rest| ==> s[c + 1] == rest[1]); }
    FirstSpecialIs(s, c);
    assert s[..c] == piece && s[c..] == rest;
    assert !SpecialAt(s, 0) && s[0] != '$' && !DelimiterAt(s, 0);
    if |s| == 1 { assert rest == "" && s == piece; }
    assert Next(s) == (Text(piece), rest);
    LexedNext(s);
  }

  /** An unpaired `$` that starts no name stops the lexer. */
  lemma LoneDollar(rest: string)
    requires rest != "" && rest[0] != '$' && !('a' <= rest[0] <= 'z' || 'A' <= rest[0] <= 'Z')
    ensures Lexed("$" + rest) == [Unknown]
    ensures Lexed("$") == [Text("$")]
  {
    var s := "$" + rest;
    assert s[1] == rest[0];
    assert Next(s).0 == Unknown;
    assert Next("$") == (Text("$"), "");
    assert Lexed("") == [];
  }

  // ---------------------------------------------------------------- the round trip

  /** How the printed form of a list starts. */
  lemma PrintedHead(ts: seq<Token>)
    requires Printable(ts)
    ensures ts == [] <==> Printed(ts) == ""
    ensures ts != [] && ts[0] == Text("$") ==> Printed(ts)[0] == '$'
    ensures ts != [] && ts[0].Ident? ==> Printed(ts)[0] == '$'
    ensures ts != [] && ts[0] == Open ==> "{:" <= Printed(ts)
    ensures ts != [] && ts[0] == Close ==> ":}" <= Printed(ts)
    ensures MayFollowName(ts) ==> !ContinuesName(Printed(ts))
  {}

  /** Printing and lexing again changes nothing. */
  lemma {:induction false} RoundTrip(ts: seq<Token>)
    requires Printable(ts)
    ensures Lexed(Printed(ts)) == ts
    decreases |ts|
  {
    hide Lexed, IsName, IsPiece, ContinuesName;
    if ts == [] {
      NothingLexed();
    } else {
      RoundTrip(ts[1..]);
      PrintedHead(ts[1..]);
      var rest := Printed(ts[1..]);
      if ts[0].Text? {
        if ts[0].text == "$" { DollarLexed(rest); } else { PieceLexed(ts[0].text, rest); }
      } else if ts[0].Ident? {
        NameLexed(ts[0].name, rest);
      } else {
        DelimiterLexed(BehindDelimiter(rest));
        if rest != "" && rest[0] == '\n' { assert ("\n" + rest)[1..] == rest; }
      }
      assert [ts[0]] + ts[1..] == ts;
    }
  }

  lemma NothingLexed()
    ensures Lexed("") == []
  {}
}
