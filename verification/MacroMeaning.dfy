/**
 What a well-nested macro text means, when the parser accepts it, and that it then writes exactly that.
 A text is a tree of plain pieces, symbols, blocks and conditional chains; its meaning follows, in each
 chain, the first branch whose condition holds, or else the `$else` branch, and nothing of the others.
 */
module MacroMeaning {
  import opened Wrappers
  import opened MacroSyntax
  import opened MacroParser

  // ---------------------------------------------------------------- nothing is written in a muted block

  predicate Suffix(rest: seq<Token>, ts: seq<Token>) {
    |rest| <= |ts| && rest == ts[|ts| - |rest|..]
  }

  lemma SuffixChain(a: seq<Token>, b: seq<Token>, c: seq<Token>)
    requires Suffix(a, b) && Suffix(b, c)
    ensures Suffix(a, c)
  {}

  lemma TailSuffix(ts: seq<Token>)
    requires ts != []
    ensures Suffix(ts[1..], ts)
  {}

  /** Whatever the input: parsing without writing changes no output and pushes nothing back. */
  lemma {:induction false} MutedData(tb: Table, ts: seq<Token>, out: string)
    requires tb.Valid()
    ensures var r := ParseData(tb, ts, false, out); r.Parsed? ==> r.out == out && Suffix(r.rest, ts)
    decreases Weight(tb, ts), 3
  {
    hide Suffix, ParseBlock, ParseIf;
    if ts == [] || ts[0] == Close {
      SuffixSelf(ts);
    } else {
      SuffixIsLighter(tb, ts, 1);
      TailSuffix(ts);
      if ts[0] == Open {
        var b := ParseBlock(tb, ts, false, out);
        if b.Parsed? {
          MutedBlock(tb, ts, out);
          MutedAfter(tb, ts, b.rest, out);
        }
      } else if ts[0] == Ident("if") {
        var b := ParseIf(tb, ts, false, out);
        if b.Parsed? {
          MutedIf(tb, ts, out);
          MutedAfter(tb, ts, b.rest, out);
        }
      } else {
        MutedAfter(tb, ts, ts[1..], out);
      }
    }
  }

  lemma SuffixSelf(ts: seq<Token>)
    ensures Suffix(ts, ts)
  {}

  lemma {:induction false} MutedAfter(tb: Table, ts: seq<Token>, rest: seq<Token>, out: string)
    requires tb.Valid() && Weight(tb, rest) < Weight(tb, ts) && Suffix(rest, ts)
    ensures var r := ParseData(tb, rest, false, out); r.Parsed? ==> r.out == out && Suffix(r.rest, ts)
    decreases Weight(tb, ts), 0
  {
    hide ParseData, Suffix;
    MutedData(tb, rest, out);
    var r := ParseData(tb, rest, false, out);
    if r.Parsed? { SuffixChain(r.rest, rest, ts); }
  }

  lemma {:induction false} MutedBlock(tb: Table, ts: seq<Token>, out: string)
    requires tb.Valid()
    ensures var r := ParseBlock(tb, ts, false, out); r.Parsed? ==> r.out == out && Suffix(r.rest, ts)
    decreases Weight(tb, ts), 0
  {
    hide ParseData, Suffix;
    if ts != [] && ts[0] == Open {
      SuffixIsLighter(tb, ts, 1);
      MutedData(tb, ts[1..], out);
      var r := ParseData(tb, ts[1..], false, out);
      if r.Parsed? && r.rest != [] {
        TailSuffix(ts);
        TailSuffix(r.rest);
        SuffixChain(r.rest, ts[1..], ts);
        SuffixChain(r.rest[1..], r.rest, ts);
      }
    }
  }

  lemma {:induction false} MutedConditional(tb: Table, ts: seq<Token>, out: string)
    requires tb.Valid() && ts != []
    ensures var r := ParseConditional(tb, ts, false, out); r.Branch? ==> r.out == out && Suffix(r.rest, ts)
    decreases Weight(tb, ts), 1
  {
    hide ParseBlock, ParseOr;
    if |ts| >= 2 && ts[1] == ParOpen {
      var c := ParseOr(tb, ts[2..], false);
      if c.Cond? && c.rest != [] && c.rest[0] == ParClose {
        var k := |ts| - |c.rest| + 1;
        assert c.rest[1..] == ts[k..];
        SuffixIsLighter(tb, ts, k);
        MutedBlock(tb, c.rest[1..], out);
        var b := ParseBlock(tb, c.rest[1..], false, out);
        if b.Parsed? { SuffixChain(b.rest, c.rest[1..], ts); }
      }
    }
  }

  lemma {:induction false} MutedIf(tb: Table, ts: seq<Token>, out: string)
    requires tb.Valid() && ts != []
    ensures var r := ParseIf(tb, ts, false, out); r.Parsed? ==> r.out == out && Suffix(r.rest, ts)
    decreases Weight(tb, ts), 2
  {
    hide ParseConditional, ParseElse, Suffix;
    MutedConditional(tb, ts, out);
    var c := ParseConditional(tb, ts, false, out);
    if c.Branch? {
      MutedElse(tb, c.rest, out);
      var r := ParseElse(tb, c.rest, false, out);
      if r.Parsed? { SuffixChain(r.rest, c.rest, ts); }
    }
  }

  lemma {:induction false} MutedElse(tb: Table, ts: seq<Token>, out: string)
    requires tb.Valid()
    ensures var r := ParseElse(tb, ts, false, out); r.Parsed? ==> r.out == out && Suffix(r.rest, ts)
    decreases Weight(tb, ts), 2
  {
    hide ParseConditional, ParseBlock, Suffix;
    if StartsWith(ts, "elif") {
      MutedConditional(tb, ts, out);
      var c := ParseConditional(tb, ts, false, out);
      if c.Branch? {
        MutedElse(tb, c.rest, out);
        var r := ParseElse(tb, c.rest, false, out);
        if r.Parsed? { SuffixChain(r.rest, c.rest, ts); }
      }
    } else if StartsWith(ts, "else") {
      SuffixIsLighter(tb, ts, 1);
      MutedBlock(tb, ts[1..], out);
      TailSuffix(ts);
      var r := ParseBlock(tb, ts[1..], false, out);
      if r.Parsed? { SuffixChain(r.rest, ts[1..], ts); }
    } else {
      SuffixSelf(ts);
    }
  }

  // ---------------------------------------------------------------- well-nested texts

  /** A side of a comparison; the grammar also allows an expression in parentheses, whatever its tokens. */
  datatype Operand = Name(name: string) | Constant(value: string) | Nested(inner: seq<Token>)

  /** A comparison, or an operand that stands alone, as the grammar allows. */
  datatype Test = Comparison(left: Operand, op: Operator, right: Operand) | Bare(operand: Operand)

  /** A disjunction of conjunctions. */
  type Condition = seq<seq<Test>>

  datatype Node =
    | Plain(text: string)
    | Use(name: string)
    | Block(body: seq<Node>)
    | Chain(guards: seq<Guarded>, otherwise: Otherwise)

  datatype Otherwise = NoElse | Else(body: seq<Node>)

  datatype Guarded = Guarded(condition: Condition, body: seq<Node>)

  function OperandTokens(o: Operand): seq<Token> {
    match o
    case Name(name) => [Ident(name)]
    case Constant(value) => [Literal(value)]
    case Nested(inner) => [ParOpen] + inner + [ParClose]
  }

  function TestTokens(t: Test): seq<Token> {
    match t
    case Comparison(left, op, right) => OperandTokens(left) + [Compare(op)] + OperandTokens(right)
    case Bare(operand) => OperandTokens(operand)
  }

  function AndTokens(tests: seq<Test>): seq<Token> {
    if tests == [] then []
    else if |tests| == 1 then TestTokens(tests[0])
    else TestTokens(tests[0]) + [AndToken] + AndTokens(tests[1..])
  }

  function OrTokens(condition: Condition): seq<Token> {
    if condition == [] then []
    else if |condition| == 1 then AndTokens(condition[0])
    else AndTokens(condition[0]) + [OrToken] + OrTokens(condition[1..])
  }

  function GuardTokens(condition: Condition): seq<Token> {
    [ParOpen] + OrTokens(condition) + [ParClose]
  }

  function Keyword(k: nat): string {
    if k == 0 then "if" else "elif"
  }

  function BlockTokens(body: seq<Node>): seq<Token>
    decreases body, 1
  {
    [Open] + Tokens(body) + [Close]
  }

  /** The branches of a chain from number `k` on. */
  function BranchTokens(n: Node, k: nat): seq<Token>
    requires n.Chain? && k <= |n.guards|
    decreases n, |n.guards| - k + 1
  {
    if k < |n.guards| then
      [Ident(Keyword(k))] + GuardTokens(n.guards[k].condition)
      + BlockTokens(n.guards[k].body) + BranchTokens(n, k + 1)
    else ElseTokens(n)
  }

  function ElseTokens(n: Node): seq<Token>
    requires n.Chain?
    decreases n, 0
  {
    match n.otherwise case NoElse => [] case Else(body) => [Ident("else")] + BlockTokens(body)
  }

  function NodeTokens(n: Node): seq<Token>
    decreases n, if n.Chain? then |n.guards| + 2 else 0
  {
    match n
    case Plain(text) => [Text(text)]
    case Use(name) => [Ident(name)]
    case Block(body) => BlockTokens(body)
    case Chain(_, _) => BranchTokens(n, 0)
  }

  /** The tokens of a text. */
  function Tokens(ns: seq<Node>): seq<Token>
    decreases ns, 0
  {
    if ns == [] then [] else NodeTokens(ns[0]) + Tokens(ns[1..])
  }

  // ---------------------------------------------------------------- conditions

  /** Constants and symbols of the table; nothing in parentheses. */
  ghost predicate KnownOperand(tb: Table, o: Operand) { !o.Nested? && (o.Name? ==> o.name in tb.symbols) }

  /** A comparison of two known operands. */
  ghost predicate KnownTest(tb: Table, t: Test) { t.Comparison? && KnownOperand(tb, t.left) && KnownOperand(tb, t.right) }

  ghost predicate KnownTests(tb: Table, tests: seq<Test>) {
    forall i :: 0 <= i < |tests| ==> KnownTest(tb, tests[i])
  }

  ghost predicate KnownCondition(tb: Table, condition: Condition) {
    forall i :: 0 <= i < |condition| ==> KnownTests(tb, condition[i])
  }

  ghost predicate NotEmpty(condition: Condition) {
    condition != [] && forall i :: 0 <= i < |condition| ==> condition[i] != []
  }

  ghost function OperandValue(tb: Table, o: Operand): string
    requires KnownOperand(tb, o)
  {
    match o
    case Constant(value) => value
    case Name(name) => match tb.symbols[name].text case None => "Undefined" case Some(text) => text
  }

  ghost predicate TestHolds(tb: Table, t: Test) {
    KnownTest(tb, t) && Holds(t.op, OperandValue(tb, t.left), OperandValue(tb, t.right))
  }

  ghost predicate AllHold(tb: Table, tests: seq<Test>) {
    forall i :: 0 <= i < |tests| ==> TestHolds(tb, tests[i])
  }

  /** Some conjunction of the condition holds. */
  ghost predicate ConditionHolds(tb: Table, condition: Condition) {
    exists i :: 0 <= i < |condition| && AllHold(tb, condition[i])
  }

  lemma TermRead(tb: Table, o: Operand, rest: seq<Token>)
    requires KnownOperand(tb, o)
    ensures ParseTerm(tb, OperandTokens(o) + rest) == TextTerm(OperandValue(tb, o), rest)
  {
    assert (OperandTokens(o) + rest)[1..] == rest;
  }

  lemma TermFails(tb: Table, o: Operand, rest: seq<Token>)
    requires !KnownOperand(tb, o)
    ensures !ParseTerm(tb, OperandTokens(o) + rest).TextTerm?
  {}

  /** A test that is followed by something else than a comparison sign. */
  lemma TestRead(tb: Table, t: Test, rest: seq<Token>)
    requires rest != [] && !rest[0].Compare?
    ensures ParseComparison(tb, TestTokens(t) + rest) == if KnownTest(tb, t) then Cond(TestHolds(tb, t), rest) else NoCond
  {
    hide ParseTerm, Holds, OperandTokens, KnownOperand;
    match t {
      case Comparison(left, op, right) =>
        var after := OperandTokens(right) + rest;
        assert TestTokens(t) + rest == OperandTokens(left) + ([Compare(op)] + after);
        assert ([Compare(op)] + after)[1..] == after;
        if KnownOperand(tb, left) { TermRead(tb, left, [Compare(op)] + after); } else { TermFails(tb, left, [Compare(op)] + after); }
        if KnownOperand(tb, right) { TermRead(tb, right, rest); } else { TermFails(tb, right, rest); }
      case Bare(operand) =>
        if KnownOperand(tb, operand) { TermRead(tb, operand, rest); } else { TermFails(tb, operand, rest); }
    }
  }

  lemma AndStep(tb: Table, t: Test, after: seq<Token>, sofar: bool)
    requires after != [] && !after[0].Compare?
    ensures !KnownTest(tb, t) ==> ParseAnd(tb, TestTokens(t) + after, sofar) == NoCond
    ensures KnownTest(tb, t) && after[0] == AndToken ==>
              ParseAnd(tb, TestTokens(t) + after, sofar) == ParseAnd(tb, after[1..], TestHolds(tb, t) && sofar)
    ensures KnownTest(tb, t) && after[0] != AndToken ==>
              ParseAnd(tb, TestTokens(t) + after, sofar) == Cond(TestHolds(tb, t) && sofar, after)
  {
    hide ParseComparison, ParseTerm, TestTokens, TestHolds, KnownTest;
    TestRead(tb, t, after);
  }

  lemma {:induction false} AndRead(tb: Table, tests: seq<Test>, rest: seq<Token>, sofar: bool)
    requires tests != [] && rest != [] && rest[0] != AndToken && !rest[0].Compare?
    ensures ParseAnd(tb, AndTokens(tests) + rest, sofar) ==
            if KnownTests(tb, tests) then Cond(AllHold(tb, tests) && sofar, rest) else NoCond
    decreases |tests|
  {
    hide ParseAnd, TestTokens, TestHolds, KnownTest;
    if |tests| == 1 {
      AndStep(tb, tests[0], rest, sofar);
    } else {
      var after := AndTokens(tests[1..]) + rest;
      assert AndTokens(tests) + rest == TestTokens(tests[0]) + ([AndToken] + after);
      AndStep(tb, tests[0], [AndToken] + after, sofar);
      assert ([AndToken] + after)[1..] == after;
      TestsTail(tb, tests);
      AndRead(tb, tests[1..], rest, TestHolds(tb, tests[0]) && sofar);
    }
  }

  lemma TestsTail(tb: Table, tests: seq<Test>)
    requires tests != []
    ensures KnownTests(tb, tests) <==> KnownTest(tb, tests[0]) && KnownTests(tb, tests[1..])
    ensures AllHold(tb, tests) <==> TestHolds(tb, tests[0]) && AllHold(tb, tests[1..])
  {
    hide KnownTest, TestHolds;
    assert forall i :: 0 < i < |tests| ==> tests[i] == tests[1..][i - 1];
  }

  lemma OrStep(tb: Table, tests: seq<Test>, after: seq<Token>, sofar: bool)
    requires tests != [] && after != [] && after[0] in [OrToken, ParClose]
    ensures !KnownTests(tb, tests) ==> ParseOr(tb, AndTokens(tests) + after, sofar) == NoCond
    ensures KnownTests(tb, tests) && after[0] == OrToken ==>
              ParseOr(tb, AndTokens(tests) + after, sofar) == ParseOr(tb, after[1..], AllHold(tb, tests) || sofar)
    ensures KnownTests(tb, tests) && after[0] == ParClose ==>
              ParseOr(tb, AndTokens(tests) + after, sofar) == Cond(AllHold(tb, tests) || sofar, after)
  {
    hide ParseAnd, AndTokens, AllHold, KnownTests;
    AndRead(tb, tests, after, true);
  }

  lemma {:induction false} OrRead(tb: Table, condition: Condition, rest: seq<Token>, sofar: bool)
    requires NotEmpty(condition) && rest != [] && rest[0] == ParClose
    ensures ParseOr(tb, OrTokens(condition) + rest, sofar) ==
            if KnownCondition(tb, condition) then Cond(ConditionHolds(tb, condition) || sofar, rest) else NoCond
    decreases |condition|
  {
    hide ParseOr, AndTokens, AllHold, KnownTests;
    if |condition| == 1 {
      OrStep(tb, condition[0], rest, sofar);
    } else {
      var after := OrTokens(condition[1..]) + rest;
      assert OrTokens(condition) + rest == AndTokens(condition[0]) + ([OrToken] + after);
      OrStep(tb, condition[0], [OrToken] + after, sofar);
      assert ([OrToken] + after)[1..] == after;
      ConditionTail(tb, condition);
      OrRead(tb, condition[1..], rest, AllHold(tb, condition[0]) || sofar);
    }
  }

  lemma ConditionTail(tb: Table, condition: Condition)
    requires |condition| > 1
    ensures NotEmpty(condition) ==> NotEmpty(condition[1..])
    ensures KnownCondition(tb, condition) <==> KnownTests(tb, condition[0]) && KnownCondition(tb, condition[1..])
    ensures ConditionHolds(tb, condition) <==> AllHold(tb, condition[0]) || ConditionHolds(tb, condition[1..])
  {
    hide KnownTests, AllHold;
    var tail := condition[1..];
    assert forall i :: 0 < i < |condition| ==> condition[i] == tail[i - 1];
    assert forall i :: 0 <= i < |tail| ==> tail[i] == condition[i + 1];
  }

  /**
   A condition is read to its truth value exactly when it consists of comparisons of constants and symbols
   of the table.  The grammar also allows operands that stand alone and expressions in parentheses inside,
   but the code takes neither: it always looks for a comparison sign, and the truth value of an inner
   expression is not something its number test accepts.
   */
  lemma ConditionTheorem(tb: Table, condition: Condition, rest: seq<Token>)
    requires NotEmpty(condition) && rest != [] && rest[0] == ParClose
    ensures var r := ParseOr(tb, OrTokens(condition) + rest, false);
      && (r != NoCond <==> forall i, k :: 0 <= i < |condition| && 0 <= k < |condition[i]| ==> KnownTest(tb, condition[i][k]))
      && (r != NoCond ==> r == Cond(ConditionHolds(tb, condition), rest))
  {
    hide ParseOr, OrTokens, ConditionHolds, KnownTest;
    OrRead(tb, condition, rest, false);
    if KnownCondition(tb, condition) {
      forall i, k | 0 <= i < |condition| && 0 <= k < |condition[i]| ensures KnownTest(tb, condition[i][k]) {
        assert KnownTests(tb, condition[i]);
      }
    }
  }

  // ---------------------------------------------------------------- texts that are accepted, and their meaning

  /** The values of the symbols, as text trees. */
  type Values = map<string, seq<Node>>

  const Keywords := {"if", "elif", "else"}

  /** Symbols are no keywords and of a rank below `bound`; chains have branches and conditions. */
  ghost predicate WellNested(tb: Table, ns: seq<Node>, bound: nat)
    requires tb.Valid()
  {
    forall i :: 0 <= i < |ns| ==> WellFormed(tb, ns[i], bound)
  }

  ghost predicate WellFormed(tb: Table, n: Node, bound: nat)
    requires tb.Valid()
  {
    match n
    case Plain(_) => true
    case Use(name) => name !in Keywords && (name in tb.symbols ==> tb.rank[name] < bound)
    case Block(body) => WellNested(tb, body, bound)
    case Chain(guards, otherwise) =>
      && guards != []
      && (forall i :: 0 <= i < |guards| ==> NotEmpty(guards[i].condition) && WellNested(tb, guards[i].body, bound))
      && (otherwise.Else? ==> WellNested(tb, otherwise.body, bound))
  }

  /** Every defined symbol has for its value a well-nested text over lower symbols. */
  ghost predicate Describes(tb: Table, values: Values)
    requires tb.Valid()
  {
    forall n :: n in tb.symbols && tb.symbols[n].text.Some? ==>
      n in values && tb.symbols[n].tokens == Tokens(values[n]) && WellNested(tb, values[n], tb.rank[n])
  }

  /** The first branch from number `k` on whose condition holds; past the end if none does. */
  ghost function Chosen(tb: Table, guards: seq<Guarded>, k: nat): (c: nat)
    requires k <= |guards|
    ensures k <= c <= |guards|
    ensures forall i :: k <= i < c ==> !ConditionHolds(tb, guards[i].condition)
    ensures c < |guards| ==> ConditionHolds(tb, guards[c].condition)
    decreases |guards| - k
  {
    if k == |guards| || ConditionHolds(tb, guards[k].condition) then k else Chosen(tb, guards, k + 1)
  }

  /**
   What the parser accepts of a text that is written or, with `show` false, only passed over: every symbol
   is known, and defined if written, and every condition consists of known comparisons.
   */
  ghost predicate Accepted(tb: Table, values: Values, ns: seq<Node>, bound: nat, show: bool)
    requires tb.Valid() && Describes(tb, values) && WellNested(tb, ns, bound)
    decreases bound, ns, 0
  {
    ns == [] || (NodeAccepted(tb, values, ns[0], bound, show) && Accepted(tb, values, ns[1..], bound, show))
  }

  ghost predicate NodeAccepted(tb: Table, values: Values, n: Node, bound: nat, show: bool)
    requires tb.Valid() && Describes(tb, values) && WellFormed(tb, n, bound)
    decreases bound, n, 1
  {
    match n
    case Plain(_) => true
    case Use(name) =>
      && name in tb.symbols
      && (show ==> tb.symbols[name].text.Some? && Accepted(tb, values, values[name], tb.rank[name], true))
    case Block(body) => Accepted(tb, values, body, bound, show)
    case Chain(_, _) => BranchesAccepted(tb, values, n, 0, bound, show)
  }

  /** The branches of a chain from number `k` on, of which the chosen one is written, if any is. */
  ghost predicate BranchesAccepted(tb: Table, values: Values, n: Node, k: nat, bound: nat, show: bool)
    requires tb.Valid() && Describes(tb, values) && WellFormed(tb, n, bound) && n.Chain? && k <= |n.guards|
    decreases bound, n, 0
  {
    var chosen := Chosen(tb, n.guards, k);
    && (forall i :: k <= i < |n.guards| ==>
          && KnownCondition(tb, n.guards[i].condition)
          && Accepted(tb, values, n.guards[i].body, bound, show && i == chosen))
    && (n.otherwise.Else? ==> Accepted(tb, values, n.otherwise.body, bound, show && chosen == |n.guards|))
  }

  /** What an accepted text stands for. */
  ghost function Meaning(tb: Table, values: Values, ns: seq<Node>, bound: nat): string
    requires tb.Valid() && Describes(tb, values) && WellNested(tb, ns, bound) && Accepted(tb, values, ns, bound, true)
    decreases bound, ns, 0
  {
    if ns == [] then "" else NodeMeaning(tb, values, ns[0], bound) + Meaning(tb, values, ns[1..], bound)
  }

  ghost function NodeMeaning(tb: Table, values: Values, n: Node, bound: nat): string
    requires tb.Valid() && Describes(tb, values) && WellFormed(tb, n, bound) && NodeAccepted(tb, values, n, bound, true)
    decreases bound, n, 1
  {
    match n
    case Plain(text) => text
    case Use(name) => Meaning(tb, values, values[name], tb.rank[name])
    case Block(body) => Meaning(tb, values, body, bound)
    case Chain(guards, _) => BranchMeaning(tb, values, n, 0, bound)
  }

  /** What the branch chosen from number `k` on stands for, the `$else` branch being the last. */
  ghost function BranchMeaning(tb: Table, values: Values, n: Node, k: nat, bound: nat): string
    requires tb.Valid() && Describes(tb, values) && WellFormed(tb, n, bound) && n.Chain? && k <= |n.guards|
    requires BranchesAccepted(tb, values, n, k, bound, true)
    decreases bound, n, 0
  {
    var chosen := Chosen(tb, n.guards, k);
    if chosen < |n.guards| then Meaning(tb, values, n.guards[chosen].body, bound)
    else match n.otherwise case NoElse => "" case Else(body) => Meaning(tb, values, body, bound)
  }

  // ---------------------------------------------------------------- what is read, and when

  /** The output after an accepted text. */
  ghost function Written(tb: Table, values: Values, ns: seq<Node>, bound: nat, show: bool, out: string): string
    requires tb.Valid() && Describes(tb, values) && WellNested(tb, ns, bound) && Accepted(tb, values, ns, bound, show)
  {
    if show then out + Meaning(tb, values, ns, bound) else out
  }

  ghost function NodeWritten(tb: Table, values: Values, n: Node, bound: nat, show: bool, out: string): string
    requires tb.Valid() && Describes(tb, values) && WellFormed(tb, n, bound) && NodeAccepted(tb, values, n, bound, show)
  {
    if show then out + NodeMeaning(tb, values, n, bound) else out
  }

  ghost function BranchWritten(tb: Table, values: Values, n: Node, k: nat, bound: nat, show: bool, out: string): string
    requires tb.Valid() && Describes(tb, values) && WellFormed(tb, n, bound) && n.Chain? && k <= |n.guards|
    requires BranchesAccepted(tb, values, n, k, bound, show)
  {
    if show then out + BranchMeaning(tb, values, n, k, bound) else out
  }

  /** What may follow a chain without being taken for one of its branches. */
  ghost predicate Follows(rest: seq<Token>) {
    !StartsWith(rest, "elif") && !StartsWith(rest, "else")
  }

  lemma BranchHead(n: Node, k: nat)
    requires n.Chain? && k < |n.guards|
    ensures var body := BlockTokens(n.guards[k].body) + BranchTokens(n, k + 1);
            BranchTokens(n, k) == [Ident(Keyword(k))] + (GuardTokens(n.guards[k].condition) + body)
  {
    hide BlockTokens, GuardTokens;
  }

  lemma NodeFollows(tb: Table, n: Node, bound: nat)
    requires tb.Valid() && WellFormed(tb, n, bound)
    ensures NodeTokens(n) != [] && Follows(NodeTokens(n))
  {
    match n {
      case Plain(text) => assert NodeTokens(n)[0] == Text(text);
      case Use(name) => assert NodeTokens(n)[0] == Ident(name);
      case Block(body) => assert NodeTokens(n) == BlockTokens(body);
      case Chain(_, _) => BranchHead(n, 0);
    }
  }

  lemma TextFollows(tb: Table, ns: seq<Node>, bound: nat, rest: seq<Token>)
    requires tb.Valid() && WellNested(tb, ns, bound) && Follows(rest)
    ensures Follows(Tokens(ns) + rest)
  {
    if ns != [] {
      assert WellFormed(tb, ns[0], bound);
      NodeFollows(tb, ns[0], bound);
    } else {
      assert Tokens(ns) + rest == rest;
    }
  }

  /** An accepted text is written, if it is to be written, and parsing goes on with what follows; any other fails. */
  lemma {:induction false} TextRead(
    tb: Table, values: Values, ns: seq<Node>, bound: nat, rest: seq<Token>, show: bool, out: string)
    requires tb.Valid() && Describes(tb, values) && WellNested(tb, ns, bound) && Follows(rest)
    ensures ParseData(tb, Tokens(ns) + rest, show, out) ==
            if Accepted(tb, values, ns, bound, show)
            then ParseData(tb, rest, show, Written(tb, values, ns, bound, show, out)) else Failed
    decreases bound, ns, 0
  {
    hide ParseData, NodeTokens, NodeMeaning, NodeAccepted, WellFormed, Follows, Describes;
    if ns == [] {
      assert Tokens(ns) + rest == rest;
      assert out + "" == out;
    } else {
      assert Tokens(ns) + rest == NodeTokens(ns[0]) + (Tokens(ns[1..]) + rest);
      TextFollows(tb, ns[1..], bound, rest);
      NodeRead(tb, values, ns[0], bound, Tokens(ns[1..]) + rest, show, out);
      if NodeAccepted(tb, values, ns[0], bound, show) {
        TextRead(tb, values, ns[1..], bound, rest, show, NodeWritten(tb, values, ns[0], bound, show, out));
        if show && Accepted(tb, values, ns, bound, show) {
          var (first, more) := (NodeMeaning(tb, values, ns[0], bound), Meaning(tb, values, ns[1..], bound));
          assert (out + first) + more == out + (first + more);
        }
      }
    }
  }

  lemma {:induction false} NodeRead(
    tb: Table, values: Values, n: Node, bound: nat, rest: seq<Token>, show: bool, out: string)
    requires tb.Valid() && Describes(tb, values) && WellFormed(tb, n, bound) && Follows(rest)
    ensures ParseData(tb, NodeTokens(n) + rest, show, out) ==
            if NodeAccepted(tb, values, n, bound, show)
            then ParseData(tb, rest, show, NodeWritten(tb, values, n, bound, show, out)) else Failed
    decreases bound, n, if n.Chain? then |n.guards| + 2 else 0
  {
    hide ParseBlock, ParseIf, Tokens, Follows, Meaning, BranchMeaning, Accepted, BranchesAccepted;
    var ts := NodeTokens(n) + rest;
    match n {
      case Plain(text) =>
        assert ts[1..] == rest;
      case Use(name) =>
        assert ts[1..] == rest;
        if show && name in tb.symbols && tb.symbols[name].text.Some? {
          TextRead(tb, values, values[name], tb.rank[name], rest, show, out);
        }
      case Block(body) =>
        BlockRead(tb, values, body, bound, rest, show, out);
      case Chain(guards, _) =>
        BranchHead(n, 0);
        ChainRead(tb, values, n, bound, rest, show, out);
    }
  }

  lemma {:induction false} BlockRead(
    tb: Table, values: Values, body: seq<Node>, bound: nat, rest: seq<Token>, show: bool, out: string)
    requires tb.Valid() && Describes(tb, values) && WellNested(tb, body, bound)
    ensures ParseBlock(tb, BlockTokens(body) + rest, show, out) ==
            if Accepted(tb, values, body, bound, show)
            then Parsed(rest, Written(tb, values, body, bound, show, out)) else Failed
    decreases bound, body, 1
  {
    hide Tokens, Meaning, WellNested, Describes, Accepted;
    var ts := BlockTokens(body) + rest;
    assert ts[1..] == Tokens(body) + ([Close] + rest);
    TextRead(tb, values, body, bound, [Close] + rest, show, out);
    assert ([Close] + rest)[1..] == rest;
  }

  /** One branch: its block is written if its condition holds and nothing was written before. */
  lemma {:induction false} BranchRead(
    tb: Table, values: Values, n: Node, k: nat, bound: nat, rest: seq<Token>, show: bool, out: string)
    requires tb.Valid() && Describes(tb, values) && WellFormed(tb, n, bound) && n.Chain? && k < |n.guards|
    ensures var (g, holds) := (n.guards[k], ConditionHolds(tb, n.guards[k].condition));
      ParseConditional(tb, BranchTokens(n, k) + rest, show, out) ==
        if KnownCondition(tb, g.condition) && Accepted(tb, values, g.body, bound, show && holds)
        then Branch(holds, BranchTokens(n, k + 1) + rest, Written(tb, values, g.body, bound, show && holds, out))
        else BranchFailed
    decreases bound, n, 0
  {
    hide ParseOr, ParseBlock, OrTokens, BlockTokens, BranchTokens, ConditionHolds, Written, KnownCondition, WellNested,
      Describes, Accepted, NotEmpty;
    BranchHead(n, k);
    var g := n.guards[k];
    var ts := BranchTokens(n, k) + rest;
    var after := BranchTokens(n, k + 1) + rest;
    var body := BlockTokens(g.body) + after;
    assert ts == [Ident(Keyword(k)), ParOpen] + (OrTokens(g.condition) + ([ParClose] + body));
    assert ts[2..] == OrTokens(g.condition) + ([ParClose] + body);
    OrRead(tb, g.condition, [ParClose] + body, false);
    assert ([ParClose] + body)[1..] == body;
    BlockRead(tb, values, g.body, bound, after, show && ConditionHolds(tb, g.condition), out);
  }

  /** After branch `k`, the rest of the chain is written if branch `k` was not. */
  lemma BranchesStep(tb: Table, values: Values, n: Node, k: nat, bound: nat, show: bool, out: string)
    requires tb.Valid() && Describes(tb, values) && WellFormed(tb, n, bound) && n.Chain? && k < |n.guards|
    ensures var (g, holds) := (n.guards[k], ConditionHolds(tb, n.guards[k].condition));
      && (BranchesAccepted(tb, values, n, k, bound, show) <==>
            && KnownCondition(tb, g.condition) && Accepted(tb, values, g.body, bound, show && holds)
            && BranchesAccepted(tb, values, n, k + 1, bound, show && !holds))
      && (BranchesAccepted(tb, values, n, k, bound, show) ==>
            BranchWritten(tb, values, n, k, bound, show, out) ==
            BranchWritten(tb, values, n, k + 1, bound, show && !holds, Written(tb, values, g.body, bound, show && holds, out)))
  {
    hide ConditionHolds, KnownCondition, WellNested, Describes, Accepted, Meaning;
    var (g, holds) := (n.guards[k], ConditionHolds(tb, n.guards[k].condition));
    assert Chosen(tb, n.guards, k) == if holds then k else Chosen(tb, n.guards, k + 1);
  }

  /** The branches after the first write the chosen one, if they are to write. */
  lemma {:induction false} BranchesRead(
    tb: Table, values: Values, n: Node, k: nat, bound: nat, rest: seq<Token>, show: bool, out: string)
    requires tb.Valid() && Describes(tb, values) && WellFormed(tb, n, bound) && n.Chain? && 0 < k <= |n.guards|
    requires Follows(rest)
    ensures ParseElse(tb, BranchTokens(n, k) + rest, show, out) ==
            if BranchesAccepted(tb, values, n, k, bound, show)
            then Parsed(rest, BranchWritten(tb, values, n, k, bound, show, out)) else Failed
    decreases bound, n, |n.guards| - k + 1
  {
    hide ParseConditional, ParseBlock, GuardTokens, BlockTokens, ConditionHolds, KnownCondition, WellNested, Describes,
      Meaning, Accepted, BranchesAccepted, Written, BranchWritten, BranchMeaning;
    if k < |n.guards| {
      var g := n.guards[k];
      BranchRead(tb, values, n, k, bound, rest, show, out);
      BranchesStep(tb, values, n, k, bound, show, out);
      var holds := ConditionHolds(tb, g.condition);
      if KnownCondition(tb, g.condition) && Accepted(tb, values, g.body, bound, show && holds) {
        var out1 := Written(tb, values, g.body, bound, show && holds, out);
        BranchesRead(tb, values, n, k + 1, bound, rest, show && !holds, out1);
      }
    } else {
      LastBranch(tb, values, n, bound, rest, show, out);
    }
  }

  lemma {:induction false} LastBranch(
    tb: Table, values: Values, n: Node, bound: nat, rest: seq<Token>, show: bool, out: string)
    requires tb.Valid() && Describes(tb, values) && WellFormed(tb, n, bound) && n.Chain? && Follows(rest)
    ensures ParseElse(tb, BranchTokens(n, |n.guards|) + rest, show, out) ==
            if BranchesAccepted(tb, values, n, |n.guards|, bound, show)
            then Parsed(rest, BranchWritten(tb, values, n, |n.guards|, bound, show, out)) else Failed
    decreases bound, n, 0
  {
    hide ParseConditional, ParseBlock, BlockTokens, ConditionHolds, KnownCondition, WellNested, Describes, Meaning, Accepted;
    var ts := BranchTokens(n, |n.guards|) + rest;
    assert BranchTokens(n, |n.guards|) == ElseTokens(n);
    assert Chosen(tb, n.guards, |n.guards|) == |n.guards|;
    match n.otherwise {
      case NoElse =>
        assert ts == rest;
        assert out + "" == out;
      case Else(body) =>
        assert ts[1..] == BlockTokens(body) + rest;
        BlockRead(tb, values, body, bound, rest, show, out);
    }
  }

  lemma {:induction false} ChainRead(
    tb: Table, values: Values, n: Node, bound: nat, rest: seq<Token>, show: bool, out: string)
    requires tb.Valid() && Describes(tb, values) && WellFormed(tb, n, bound) && n.Chain? && Follows(rest)
    ensures ParseIf(tb, BranchTokens(n, 0) + rest, show, out) ==
            if BranchesAccepted(tb, values, n, 0, bound, show)
            then Parsed(rest, BranchWritten(tb, values, n, 0, bound, show, out)) else Failed
    decreases bound, n, |n.guards| + 1
  {
    hide ParseConditional, ParseElse, BranchTokens, ConditionHolds, KnownCondition, WellNested, Describes, Meaning, Accepted,
      BranchesAccepted, Written, BranchWritten, BranchMeaning;
    var g := n.guards[0];
    BranchRead(tb, values, n, 0, bound, rest, show, out);
    BranchesStep(tb, values, n, 0, bound, show, out);
    var holds := ConditionHolds(tb, g.condition);
    if KnownCondition(tb, g.condition) && Accepted(tb, values, g.body, bound, show && holds) {
      var out1 := Written(tb, values, g.body, bound, show && holds, out);
      BranchesRead(tb, values, n, 1, bound, rest, show && !holds, out1);
    }
  }

  /**
   A well-nested text is parsed to the end, identifier expansion included, exactly when it is accepted, and
   what is then written is what the text stands for.
   */
  lemma MeaningTheorem(tb: Table, values: Values, ns: seq<Node>)
    requires tb.Valid() && Describes(tb, values) && WellNested(tb, ns, tb.depth)
    ensures ParseAll(tb, Tokens(ns)) ==
            if Accepted(tb, values, ns, tb.depth, true) then Some(Meaning(tb, values, ns, tb.depth)) else None
  {
    hide Tokens, Meaning, WellNested, Describes, Accepted;
    TextRead(tb, values, ns, tb.depth, [], true, "");
    assert Tokens(ns) + [] == Tokens(ns);
    if Accepted(tb, values, ns, tb.depth, true) {
      assert "" + Meaning(tb, values, ns, tb.depth) == Meaning(tb, values, ns, tb.depth);
    }
  }

  /** A closing delimiter too many, or an opening one that is not closed, is always an error. */
  lemma MisnestedFails(tb: Table, values: Values, ns: seq<Node>, rest: seq<Token>)
    requires tb.Valid() && Describes(tb, values) && WellNested(tb, ns, tb.depth)
    ensures ParseAll(tb, Tokens(ns) + ([Close] + rest)) == None
    ensures ParseAll(tb, [Open] + Tokens(ns)) == None
  {
    hide Tokens, WellNested, Describes, Accepted, Written, Weight, ParseData;
    var ts := [Open] + Tokens(ns);
    TextRead(tb, values, ns, tb.depth, [Close] + rest, true, "");
    TextRead(tb, values, ns, tb.depth, [], true, "");
    assert Tokens(ns) + [] == Tokens(ns) == ts[1..];
    if Accepted(tb, values, ns, tb.depth, true) {
      var out := Written(tb, values, ns, tb.depth, true, "");
      StopsAt(tb, [Close] + rest, out);
      StopsAt(tb, [], out);
    }
    assert ParseBlock(tb, ts, true, "") == Failed;
    OpenBlock(tb, ts);
  }

  lemma StopsAt(tb: Table, ts: seq<Token>, out: string)
    requires tb.Valid() && (ts == [] || ts[0] == Close)
    ensures ParseData(tb, ts, true, out) == Parsed(ts, out)
  {}

  lemma OpenBlock(tb: Table, ts: seq<Token>)
    requires tb.Valid() && ts != [] && ts[0] == Open && ParseBlock(tb, ts, true, "") == Failed
    ensures ParseData(tb, ts, true, "") == Failed
  {
    hide ParseBlock;
  }
}
