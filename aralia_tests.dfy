module AraliaTests {
  import opened Names
  import opened Formulas
  import opened Graphs
  import opened Aralia

  /** Statement `s` is an accepted gate line that defines gate `g`. */
  ghost predicate GateLineFor(s: Statement, g: Gate) {
    && s.GateLine? && s.name == g.name && WellFormedName(g.name)
    && IsWrittenForm(s.formula, Formula(g.op, g.args))
    && forall i :: 0 <= i < |g.args| ==> WellFormedName(g.args[i].name)
  }

  /** An accepted gate line records its gate. */
  lemma GateLineRecords(s: Statement, g: Gate)
    requires GateLineFor(s, g)
    ensures RecordsGate(s, g)
  {
    CheckStatementCorrect(s);
    ClassifyExactly(s.formula, Formula(g.op, g.args));
  }

  /** Reading one accepted gate line appends its gate. */
  lemma GateLineStep(doc: seq<Statement>, at: nat, d: Draft, g: Gate)
    requires at < |doc| && GateLineFor(doc[at], g)
    ensures ParseBody(doc, at, d) == ParseBody(doc, at + 1, d.(gates := d.gates + [g]))
  {
    GateLineRecords(doc[at], g);
    BodyStepGate(doc, at, d, g);
  }

  /** Consecutive accepted gate lines from `at` on add their gates in order. */
  lemma GateLinesRead(doc: seq<Statement>, at: nat, d: Draft, gates: seq<Gate>)
    requires at + |gates| <= |doc|
    requires forall k :: 0 <= k < |gates| ==> GateLineFor(doc[at + k], gates[k])
    ensures ParseBody(doc, at, d) == ParseBody(doc, at + |gates|, d.(gates := d.gates + gates))
  {
    forall k | 0 <= k < |gates| ensures RecordsGate(doc[at..][k], gates[k]) {
      GateLineRecords(doc[at + k], gates[k]);
      assert doc[at..][k] == doc[at + k];
    }
    ReplayGates(doc, at, d, gates);
  }

  /** The name line of an accepted document. */
  lemma {:induction false} HeaderRead(doc: seq<Statement>)
    requires |doc| > 0 && doc[0].NameLine? && WellFormedName(doc[0].text)
    ensures ParseDocument(doc) == ParseBody(doc, 1, Draft(doc[0].text, [], [], []))
  {
    NameCheckCorrect(doc[0].text);
  }

  /** A name line followed by accepted gate lines. */
  lemma {:induction false} HeadAndGatesRead(doc: seq<Statement>, gates: seq<Gate>)
    requires |doc| > 0 && doc[0].NameLine? && WellFormedName(doc[0].text) && 1 + |gates| <= |doc|
    requires forall k :: 0 <= k < |gates| ==> GateLineFor(doc[1 + k], gates[k])
    ensures ParseDocument(doc) == ParseBody(doc, 1 + |gates|, Draft(doc[0].text, gates, [], []))
  {
    var d0 := Draft(doc[0].text, [], [], []);
    assert d0.(gates := d0.gates + gates) == Draft(doc[0].text, gates, [], []);
    assert ParseDocument(doc) == ParseBody(doc, 1, d0) by {
      HeaderRead(doc);
    }
    GateLinesRead(doc, 1, d0, gates);
  }

  lemma Accepted(d: Draft, multiTop: bool, rank: seq<nat>, tops: seq<nat>)
    requires GatesRepeatFree(d.gates, 0) && DistinctFrom(DefinedNames(d), 0) && VotesOk(d.gates, 0)
    requires RankDecreases(GateGraph(d.gates), rank)
    requires TopCandidates(GateGraph(d.gates)) == tops && tops != [] && (multiTop || |tops| == 1)
    ensures Validate(d, multiTop).Success?
    ensures Validate(d, multiTop).value == Build(d, tops)
  {
    var g := GateGraph(d.gates);
    GateGraphClosed(d.gates);
    RankedIsAcyclic(g, rank);
    UnorderedIffCycle(g);
  }

  function Ref(n: string): Arg { Arg(n, false) }
  function Neg(n: string): Arg { Arg(n, true) }


  /** A document whose first gate line has a formula the grammar does not accept. */
  lemma FirstFormulaRejected(doc: seq<Statement>, multiTop: bool)
    requires |doc| >= 2 && doc[0].NameLine? && WellFormedName(doc[0].text)
    requires doc[1].GateLine? && WellFormedName(doc[1].name) && Classify(doc[1].formula) == None
    ensures ParseInput(doc, multiTop) == Failure(ParsingError(InvalidFormula))
  {
    NameCheckCorrect(doc[0].text);
    NameCheckCorrect(doc[1].name);
    FailFast(doc, 1, Draft(doc[0].text, [], [], []), 1);
  }

  // ---------------------------------------------------------------------
  // Errors of the syntax stage

  /** test_ft_name_redefinition: a second name line is a format error. */
  lemma NameRedefinitionTest()
    ensures ParseInput([NameLine("FaultTreeName"), NameLine("AnotherFaultTree"), GateLine("g1", [Ident("e1")])], false)
      == Failure(FormatError(NameRedefinition))
  {
    var doc := [NameLine("FaultTreeName"), NameLine("AnotherFaultTree"), GateLine("g1", [Ident("e1")])];
    FaultTreeName();
    NameCheckCorrect(doc[0].text);
    SecondNameRejected(doc, 1);
  }

  /** A document whose tree name breaks the name rule. */
  lemma TreeNameRejected(doc: seq<Statement>, multiTop: bool)
    requires |doc| > 0 && doc[0].NameLine? && !IsValidName(doc[0].text)
    ensures ParseInput(doc, multiTop) == Failure(ParsingError(InvalidName))
  {
  }

  lemma SpacedName() ensures !IsValidName("Contains Whitespace Characters") {
    var s := "Contains Whitespace Characters";
    assert s[8] == ' ' && !IsWordChar(s[8]);
    NameCheckCorrect(s);
  }

  lemma DottedName() ensures !IsValidName("Peri.od") {
    var s := "Peri.od";
    assert s[4] == '.' && !IsWordChar(s[4]);
    NameCheckCorrect(s);
  }

  lemma TrailingDashName() ensures !IsValidName("EndWithDash-") {
    var s := "EndWithDash-";
    assert s[|s| - 1] == '-';
    NameCheckCorrect(s);
  }

  lemma DoubleDashName() ensures !IsValidName("Double--Dash") {
    var s := "Double--Dash";
    assert s[6] == '-' && s[7] == '-';
    NameCheckCorrect(s);
  }

  lemma DigitFirstName() ensures !IsValidName("42StartWithNumbers") {
    var s := "42StartWithNumbers";
    assert !IsLetter(s[0]) && s[0] != '_';
  }

  /** test_ncname_ft: tree names that break the name rule are parsing errors. */
  lemma TreeNameTest()
    ensures ParseInput([NameLine("Contains Whitespace Characters")], false) == Failure(ParsingError(InvalidName))
    ensures ParseInput([NameLine("Peri.od")], false) == Failure(ParsingError(InvalidName))
    ensures ParseInput([NameLine("EndWithDash-")], false) == Failure(ParsingError(InvalidName))
    ensures ParseInput([NameLine("Double--Dash")], false) == Failure(ParsingError(InvalidName))
    ensures ParseInput([NameLine("42StartWithNumbers")], false) == Failure(ParsingError(InvalidName))
  {
    SpacedName();
    DottedName();
    TrailingDashName();
    DoubleDashName();
    DigitFirstName();
    TreeNameRejected([NameLine("Contains Whitespace Characters")], false);
    TreeNameRejected([NameLine("Peri.od")], false);
    TreeNameRejected([NameLine("EndWithDash-")], false);
    TreeNameRejected([NameLine("Double--Dash")], false);
    TreeNameRejected([NameLine("42StartWithNumbers")], false);
  }

  /** test_no_ft_name: a document that starts with a gate has no name. */
  lemma NoTreeNameTest()
    ensures ParseInput([GateLine("g1", [Ident("g2"), Amp, Ident("e1")]), GateLine("g2", [Ident("h1"), Amp, Ident("e1")])], false)
      == Failure(FormatError(MissingName))
  {
  }

  /** test_illegal_format: arithmetic operators are not part of the formula grammar. */
  lemma ArithmeticTest()
    ensures ParseInput([NameLine("FT"), GateLine("g1", [Ident("g2"), Arith('+'), Ident("e1")])], false) == Failure(ParsingError(InvalidFormula))
    ensures ParseInput([NameLine("FT"), GateLine("g1", [Ident("g2"), Arith('*'), Ident("e1")])], false) == Failure(ParsingError(InvalidFormula))
    ensures ParseInput([NameLine("FT"), GateLine("g1", [Arith('-'), Ident("e1")])], false) == Failure(ParsingError(InvalidFormula))
    ensures ParseInput([NameLine("FT"), GateLine("g1", [Ident("g2"), Arith('/'), Ident("e1")])], false) == Failure(ParsingError(InvalidFormula))
  {
    ArithmeticRejected([Ident("g2"), Arith('+'), Ident("e1")], 1);
    FirstFormulaRejected([NameLine("FT"), GateLine("g1", [Ident("g2"), Arith('+'), Ident("e1")])], false);
    ArithmeticRejected([Ident("g2"), Arith('*'), Ident("e1")], 1);
    FirstFormulaRejected([NameLine("FT"), GateLine("g1", [Ident("g2"), Arith('*'), Ident("e1")])], false);
    ArithmeticRejected([Arith('-'), Ident("e1")], 0);
    FirstFormulaRejected([NameLine("FT"), GateLine("g1", [Arith('-'), Ident("e1")])], false);
    ArithmeticRejected([Ident("g2"), Arith('/'), Ident("e1")], 1);
    FirstFormulaRejected([NameLine("FT"), GateLine("g1", [Ident("g2"), Arith('/'), Ident("e1")])], false);
  }

  lemma WrongParenthesesName() ensures WellFormedName("WrongParentheses") {}

  /** `a | b)` and `(a | b` each leave a parenthesis unmatched. */
  lemma UnmatchedParentheses()
    ensures Classify([Ident("a"), Bar, Ident("b"), RParen]) == None
    ensures Classify([LParen, Ident("a"), Bar, Ident("b")]) == None
  {
    assert Count([Ident("a"), Bar, Ident("b"), RParen], LParen) == 0;
    assert Count([LParen, Ident("a"), Bar, Ident("b")], RParen) == 0;
    UnbalancedParenthesesRejected([Ident("a"), Bar, Ident("b"), RParen]);
    UnbalancedParenthesesRejected([LParen, Ident("a"), Bar, Ident("b")]);
  }

  /** `((a | b))` opens two parentheses. */
  lemma DoubledParentheses()
    ensures Classify([LParen, LParen, Ident("a"), Bar, Ident("b"), RParen, RParen]) == None
  {
    assert Count([LParen, LParen, Ident("a"), Bar, Ident("b"), RParen, RParen], LParen) == 2;
    NestedParenthesesRejected([LParen, LParen, Ident("a"), Bar, Ident("b"), RParen, RParen]);
  }

  /** test_missing_parenthesis: an unmatched closing or opening parenthesis. */
  lemma MissingParenthesisTest()
    ensures ParseInput([NameLine("WrongParentheses"), GateLine("g1", [Ident("a"), Bar, Ident("b"), RParen])], false)
      == Failure(ParsingError(InvalidFormula))
    ensures ParseInput([NameLine("WrongParentheses"), GateLine("g1", [LParen, Ident("a"), Bar, Ident("b")])], false)
      == Failure(ParsingError(InvalidFormula))
  {
    var close := [Ident("a"), Bar, Ident("b"), RParen];
    var open := [LParen, Ident("a"), Bar, Ident("b")];
    UnmatchedParentheses();
    WrongParenthesesName();
    FirstFormulaRejected([NameLine("WrongParentheses"), GateLine("g1", close)], false);
    FirstFormulaRejected([NameLine("WrongParentheses"), GateLine("g1", open)], false);
  }

  /** test_nested_parentheses: at most one pair of parentheses. */
  lemma NestedParenthesesTest()
    ensures ParseInput([NameLine("WrongParentheses"), GateLine("g1", [LParen, LParen, Ident("a"), Bar, Ident("b"), RParen, RParen])], false)
      == Failure(ParsingError(InvalidFormula))
  {
    var ts := [LParen, LParen, Ident("a"), Bar, Ident("b"), RParen, RParen];
    DoubledParentheses();
    WrongParenthesesName();
    FirstFormulaRejected([NameLine("WrongParentheses"), GateLine("g1", ts)], false);
  }

  // NestedFormulaTestCase

  lemma VoteInChainRejected(ts: seq<Token>)
    requires ts == [Ident("e1"), Bar, At, LParen, Number(2), Comma, LBracket, Ident("e2"), Comma, Ident("e3"), Comma, Ident("e4"), RBracket, RParen]
    ensures Classify(ts) == None
  {
    assert ts[2] == At;
    VoteWithConnectiveRejected(ts, 1);
  }

  /** test_or_xor: `|` and `^` in one formula. */
  lemma OrXorTest()
    ensures ParseInput([NameLine("FT"), GateLine("g1", [Ident("e1"), Bar, Ident("e2"), Caret, Ident("e3")])], false)
      == Failure(ParsingError(InvalidFormula))
  {
    var ts := [Ident("e1"), Bar, Ident("e2"), Caret, Ident("e3")];
    MixedConnectivesRejected(ts, 1, 3);
    FirstFormulaRejected([NameLine("FT"), GateLine("g1", ts)], false);
  }

  /** test_or_and: `|` and `&` in one formula. */
  lemma OrAndTest()
    ensures ParseInput([NameLine("FT"), GateLine("g1", [Ident("e1"), Bar, Ident("e2"), Amp, Ident("e3")])], false)
      == Failure(ParsingError(InvalidFormula))
  {
    var ts := [Ident("e1"), Bar, Ident("e2"), Amp, Ident("e3")];
    MixedConnectivesRejected(ts, 1, 3);
    FirstFormulaRejected([NameLine("FT"), GateLine("g1", ts)], false);
  }

  /** test_or_vote: a vote inside an `|` chain. */
  lemma OrVoteTest()
    ensures ParseInput([NameLine("FT"), GateLine("g1", [Ident("e1"), Bar, At, LParen, Number(2), Comma, LBracket, Ident("e2"), Comma, Ident("e3"), Comma, Ident("e4"), RBracket, RParen])], false)
      == Failure(ParsingError(InvalidFormula))
  {
    var ts := [Ident("e1"), Bar, At, LParen, Number(2), Comma, LBracket, Ident("e2"), Comma, Ident("e3"), Comma, Ident("e4"), RBracket, RParen];
    VoteInChainRejected(ts);
    FirstFormulaRejected([NameLine("FT"), GateLine("g1", ts)], false);
  }

  /** test_xor_xor: `^` takes exactly two operands. */
  lemma XorXorTest()
    ensures ParseInput([NameLine("FT"), GateLine("g1", [Ident("e1"), Caret, Ident("e2"), Caret, Ident("e3")])], false)
      == Failure(ParsingError(InvalidFormula))
  {
    var ts := [Ident("e1"), Caret, Ident("e2"), Caret, Ident("e3")];
    assert Count(ts, Caret) == 2;
    RepeatedXorRejected(ts);
    FirstFormulaRejected([NameLine("FT"), GateLine("g1", ts)], false);
  }

  /** test_xor_and: `^` and `&` in one formula. */
  lemma XorAndTest()
    ensures ParseInput([NameLine("FT"), GateLine("g1", [Ident("e1"), Caret, Ident("e2"), Amp, Ident("e3")])], false)
      == Failure(ParsingError(InvalidFormula))
  {
    var ts := [Ident("e1"), Caret, Ident("e2"), Amp, Ident("e3")];
    MixedConnectivesRejected(ts, 1, 3);
    FirstFormulaRejected([NameLine("FT"), GateLine("g1", ts)], false);
  }

  /** test_not_not: a complement of a complement. */
  lemma NotNotTest()
    ensures ParseInput([NameLine("FT"), GateLine("g1", [Tilde, Tilde, Ident("e1")])], false)
      == Failure(ParsingError(InvalidFormula))
  {
    var ts := [Tilde, Tilde, Ident("e1")];
    UngroupedNegationRejected(ts, 1);
    FirstFormulaRejected([NameLine("FT"), GateLine("g1", ts)], false);
  }

  /** test_not_not: a complement sign right after a name. */
  lemma NotAfterNameTest()
    ensures ParseInput([NameLine("FT"), GateLine("g1", [Tilde, Ident("e1"), Tilde, Ident("a")])], false)
      == Failure(ParsingError(InvalidFormula))
  {
    var ts := [Tilde, Ident("e1"), Tilde, Ident("a")];
    UngroupedNegationRejected(ts, 2);
    FirstFormulaRejected([NameLine("FT"), GateLine("g1", ts)], false);
  }

  // ---------------------------------------------------------------------
  // Documents of one gate

  /** Arguments that name no gate give no edges. */
  lemma {:induction false} NoChildren(gates: seq<Gate>, args: seq<Arg>, from: nat)
    requires from <= |args|
    requires forall m :: from <= m < |args| ==> GateIndex(gates, args[m].name, 0) == |gates|
    ensures Children(gates, args, from) == []
    decreases |args| - from
  {
    if from < |args| {
      NoChildren(gates, args, from + 1);
    }
  }

  /** The gate graph of a gate that names no gate is one node without edges. */
  lemma LoneGateGraph(g: Gate)
    requires forall i :: 0 <= i < |g.args| ==> !SameName(g.args[i].name, g.name)
    ensures GateGraph([g]) == [[]]
  {
    forall m | 0 <= m < |g.args| ensures GateIndex([g], g.args[m].name, 0) == 1 {
      SameNameEquivalence(g.name, g.args[m].name, g.name);
    }
    NoChildren([g], g.args, 0);
  }

  /**
   * Gate line `s` defines `g`, whose arguments are distinct, whose vote (if
   * any) is well-sized and which names no gate but other events.
   */
  ghost predicate LoneGateLine(s: Statement, g: Gate) {
    && GateLineFor(s, g) && RepeatFreeFrom(g.args, 0) && VoteArityOk(g)
    && forall i :: 0 <= i < |g.args| ==> !SameName(g.args[i].name, g.name)
  }

  /** A name line and one such gate line: the tree is that gate, its own top event. */
  lemma LoneGateAccepted(doc: seq<Statement>, g: Gate, multiTop: bool)
    requires |doc| == 2 && doc[0].NameLine? && WellFormedName(doc[0].text) && LoneGateLine(doc[1], g)
    ensures ParseInput(doc, multiTop) == Success(Build(Draft(doc[0].text, [g], [], []), [0]))
    ensures ParseInput(doc, multiTop).value.gates == [g]
  {
    var d := Draft(doc[0].text, [g], [], []);
    HeaderRead(doc);
    SingleGate(g);
    GateLineStep(doc, 1, Draft(doc[0].text, [], [], []), g);
    LoneGateGraph(g);
    assert DefinedNames(d) == [g.name];
    assert TopCandidates([[]]) == [0];
    Accepted(d, multiTop, [0], [0]);
  }

  /** The arguments as the tree reports them, and the complemented ones. */
  ghost predicate ReportsArguments(args: seq<Arg>, shown: seq<string>, complements: seq<string>) {
    && |EventArguments(args)| == |shown|
    && (forall i :: 0 <= i < |shown| ==> EventArguments(args)[i] == shown[i])
    && ComplementArguments(args) == complements
  }

  lemma NullLine()
    ensures LoneGateLine(GateLine("g1", [Ident("a")]), Gate("g1", Null, [Ref("a")]))
    ensures ReportsArguments([Ref("a")], ["a"], [])
  {}

  /** test_null_gate: `g1 := a` is a pass-through gate over the event a. */
  lemma NullGateTest()
    ensures var r := ParseInput([NameLine("FT"), GateLine("g1", [Ident("a")])], false);
      && r.Success? && |r.value.gates| == 1 && r.value.gates[0].name == "g1"
      && "a" in EventArguments(r.value.gates[0].args) && r.value.gates[0].op == Null
  {
    var g := Gate("g1", Null, [Ref("a")]);
    NullLine();
    FTName();
    LoneGateAccepted([NameLine("FT"), GateLine("g1", [Ident("a")])], g, false);
  }

  lemma NotLine()
    ensures LoneGateLine(GateLine("g1", [Tilde, LParen, Ident("a"), RParen]), Gate("g1", Not, [Ref("a")]))
    ensures ReportsArguments([Ref("a")], ["a"], [])
  {}

  /** test_not_gate: `g1 := ~(a)` is a negation gate over the event a. */
  lemma NotGateTest()
    ensures var r := ParseInput([NameLine("FT"), GateLine("g1", [Tilde, LParen, Ident("a"), RParen])], false);
      && r.Success? && |r.value.gates| == 1 && r.value.gates[0].name == "g1"
      && "a" in EventArguments(r.value.gates[0].args) && r.value.gates[0].op == Not
  {
    var g := Gate("g1", Not, [Ref("a")]);
    NotLine();
    FTName();
    LoneGateAccepted([NameLine("FT"), GateLine("g1", [Tilde, LParen, Ident("a"), RParen])], g, false);
  }

  lemma DashedName() ensures WellFormedName("Correct-Name_42") {}

  /** The line `g1 := a <sep> b` of a two-argument connective. */
  lemma PairLine(s: Statement, g: Gate, sep: Token)
    requires IsChainOp(g.op) && sep == ConnectiveToken(g.op)
    requires WellFormedName(g.name) && |g.args| == 2 && !g.args[0].negated
    requires WellFormedName(g.args[0].name) && WellFormedName(g.args[1].name)
    requires s == GateLine(g.name, [Ident(g.args[0].name), sep] + RefTokens(g.args[1]))
    ensures GateLineFor(s, g)
  {
    assert Joined(g.args[1..], sep) == [sep] + RefTokens(g.args[1]) by {
      assert g.args[1..][1..] == [];
    }
  }

  lemma PairNames() ensures WellFormedName("g1") && WellFormedName("e1") && WellFormedName("e2") {}

  /** The line `g1 := e1 <sep> e2` or `g1 := e1 <sep> ~e2`: the arguments differ and name no gate. */
  lemma PairLoneLine(s: Statement, g: Gate, sep: Token)
    requires (g.op == And && sep == Amp) || (g.op == Or && sep == Bar) || (g.op == Xor && sep == Caret)
    requires g.name == "g1" && (g.args == [Ref("e1"), Ref("e2")] || g.args == [Ref("e1"), Neg("e2")])
    requires s == GateLine("g1", [Ident("e1"), sep] + RefTokens(g.args[1]))
    ensures LoneGateLine(s, g)
  {
    PairNames();
    PairLine(s, g, sep);
    assert !SameName("e1", "e2") && !SameName("e1", "g1") && !SameName("e2", "g1");
  }

  /** test_ncname_ft: a well-formed tree name with a dash, an underscore and digits. */
  lemma DashedTreeNameTest()
    ensures ParseInput([NameLine("Correct-Name_42"), GateLine("g1", [Ident("e1"), Amp, Ident("e2")])], false).Success?
  {
    var g := Gate("g1", And, [Ref("e1"), Ref("e2")]);
    PairLoneLine(GateLine("g1", [Ident("e1"), Amp, Ident("e2")]), g, Amp);
    DashedName();
    LoneGateAccepted([NameLine("Correct-Name_42"), GateLine("g1", [Ident("e1"), Amp, Ident("e2")])], g, false);
  }

  // ---------------------------------------------------------------------
  // ComplementArgTestCase: e2 as a complement argument of g1

  /** What check_gate asserts of a tree: one gate g1 with operator `op` and the complement argument e2. */
  ghost predicate ComplementChecked(r: Result<FaultTree>, op: Op) {
    && r.Success? && |r.value.gates| == 1
    && r.value.gates[0].name == "g1" && r.value.gates[0].op == op
    && "~e2" in EventArguments(r.value.gates[0].args)
    && ComplementArguments(r.value.gates[0].args) == ["e2"]
  }

  /** `e1 <sep> ~e2` shows both arguments and has e2 as its complement argument. */
  lemma PairComplement()
    ensures ReportsArguments([Ref("e1"), Neg("e2")], ["e1", "~e2"], ["e2"])
  {}

  /** The document `FT` with the line `g1 := e1 <sep> ~e2` gives the tree check_gate expects. */
  lemma PairComplementAccepted(doc: seq<Statement>, op: Op, sep: Token)
    requires (op == And && sep == Amp) || (op == Or && sep == Bar) || (op == Xor && sep == Caret)
    requires doc == [NameLine("FT"), GateLine("g1", [Ident("e1"), sep, Tilde, Ident("e2")])]
    ensures ComplementChecked(ParseInput(doc, false), op)
    ensures "e1" in EventArguments(ParseInput(doc, false).value.gates[0].args)
  {
    var g := Gate("g1", op, [Ref("e1"), Neg("e2")]);
    assert doc[1] == GateLine("g1", [Ident("e1"), sep] + RefTokens(g.args[1]));
    PairLoneLine(doc[1], g, sep);
    PairComplement();
    FTName();
    LoneGateAccepted(doc, g, false);
  }

  /** test_or: `g1 := e1 | ~e2`. */
  lemma ComplementOrTest()
    ensures ComplementChecked(ParseInput([NameLine("FT"), GateLine("g1", [Ident("e1"), Bar, Tilde, Ident("e2")])], false), Or)
      && "e1" in EventArguments(ParseInput([NameLine("FT"), GateLine("g1", [Ident("e1"), Bar, Tilde, Ident("e2")])], false).value.gates[0].args)
  {
    PairComplementAccepted([NameLine("FT"), GateLine("g1", [Ident("e1"), Bar, Tilde, Ident("e2")])], Or, Bar);
  }

  /** test_xor: `g1 := e1 ^ ~e2`. */
  lemma ComplementXorTest()
    ensures ComplementChecked(ParseInput([NameLine("FT"), GateLine("g1", [Ident("e1"), Caret, Tilde, Ident("e2")])], false), Xor)
      && "e1" in EventArguments(ParseInput([NameLine("FT"), GateLine("g1", [Ident("e1"), Caret, Tilde, Ident("e2")])], false).value.gates[0].args)
  {
    PairComplementAccepted([NameLine("FT"), GateLine("g1", [Ident("e1"), Caret, Tilde, Ident("e2")])], Xor, Caret);
  }

  /** test_and: `g1 := e1 & ~e2`. */
  lemma ComplementAndTest()
    ensures ComplementChecked(ParseInput([NameLine("FT"), GateLine("g1", [Ident("e1"), Amp, Tilde, Ident("e2")])], false), And)
      && "e1" in EventArguments(ParseInput([NameLine("FT"), GateLine("g1", [Ident("e1"), Amp, Tilde, Ident("e2")])], false).value.gates[0].args)
  {
    PairComplementAccepted([NameLine("FT"), GateLine("g1", [Ident("e1"), Amp, Tilde, Ident("e2")])], And, Amp);
  }

  /** The vote line of test_vote reads as the gate it writes. */
  lemma VoteLineRead(s: Statement, g: Gate)
    requires s == GateLine("g1", [At, LParen, Number(2), Comma, LBracket, Ident("e1"), Comma, Tilde, Ident("e2"), Comma, Ident("e3"), RBracket, RParen])
    requires g == Gate("g1", AtLeast(2), [Ref("e1"), Neg("e2"), Ref("e3")])
    ensures GateLineFor(s, g)
  {
    VoteNames();
    assert forall i :: 0 <= i < |g.args| ==> g.args[i].name in ["e1", "e2", "e3"];
    assert Render(Formula(g.op, g.args)) == s.formula;
  }

  lemma VoteNames()
    ensures WellFormedName("g1") && WellFormedName("e1") && WellFormedName("e2") && WellFormedName("e3")
  {}

  /** The vote of test_vote repeats no argument and names no gate. */
  lemma VoteArgumentsFree()
    ensures RepeatFreeFrom([Ref("e1"), Neg("e2"), Ref("e3")], 0)
    ensures VoteArityOk(Gate("g1", AtLeast(2), [Ref("e1"), Neg("e2"), Ref("e3")]))
    ensures !SameName("e1", "g1") && !SameName("e2", "g1") && !SameName("e3", "g1")
  {
    assert !SameName("e1", "e2") && !SameName("e1", "e3") && !SameName("e2", "e3");
  }

  lemma VoteArguments()
    ensures ReportsArguments([Ref("e1"), Neg("e2"), Ref("e3")], ["e1", "~e2", "e3"], ["e2"])
  {}

  /** test_vote: `g1 := @(2, [e1, ~e2, e3])`. */
  lemma ComplementVoteTest()
    ensures ComplementChecked(ParseInput([NameLine("FT"), GateLine("g1", [At, LParen, Number(2), Comma, LBracket, Ident("e1"), Comma, Tilde, Ident("e2"), Comma, Ident("e3"), RBracket, RParen])], false), AtLeast(2))
  {
    var g := Gate("g1", AtLeast(2), [Ref("e1"), Neg("e2"), Ref("e3")]);
    VoteLineRead(GateLine("g1", [At, LParen, Number(2), Comma, LBracket, Ident("e1"), Comma, Tilde, Ident("e2"), Comma, Ident("e3"), RBracket, RParen]), g);
    VoteArgumentsFree();
    VoteArguments();
    FTName();
    LoneGateAccepted([NameLine("FT"), GateLine("g1", [At, LParen, Number(2), Comma, LBracket, Ident("e1"), Comma, Tilde, Ident("e2"), Comma, Ident("e3"), RBracket, RParen])], g, false);
  }

  lemma ComplementNullLine()
    ensures LoneGateLine(GateLine("g1", [Tilde, Ident("e2")]), Gate("g1", Null, [Neg("e2")]))
    ensures ReportsArguments([Neg("e2")], ["~e2"], ["e2"])
  {}

  /** test_null: `g1 := ~e2`. */
  lemma ComplementNullTest()
    ensures ComplementChecked(ParseInput([NameLine("FT"), GateLine("g1", [Tilde, Ident("e2")])], false), Null)
  {
    var g := Gate("g1", Null, [Neg("e2")]);
    ComplementNullLine();
    FTName();
    LoneGateAccepted([NameLine("FT"), GateLine("g1", [Tilde, Ident("e2")])], g, false);
  }

  lemma ComplementNotLine()
    ensures LoneGateLine(GateLine("g1", [Tilde, LParen, Tilde, Ident("e2"), RParen]), Gate("g1", Not, [Neg("e2")]))
    ensures ReportsArguments([Neg("e2")], ["~e2"], ["e2"])
  {}

  /** test_not: `g1 := ~(~e2)`. */
  lemma ComplementNotTest()
    ensures ComplementChecked(ParseInput([NameLine("FT"), GateLine("g1", [Tilde, LParen, Tilde, Ident("e2"), RParen])], false), Not)
  {
    var g := Gate("g1", Not, [Neg("e2")]);
    ComplementNotLine();
    FTName();
    LoneGateAccepted([NameLine("FT"), GateLine("g1", [Tilde, LParen, Tilde, Ident("e2"), RParen])], g, false);
  }

  /** `~e2 & e2`: an argument next to its own complement is no repetition. */
  lemma CancellationLine()
    ensures LoneGateLine(GateLine("g1", [Tilde, Ident("e2"), Amp, Ident("e2")]), Gate("g1", And, [Neg("e2"), Ref("e2")]))
    ensures ReportsArguments([Neg("e2"), Ref("e2")], ["~e2", "e2"], ["e2"])
  {
    var args := [Neg("e2"), Ref("e2")];
    assert Joined(args[1..], Amp) == [Amp, Ident("e2")] by {
      assert args[1..][1..] == [];
    }
    assert !Clash(args[0], args[1]);
    assert !SameName("e2", "g1");
  }

  /** test_cancellation: `g1 := ~e2 & e2`, an argument next to its own complement. */
  lemma ComplementCancellationTest()
    ensures ComplementChecked(ParseInput([NameLine("FT"), GateLine("g1", [Tilde, Ident("e2"), Amp, Ident("e2")])], false), And)
  {
    var g := Gate("g1", And, [Neg("e2"), Ref("e2")]);
    CancellationLine();
    FTName();
    LoneGateAccepted([NameLine("FT"), GateLine("g1", [Tilde, Ident("e2"), Amp, Ident("e2")])], g, false);
  }

  // ---------------------------------------------------------------------
  // Small sequence and name facts, each stated once so that the larger
  // proofs above cite them instead of re-deriving them in their own, more
  // costly proof contexts.  They are proof aids, not properties of the
  // translator.

  lemma FaultTreeName() ensures WellFormedName("FaultTreeName") {}

  lemma SingleGate(g: Gate) ensures [] + [g] == [g] {}

  lemma FTName() ensures WellFormedName("FT") {}
}
