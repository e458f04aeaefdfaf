/**
 * The Aralia fault-tree translator: from the statements of one document to
 * a validated fault tree, or to the first error met.
 *
 * A document is a sequence of statements:
 *   Name                 the fault-tree name (first statement, exactly once)
 *   name := formula      a gate definition
 *   p(name) = value      a basic event with its probability
 *   s(name) = true|false a house event with its state
 * Translation runs in two stages.  The syntax stage reads the statements in
 * order and stops at the first format or parsing error.  The semantic stage
 * then applies its rules in a fixed order (repeated arguments, redefinition,
 * vote arity, cycles, top events) and stops at the first fault-tree error.
 */
module Aralia {
  import opened Names
  import opened Formulas
  import opened Graphs
  import Events

  // ---------------------------------------------------------------------
  // Documents, errors and the fault tree

  datatype Statement =
    | NameLine(text: string)
    | GateLine(name: string, formula: seq<Token>)
    | ProbabilityLine(name: string, probability: Events.Probability)
    | StateLine(name: string, state: bool)

  datatype FormatReason = MissingName | NameRedefinition

  datatype ParsingReason = InvalidName | InvalidFormula

  datatype TreeReason =
    | RepeatedArgument | Redefinition | VoteArity | Cycle | NoTopEvent | MultipleTopEvents

  datatype Error =
    | FormatError(format: FormatReason)
    | ParsingError(parsing: ParsingReason)
    | FaultTreeError(tree: TreeReason)

  datatype Result<T> = Success(value: T) | Failure(error: Error)

  datatype Gate = Gate(name: string, op: Op, args: seq<Arg>)

  /**
   * A basic event as a `p(name) = value` line defines it.  The tree is an
   * immutable value, so it holds these records rather than the mutable
   * `Events.BasicEvent` objects.
   */
  datatype ProbabilityDefinition = ProbabilityDefinition(name: string, probability: Events.Probability)

  datatype HouseEvent = HouseEvent(name: string, state: bool)

  /** What the syntax stage collects, each list in document order. */
  datatype Draft = Draft(name: string, gates: seq<Gate>, basicEvents: seq<ProbabilityDefinition>, houseEvents: seq<HouseEvent>)

  datatype FaultTree = FaultTree(
    name: string,
    gates: seq<Gate>,
    basicEvents: seq<ProbabilityDefinition>,
    houseEvents: seq<HouseEvent>,
    undefinedEvents: seq<string>,
    topEvents: seq<string>)

  // ---------------------------------------------------------------------
  // Gate arguments as the tree reports them

  function ArgumentText(a: Arg): string {
    if a.negated then "~" + a.name else a.name
  }

  /** The argument names of a gate, a complemented one carrying a `~` prefix. */
  function EventArguments(args: seq<Arg>): (r: seq<string>)
    ensures |r| == |args|
    ensures forall i :: 0 <= i < |args| ==> r[i] == ArgumentText(args[i])
  {
    if args == [] then [] else [ArgumentText(args[0])] + EventArguments(args[1..])
  }

  /** The names of the complemented arguments of a gate, in order. */
  function ComplementArguments(args: seq<Arg>): (r: seq<string>)
    ensures forall n :: n in r <==> exists i :: 0 <= i < |args| && args[i].negated && args[i].name == n
  {
    if args == [] then []
    else
      var rest := ComplementArguments(args[1..]);
      assert forall i :: 1 <= i < |args| ==> args[i] == args[1..][i - 1];
      if args[0].negated then [args[0].name] + rest else rest
  }

  /** The number of complemented arguments. */
  function NegatedCount(args: seq<Arg>): nat {
    if args == [] then 0 else (if args[0].negated then 1 else 0) + NegatedCount(args[1..])
  }

  lemma {:induction false} ComplementArgumentsCount(args: seq<Arg>)
    ensures |ComplementArguments(args)| == NegatedCount(args)
  {
    if args != [] { ComplementArgumentsCount(args[1..]); }
  }

  /** A well-formed name never starts with `~`, so the prefix tells the polarity. */
  lemma ArgumentTextTilde(a: Arg, n: string)
    requires IsValidName(a.name)
    ensures ArgumentText(a) == "~" + n <==> a.negated && a.name == n
  {
    if ArgumentText(a) == "~" + n && a.negated {
      assert a.name == ("~" + a.name)[1..] == ("~" + n)[1..] == n;
    }
  }

  lemma ArgumentTextPlain(a: Arg, n: string)
    requires IsValidName(a.name) && IsValidName(n)
    ensures ArgumentText(a) == n <==> !a.negated && a.name == n
  {
  }

  /**
   * For arguments with well-formed names, `n` is a complement argument
   * exactly when `~n` is among the event arguments, and `n` itself is among
   * them exactly when some argument refers to `n` uncomplemented.
   */
  lemma {:induction false} EventArgumentsSpec(args: seq<Arg>, n: string)
    requires forall i :: 0 <= i < |args| ==> IsValidName(args[i].name)
    ensures n in ComplementArguments(args) <==> "~" + n in EventArguments(args)
    ensures IsValidName(n) ==>
      (n in EventArguments(args) <==> exists i :: 0 <= i < |args| && !args[i].negated && args[i].name == n)
  {
    var ev := EventArguments(args);
    forall i | 0 <= i < |args| ensures ev[i] == "~" + n <==> args[i].negated && args[i].name == n {
      ArgumentTextTilde(args[i], n);
    }
    if IsValidName(n) {
      forall i | 0 <= i < |args| ensures ev[i] == n <==> !args[i].negated && args[i].name == n {
        ArgumentTextPlain(args[i], n);
      }
    }
  }

  // ---------------------------------------------------------------------
  // The syntax stage

  /** Every argument from `from` on has a well-formed name. */
  function ArgNamesValid(args: seq<Arg>, from: nat): (b: bool)
    requires from <= |args|
    ensures b <==> forall i :: from <= i < |args| ==> IsValidName(args[i].name)
    decreases |args| - from
  {
    from == |args| || (IsValidName(args[from].name) && ArgNamesValid(args, from + 1))
  }

  /** The error a statement after the name line raises by itself, if any. */
  function CheckStatement(s: Statement): (r: Option<Error>)
    ensures r.Some? ==> !r.value.FaultTreeError?
  {
    match s
    case NameLine(_) => Some(FormatError(NameRedefinition))
    case GateLine(n, ts) =>
      if !IsValidName(n) then Some(ParsingError(InvalidName))
      else
        (match Classify(ts)
         case None => Some(ParsingError(InvalidFormula))
         case Some(f) => if ArgNamesValid(f.args, 0) then None else Some(ParsingError(InvalidName)))
    case ProbabilityLine(n, _) => if IsValidName(n) then None else Some(ParsingError(InvalidName))
    case StateLine(n, _) => if IsValidName(n) then None else Some(ParsingError(InvalidName))
  }

  /** A statement that may follow the name line, stated without the checks. */
  ghost predicate WellFormedStatement(s: Statement) {
    match s
    case NameLine(_) => false
    case GateLine(n, ts) =>
      && WellFormedName(n)
      && exists f :: IsWrittenForm(ts, f) && forall i :: 0 <= i < |f.args| ==> WellFormedName(f.args[i].name)
    case ProbabilityLine(n, _) => WellFormedName(n)
    case StateLine(n, _) => WellFormedName(n)
  }

  /** The statement check accepts exactly the well-formed statements. */
  lemma CheckStatementCorrect(s: Statement)
    ensures CheckStatement(s).None? <==> WellFormedStatement(s)
  {
    match s
    case NameLine(_) =>
    case GateLine(n, ts) =>
      NameCheckCorrect(n);
      if Classify(ts).Some? {
        var f := Classify(ts).value;
        forall i | 0 <= i < |f.args| ensures IsValidName(f.args[i].name) <==> WellFormedName(f.args[i].name) {
          NameCheckCorrect(f.args[i].name);
        }
      }
      if WellFormedStatement(s) {
        var f :| IsWrittenForm(ts, f) && forall i :: 0 <= i < |f.args| ==> WellFormedName(f.args[i].name);
        ClassifyExactly(ts, f);
      }
    case ProbabilityLine(n, _) => NameCheckCorrect(n);
    case StateLine(n, _) => NameCheckCorrect(n);
  }

  function GateOf(name: string, f: Formula): Gate {
    Gate(name, f.op, f.args)
  }

  /** Adds what an accepted statement defines to the draft. */
  function Record(d: Draft, s: Statement): Draft
    requires CheckStatement(s).None?
  {
    match s
    case NameLine(_) => d
    case GateLine(n, ts) => d.(gates := d.gates + [GateOf(n, Classify(ts).value)])
    case ProbabilityLine(n, p) => d.(basicEvents := d.basicEvents + [ProbabilityDefinition(n, p)])
    case StateLine(n, v) => d.(houseEvents := d.houseEvents + [HouseEvent(n, v)])
  }

  /** Reads the statements from `from` on, stopping at the first one in error. */
  function ParseBody(stmts: seq<Statement>, from: nat, d: Draft): (r: Result<Draft>)
    requires from <= |stmts|
    ensures r.Failure? ==> !r.error.FaultTreeError?
    ensures r.Success? ==> r.value.name == d.name
    decreases |stmts| - from
  {
    if from == |stmts| then Success(d)
    else
      match CheckStatement(stmts[from])
      case Some(e) => Failure(e)
      case None => ParseBody(stmts, from + 1, Record(d, stmts[from]))
  }

  /** The syntax stage: the name line first, then every other statement. */
  function ParseDocument(doc: seq<Statement>): (r: Result<Draft>)
    ensures r.Failure? ==> !r.error.FaultTreeError?
    ensures r.Success? ==> |doc| > 0 && doc[0] == NameLine(r.value.name)
  {
    if |doc| == 0 || !doc[0].NameLine? then Failure(FormatError(MissingName))
    else if !IsValidName(doc[0].text) then Failure(ParsingError(InvalidName))
    else ParseBody(doc, 1, Draft(doc[0].text, [], [], []))
  }

  // ---------------------------------------------------------------------
  // Properties of the syntax stage

  /** The first statement in error decides the outcome. */
  lemma {:induction false} FailFast(stmts: seq<Statement>, from: nat, d: Draft, i: nat)
    requires from <= i < |stmts| && CheckStatement(stmts[i]).Some?
    requires forall k :: from <= k < i ==> CheckStatement(stmts[k]).None?
    ensures ParseBody(stmts, from, d) == Failure(CheckStatement(stmts[i]).value)
    decreases i - from
  {
    if from < i {
      FailFast(stmts, from + 1, Record(d, stmts[from]), i);
    }
  }

  function CountGateLines(stmts: seq<Statement>, from: nat): nat
    requires from <= |stmts|
    decreases |stmts| - from
  {
    if from == |stmts| then 0 else (if stmts[from].GateLine? then 1 else 0) + CountGateLines(stmts, from + 1)
  }

  function CountProbabilityLines(stmts: seq<Statement>, from: nat): nat
    requires from <= |stmts|
    decreases |stmts| - from
  {
    if from == |stmts| then 0 else (if stmts[from].ProbabilityLine? then 1 else 0) + CountProbabilityLines(stmts, from + 1)
  }

  function CountStateLines(stmts: seq<Statement>, from: nat): nat
    requires from <= |stmts|
    decreases |stmts| - from
  {
    if from == |stmts| then 0 else (if stmts[from].StateLine? then 1 else 0) + CountStateLines(stmts, from + 1)
  }

  /** What recording one accepted statement adds to a draft. */
  lemma RecordShape(d: Draft, s: Statement)
    requires CheckStatement(s).None?
    ensures var r := Record(d, s);
      && |r.gates| == |d.gates| + (if s.GateLine? then 1 else 0)
      && |r.basicEvents| == |d.basicEvents| + (if s.ProbabilityLine? then 1 else 0)
      && |r.houseEvents| == |d.houseEvents| + (if s.StateLine? then 1 else 0)
      && r.gates[..|d.gates|] == d.gates
      && r.basicEvents[..|d.basicEvents|] == d.basicEvents
      && r.houseEvents[..|d.houseEvents|] == d.houseEvents
  {}

  lemma {:induction false} BodyAcceptedIff(stmts: seq<Statement>, from: nat, d: Draft)
    requires from <= |stmts|
    ensures ParseBody(stmts, from, d).Success? <==> forall k :: from <= k < |stmts| ==> CheckStatement(stmts[k]).None?
    decreases |stmts| - from
  {
    if from < |stmts| {
      if CheckStatement(stmts[from]).None? {
        BodyAcceptedIff(stmts, from + 1, Record(d, stmts[from]));
      } else {
        FailFast(stmts, from, d, from);
      }
    }
  }

  lemma {:induction false} BodyAcceptedShape(stmts: seq<Statement>, from: nat, d: Draft)
    requires from <= |stmts|
    ensures ParseBody(stmts, from, d).Success? ==>
      var r := ParseBody(stmts, from, d).value;
      && |r.gates| == |d.gates| + CountGateLines(stmts, from)
      && |r.basicEvents| == |d.basicEvents| + CountProbabilityLines(stmts, from)
      && |r.houseEvents| == |d.houseEvents| + CountStateLines(stmts, from)
      && r.gates[..|d.gates|] == d.gates
      && r.basicEvents[..|d.basicEvents|] == d.basicEvents
      && r.houseEvents[..|d.houseEvents|] == d.houseEvents
    decreases |stmts| - from
  {
    if from < |stmts| && CheckStatement(stmts[from]).None? {
      var d' := Record(d, stmts[from]);
      RecordShape(d, stmts[from]);
      BodyAcceptedShape(stmts, from + 1, d');
      if ParseBody(stmts, from, d).Success? {
        var r := ParseBody(stmts, from, d).value;
        assert r.gates[..|d.gates|] == r.gates[..|d'.gates|][..|d.gates|];
        assert r.basicEvents[..|d.basicEvents|] == r.basicEvents[..|d'.basicEvents|][..|d.basicEvents|];
        assert r.houseEvents[..|d.houseEvents|] == r.houseEvents[..|d'.houseEvents|][..|d.houseEvents|];
      }
    }
  }

  /**
   * The body is accepted exactly when every statement is; the draft then
   * gains one gate per gate line, one basic event per probability line and
   * one house event per state line, after what it held before.
   */
  lemma {:induction false} BodyAccepted(stmts: seq<Statement>, from: nat, d: Draft)
    requires from <= |stmts|
    ensures ParseBody(stmts, from, d).Success? <==> forall k :: from <= k < |stmts| ==> CheckStatement(stmts[k]).None?
    ensures ParseBody(stmts, from, d).Success? ==>
      var r := ParseBody(stmts, from, d).value;
      && |r.gates| == |d.gates| + CountGateLines(stmts, from)
      && |r.basicEvents| == |d.basicEvents| + CountProbabilityLines(stmts, from)
      && |r.houseEvents| == |d.houseEvents| + CountStateLines(stmts, from)
      && r.gates[..|d.gates|] == d.gates
      && r.basicEvents[..|d.basicEvents|] == d.basicEvents
      && r.houseEvents[..|d.houseEvents|] == d.houseEvents
  {
    BodyAcceptedIff(stmts, from, d);
    BodyAcceptedShape(stmts, from, d);
  }

  /** The syntax stage in declarative terms. */
  lemma DocumentAccepted(doc: seq<Statement>)
    ensures ParseDocument(doc).Success? <==>
      && |doc| > 0 && doc[0].NameLine? && WellFormedName(doc[0].text)
      && forall k :: 1 <= k < |doc| ==> WellFormedStatement(doc[k])
  {
    if |doc| > 0 && doc[0].NameLine? {
      NameCheckCorrect(doc[0].text);
      if IsValidName(doc[0].text) {
        BodyAccepted(doc, 1, Draft(doc[0].text, [], [], []));
      }
      forall k | 1 <= k < |doc| ensures CheckStatement(doc[k]).None? <==> WellFormedStatement(doc[k]) {
        CheckStatementCorrect(doc[k]);
      }
    }
  }

  /** A document whose first statement is not the name line is a format error. */
  lemma MissingNameRejected(doc: seq<Statement>)
    requires |doc| == 0 || !doc[0].NameLine?
    ensures ParseDocument(doc) == Failure(FormatError(MissingName))
  {}

  /** A fault-tree name that breaks the name rule is a parsing error. */
  lemma InvalidTreeNameRejected(doc: seq<Statement>)
    requires |doc| > 0 && doc[0].NameLine? && !WellFormedName(doc[0].text)
    ensures ParseDocument(doc) == Failure(ParsingError(InvalidName))
  {
    NameCheckCorrect(doc[0].text);
  }

  /** A second name line, reached with no earlier error, is a format error. */
  lemma SecondNameRejected(doc: seq<Statement>, i: nat)
    requires |doc| > 0 && doc[0].NameLine? && IsValidName(doc[0].text)
    requires 1 <= i < |doc| && doc[i].NameLine?
    requires forall k :: 1 <= k < i ==> CheckStatement(doc[k]).None?
    ensures ParseDocument(doc) == Failure(FormatError(NameRedefinition))
  {
    FailFast(doc, 1, Draft(doc[0].text, [], [], []), i);
  }

  /** Every gate of a draft has well-formed names and an expressible formula. */
  ghost predicate WellFormedGate(g: Gate) {
    && IsValidName(g.name)
    && Expressible(Formula(g.op, g.args))
    && forall i :: 0 <= i < |g.args| ==> IsValidName(g.args[i].name)
  }

  ghost predicate WellFormedDraft(d: Draft) {
    && IsValidName(d.name)
    && (forall i :: 0 <= i < |d.gates| ==> WellFormedGate(d.gates[i]))
    && (forall i :: 0 <= i < |d.basicEvents| ==> IsValidName(d.basicEvents[i].name))
    && (forall i :: 0 <= i < |d.houseEvents| ==> IsValidName(d.houseEvents[i].name))
  }

  lemma {:induction false} BodyKeepsWellFormed(stmts: seq<Statement>, from: nat, d: Draft)
    requires from <= |stmts| && WellFormedDraft(d)
    ensures ParseBody(stmts, from, d).Success? ==> WellFormedDraft(ParseBody(stmts, from, d).value)
    decreases |stmts| - from
  {
    if from < |stmts| && CheckStatement(stmts[from]).None? {
      var s := stmts[from];
      var d' := Record(d, s);
      if s.GateLine? {
        var f := Classify(s.formula).value;
        assert d'.gates[|d.gates|] == GateOf(s.name, f);
        assert WellFormedGate(GateOf(s.name, f));
      }
      assert WellFormedDraft(d');
      BodyKeepsWellFormed(stmts, from + 1, d');
    }
  }

  /** Whatever the syntax stage accepts is a well-formed draft. */
  lemma DocumentDraftWellFormed(doc: seq<Statement>)
    requires ParseDocument(doc).Success?
    ensures WellFormedDraft(ParseDocument(doc).value)
  {
    BodyKeepsWellFormed(doc, 1, Draft(doc[0].text, [], [], []));
  }

  // ---------------------------------------------------------------------
  // Writing a draft back as statements

  function GateStatement(g: Gate): Statement
    requires Expressible(Formula(g.op, g.args))
  {
    GateLine(g.name, Render(Formula(g.op, g.args)))
  }

  function GateStatements(gates: seq<Gate>): (r: seq<Statement>)
    requires forall i :: 0 <= i < |gates| ==> Expressible(Formula(gates[i].op, gates[i].args))
    ensures |r| == |gates|
    ensures forall i :: 0 <= i < |gates| ==> r[i] == GateStatement(gates[i])
  {
    seq(|gates|, i requires 0 <= i < |gates| => GateStatement(gates[i]))
  }

  function BasicStatements(events: seq<ProbabilityDefinition>): (r: seq<Statement>)
    ensures |r| == |events|
    ensures forall i :: 0 <= i < |events| ==> r[i] == ProbabilityLine(events[i].name, events[i].probability)
  {
    seq(|events|, i requires 0 <= i < |events| => ProbabilityLine(events[i].name, events[i].probability))
  }

  function HouseStatements(events: seq<HouseEvent>): (r: seq<Statement>)
    ensures |r| == |events|
    ensures forall i :: 0 <= i < |events| ==> r[i] == StateLine(events[i].name, events[i].state)
  {
    seq(|events|, i requires 0 <= i < |events| => StateLine(events[i].name, events[i].state))
  }

  /** A document for a draft: the name, the gates, then the basic and house events. */
  function Unparse(d: Draft): seq<Statement>
    requires WellFormedDraft(d)
  {
    [NameLine(d.name)] + GateStatements(d.gates) + BasicStatements(d.basicEvents) + HouseStatements(d.houseEvents)
  }

  /** Statement `s` passes the statement check and records exactly gate `g`. */
  ghost predicate RecordsGate(s: Statement, g: Gate) {
    && CheckStatement(s).None? && s.GateLine? && s.name == g.name
    && Classify(s.formula) == Some(Formula(g.op, g.args))
  }

  lemma GateStatementRecords(g: Gate)
    requires WellFormedGate(g)
    ensures RecordsGate(GateStatement(g), g)
  {
    ClassifyComplete(Formula(g.op, g.args));
  }

  lemma BodyStep(stmts: seq<Statement>, from: nat, d: Draft)
    requires from < |stmts| && CheckStatement(stmts[from]).None?
    ensures ParseBody(stmts, from, d) == ParseBody(stmts, from + 1, Record(d, stmts[from]))
  {}

  /** Reading a statement that records gate `g` appends `g` to the draft's gates. */
  lemma BodyStepGate(doc: seq<Statement>, from: nat, d: Draft, g: Gate)
    requires from < |doc| && RecordsGate(doc[from], g)
    ensures ParseBody(doc, from, d) == ParseBody(doc, from + 1, d.(gates := d.gates + [g]))
  {
    BodyStep(doc, from, d);
  }

  /** The same step, for the statement at offset `i` from `at`. */
  lemma BodyStepGateAt(doc: seq<Statement>, at: nat, i: nat, d: Draft, g: Gate)
    requires at + i < |doc| && RecordsGate(doc[at..][i], g)
    ensures ParseBody(doc, at + i, d) == ParseBody(doc, at + i + 1, d.(gates := d.gates + [g]))
  {
    assert doc[at..][i] == doc[at + i];
    BodyStepGate(doc, at + i, d, g);
  }

  /** Reading `gates` back from consecutive statements starting at `at`. */
  lemma ReplayGates(doc: seq<Statement>, at: nat, d: Draft, gates: seq<Gate>)
    requires at + |gates| <= |doc|
    requires forall k {:trigger RecordsGate(doc[at..][k], gates[k])} :: 0 <= k < |gates| ==> RecordsGate(doc[at..][k], gates[k])
    ensures ParseBody(doc, at, d) == ParseBody(doc, at + |gates|, d.(gates := d.gates + gates))
  {
    var i := 0;
    assert d.(gates := d.gates + gates[..0]) == d by {
      assert d.gates + gates[..0] == d.gates;
    }
    while i < |gates|
      invariant i <= |gates|
      invariant ParseBody(doc, at, d) == ParseBody(doc, at + i, d.(gates := d.gates + gates[..i]))
    {
      DraftSnoc(d, gates, i);
      BodyStepGateAt(doc, at, i, d.(gates := d.gates + gates[..i]), gates[i]);
      i := i + 1;
    }
    assert gates[..i] == gates;
  }

  lemma {:induction false} ReplayBasic(doc: seq<Statement>, at: nat, d: Draft, events: seq<ProbabilityDefinition>)
    requires at + |events| <= |doc|
    requires forall k :: 0 <= k < |events| ==>
      IsValidName(events[k].name) && doc[at + k] == ProbabilityLine(events[k].name, events[k].probability)
    ensures ParseBody(doc, at, d) == ParseBody(doc, at + |events|, d.(basicEvents := d.basicEvents + events))
    decreases |events|
  {
    if events == [] {
      assert d.basicEvents + events == d.basicEvents;
    } else {
      var d' := d.(basicEvents := d.basicEvents + [events[0]]);
      ReplayBasic(doc, at + 1, d', events[1..]);
      AppendFirst(d.basicEvents, events);
    }
  }

  lemma {:induction false} ReplayHouse(doc: seq<Statement>, at: nat, d: Draft, events: seq<HouseEvent>)
    requires at + |events| <= |doc|
    requires forall k :: 0 <= k < |events| ==>
      IsValidName(events[k].name) && doc[at + k] == StateLine(events[k].name, events[k].state)
    ensures ParseBody(doc, at, d) == ParseBody(doc, at + |events|, d.(houseEvents := d.houseEvents + events))
    decreases |events|
  {
    if events == [] {
      assert d.houseEvents + events == d.houseEvents;
    } else {
      var d' := d.(houseEvents := d.houseEvents + [events[0]]);
      ReplayHouse(doc, at + 1, d', events[1..]);
      AppendFirst(d.houseEvents, events);
    }
  }

  /** `doc` holds the name line of `d`, then its gates, basic events and house events, one line each. */
  ghost predicate LaidOut(doc: seq<Statement>, d: Draft) {
    && WellFormedDraft(d)
    && |doc| == 1 + |d.gates| + |d.basicEvents| + |d.houseEvents|
    && doc[0] == NameLine(d.name)
    && (forall k :: 0 <= k < |d.gates| ==> doc[1 + k] == GateStatement(d.gates[k]))
    && (forall k :: 0 <= k < |d.basicEvents| ==>
          doc[1 + |d.gates| + k] == ProbabilityLine(d.basicEvents[k].name, d.basicEvents[k].probability))
    && (forall k :: 0 <= k < |d.houseEvents| ==>
          doc[1 + |d.gates| + |d.basicEvents| + k] == StateLine(d.houseEvents[k].name, d.houseEvents[k].state))
  }

  lemma UnparseLayout(d: Draft)
    requires WellFormedDraft(d)
    ensures LaidOut(Unparse(d), d)
  {
    var doc := Unparse(d);
    var gs, bs, hs := GateStatements(d.gates), BasicStatements(d.basicEvents), HouseStatements(d.houseEvents);
    assert doc == [NameLine(d.name)] + gs + bs + hs;
    forall k | 0 <= k < |gs| ensures doc[1 + k] == gs[k] {}
    forall k | 0 <= k < |bs| ensures doc[1 + |gs| + k] == bs[k] {}
    forall k | 0 <= k < |hs| ensures doc[1 + |gs| + |bs| + k] == hs[k] {}
  }

  /** Reading the gate lines that follow the name line. */
  lemma {:induction false} ReadBackGates(doc: seq<Statement>, d: Draft)
    requires LaidOut(doc, d)
    ensures ParseBody(doc, 1, Draft(d.name, [], [], [])) == ParseBody(doc, 1 + |d.gates|, Draft(d.name, d.gates, [], []))
  {
    var d0 := Draft(d.name, [], [], []);
    assert d0.(gates := d0.gates + d.gates) == Draft(d.name, d.gates, [], []);
    GateLinesRecord(doc, d.gates);
    ReplayGates(doc, 1, d0, d.gates);
  }

  /** Gate statements written out after the name line record their gates. */
  lemma GateLinesRecord(doc: seq<Statement>, gates: seq<Gate>)
    requires 1 + |gates| <= |doc|
    requires forall k :: 0 <= k < |gates| ==> WellFormedGate(gates[k]) && doc[1 + k] == GateStatement(gates[k])
    ensures forall k {:trigger RecordsGate(doc[1..][k], gates[k])} :: 0 <= k < |gates| ==> RecordsGate(doc[1..][k], gates[k])
  {
    forall k | 0 <= k < |gates| ensures RecordsGate(doc[1..][k], gates[k]) {
      GateStatementRecords(gates[k]);
      assert doc[1..][k] == doc[1 + k];
    }
  }

  /** Reading the probability lines, then the state lines, up to the end of the document. */
  lemma {:induction false} ReadBackEvents(doc: seq<Statement>, d: Draft)
    requires LaidOut(doc, d)
    ensures ParseBody(doc, 1 + |d.gates|, Draft(d.name, d.gates, [], [])) == Success(d)
  {
    var at := 1 + |d.gates|;
    var d0 := Draft(d.name, d.gates, [], []);
    var d1 := Draft(d.name, d.gates, d.basicEvents, []);
    assert d0.(basicEvents := d0.basicEvents + d.basicEvents) == d1;
    assert d1.(houseEvents := d1.houseEvents + d.houseEvents) == d;
    forall k | 0 <= k < |d.basicEvents|
      ensures IsValidName(d.basicEvents[k].name) && doc[at + k] == ProbabilityLine(d.basicEvents[k].name, d.basicEvents[k].probability)
    {}
    ReplayBasic(doc, at, d0, d.basicEvents);
    forall k | 0 <= k < |d.houseEvents|
      ensures IsValidName(d.houseEvents[k].name) && doc[at + |d.basicEvents| + k] == StateLine(d.houseEvents[k].name, d.houseEvents[k].state)
    {}
    ReplayHouse(doc, at + |d.basicEvents|, d1, d.houseEvents);
  }

  /** Writing a well-formed draft out and reading it back gives the same draft. */
  lemma UnparseRoundTrip(d: Draft)
    requires WellFormedDraft(d)
    ensures ParseDocument(Unparse(d)) == Success(d)
  {
    var doc := Unparse(d);
    UnparseLayout(d);
    ReadBackGates(doc, d);
    ReadBackEvents(doc, d);
  }

  // ---------------------------------------------------------------------
  // The semantic rules, each stated on its own

  /** Same name, compared without case, and same polarity. */
  predicate Clash(a: Arg, b: Arg) {
    SameName(a.name, b.name) && a.negated == b.negated
  }

  ghost predicate HasRepeatedArgument(g: Gate) {
    exists i, j :: 0 <= i < j < |g.args| && Clash(g.args[i], g.args[j])
  }

  /** Every name the document defines: gates, then basic events, then house events. */
  function DefinedNames(d: Draft): (r: seq<string>)
    ensures |r| == |d.gates| + |d.basicEvents| + |d.houseEvents|
    ensures forall i :: 0 <= i < |d.gates| ==> r[i] == d.gates[i].name
    ensures forall i :: 0 <= i < |d.basicEvents| ==> r[|d.gates| + i] == d.basicEvents[i].name
    ensures forall i :: 0 <= i < |d.houseEvents| ==> r[|d.gates| + |d.basicEvents| + i] == d.houseEvents[i].name
  {
    seq(|d.gates|, i requires 0 <= i < |d.gates| => d.gates[i].name)
      + seq(|d.basicEvents|, i requires 0 <= i < |d.basicEvents| => d.basicEvents[i].name)
      + seq(|d.houseEvents|, i requires 0 <= i < |d.houseEvents| => d.houseEvents[i].name)
  }

  /** Two definitions, of whatever kind, share a name up to case. */
  ghost predicate HasRedefinition(d: Draft) {
    var names := DefinedNames(d);
    exists i, j :: 0 <= i < j < |names| && SameName(names[i], names[j])
  }

  predicate VoteArityOk(g: Gate) {
    g.op.AtLeast? ==> 1 <= g.op.k < |g.args|
  }

  // The checks that decide the rules, written so that they compute.

  /** Some argument of `args[from..]` clashes with `a`. */
  function ClashFrom(a: Arg, args: seq<Arg>, from: nat): (b: bool)
    requires from <= |args|
    ensures b <==> exists m :: from <= m < |args| && Clash(a, args[m])
    decreases |args| - from
  {
    from < |args| && (Clash(a, args[from]) || ClashFrom(a, args, from + 1))
  }

  function RepeatFreeFrom(args: seq<Arg>, from: nat): (b: bool)
    requires from <= |args|
    ensures b <==> forall i, j :: from <= i < j < |args| ==> !Clash(args[i], args[j])
    decreases |args| - from
  {
    from == |args| || (!ClashFrom(args[from], args, from + 1) && RepeatFreeFrom(args, from + 1))
  }

  function GatesRepeatFree(gates: seq<Gate>, from: nat): (b: bool)
    requires from <= |gates|
    ensures b <==> forall k :: from <= k < |gates| ==> !HasRepeatedArgument(gates[k])
    decreases |gates| - from
  {
    from == |gates| || (RepeatFreeFrom(gates[from].args, 0) && GatesRepeatFree(gates, from + 1))
  }

  /** Some name of `names[from..]` is `n` up to case. */
  function MatchFrom(names: seq<string>, n: string, from: nat): (b: bool)
    requires from <= |names|
    ensures b <==> exists m :: from <= m < |names| && SameName(names[m], n)
    decreases |names| - from
  {
    from < |names| && (SameName(names[from], n) || MatchFrom(names, n, from + 1))
  }

  function DistinctFrom(names: seq<string>, from: nat): (b: bool)
    requires from <= |names|
    ensures b <==> forall i, j :: from <= i < j < |names| ==> !SameName(names[j], names[i])
    decreases |names| - from
  {
    from == |names| || (!MatchFrom(names, names[from], from + 1) && DistinctFrom(names, from + 1))
  }

  function VotesOk(gates: seq<Gate>, from: nat): (b: bool)
    requires from <= |gates|
    ensures b <==> forall k :: from <= k < |gates| ==> VoteArityOk(gates[k])
    decreases |gates| - from
  {
    from == |gates| || (VoteArityOk(gates[from]) && VotesOk(gates, from + 1))
  }

  lemma RedefinitionCheck(d: Draft)
    ensures DistinctFrom(DefinedNames(d), 0) <==> !HasRedefinition(d)
  {
    var names := DefinedNames(d);
    forall i, j | 0 <= i < j < |names| ensures SameName(names[j], names[i]) <==> SameName(names[i], names[j]) {
      SameNameEquivalence(names[i], names[j], names[i]);
      SameNameEquivalence(names[j], names[i], names[j]);
    }
  }

  // ---------------------------------------------------------------------
  // The gate graph

  /** The first gate named `n` up to case, or `|gates|` when there is none. */
  function GateIndex(gates: seq<Gate>, n: string, from: nat): (k: nat)
    requires from <= |gates|
    ensures from <= k <= |gates|
    ensures k < |gates| ==> SameName(gates[k].name, n)
    ensures forall m :: from <= m < k ==> !SameName(gates[m].name, n)
    decreases |gates| - from
  {
    if from == |gates| then from
    else if SameName(gates[from].name, n) then from
    else GateIndex(gates, n, from + 1)
  }

  /** The gates that the arguments `args[from..]` name, in argument order. */
  function Children(gates: seq<Gate>, args: seq<Arg>, from: nat): (c: seq<nat>)
    requires from <= |args|
    ensures forall x :: x in c <==> x < |gates| && exists m :: from <= m < |args| && GateIndex(gates, args[m].name, 0) == x
    decreases |args| - from
  {
    if from == |args| then []
    else
      var k := GateIndex(gates, args[from].name, 0);
      (if k < |gates| then [k] else []) + Children(gates, args, from + 1)
  }

  /** Node i has an edge to every gate that an argument of gate i names. */
  function GateGraph(gates: seq<Gate>): (g: Graph)
    ensures |g| == |gates|
    ensures forall i :: 0 <= i < |gates| ==> g[i] == Children(gates, gates[i].args, 0)
  {
    seq(|gates|, i requires 0 <= i < |gates| => Children(gates, gates[i].args, 0))
  }

  lemma GateGraphClosed(gates: seq<Gate>)
    ensures Closed(GateGraph(gates))
  {
    var g := GateGraph(gates);
    forall i, k | 0 <= i < |g| && 0 <= k < |g[i]| ensures g[i][k] < |g| {
      assert g[i][k] in Children(gates, gates[i].args, 0);
    }
  }

  /** Gate i names gate j among its arguments. */
  ghost predicate Mentions(gates: seq<Gate>, i: nat, j: nat)
    requires i < |gates| && j < |gates|
  {
    exists m :: 0 <= m < |gates[i].args| && SameName(gates[i].args[m].name, gates[j].name)
  }

  predicate GateNamesDistinct(gates: seq<Gate>) {
    forall i, j :: 0 <= i < j < |gates| ==> !SameName(gates[i].name, gates[j].name)
  }

  /** With distinct gate names, the edges of the graph are exactly the references by name. */
  lemma EdgeIsReference(gates: seq<Gate>, i: nat, j: nat)
    requires GateNamesDistinct(gates) && i < |gates| && j < |gates|
    ensures Edge(GateGraph(gates), i, j) <==> Mentions(gates, i, j)
  {
    var args := gates[i].args;
    if Edge(GateGraph(gates), i, j) {
      var m :| 0 <= m < |args| && GateIndex(gates, args[m].name, 0) == j;
      SameNameEquivalence(gates[j].name, args[m].name, gates[j].name);
    }
    if Mentions(gates, i, j) {
      var m :| 0 <= m < |args| && SameName(args[m].name, gates[j].name);
      var k := GateIndex(gates, args[m].name, 0);
      SameNameEquivalence(args[m].name, gates[j].name, args[m].name);
      assert k <= j;
      if k < j {
        SameNameEquivalence(gates[k].name, args[m].name, gates[j].name);
        assert false;
      }
      assert j in Children(gates, args, 0);
    }
  }

  /** Distinct definitions make distinct gate names. */
  lemma DistinctDefinitionsDistinctGates(d: Draft)
    requires !HasRedefinition(d)
    ensures GateNamesDistinct(d.gates)
  {
    var names := DefinedNames(d);
    forall i, j | 0 <= i < j < |d.gates| ensures !SameName(d.gates[i].name, d.gates[j].name) {
      assert names[i] == d.gates[i].name && names[j] == d.gates[j].name;
    }
  }

  /** With distinct gate names, a top candidate is a gate that no gate names as an argument. */
  lemma TopCandidateByName(gates: seq<Gate>, j: nat)
    requires GateNamesDistinct(gates) && j < |gates|
    ensures j in TopCandidates(GateGraph(gates)) <==> forall i :: 0 <= i < |gates| ==> !Mentions(gates, i, j)
  {
    var g := GateGraph(gates);
    forall i | 0 <= i < |gates| ensures j in g[i] <==> Mentions(gates, i, j) {
      EdgeIsReference(gates, i, j);
    }
  }

  // ---------------------------------------------------------------------
  // Undefined events

  function ArgNames(args: seq<Arg>): (r: seq<string>)
    ensures |r| == |args|
    ensures forall m :: 0 <= m < |args| ==> r[m] == args[m].name
  {
    seq(|args|, m requires 0 <= m < |args| => args[m].name)
  }

  lemma ArgNamesMembership(args: seq<Arg>)
    ensures forall n :: n in ArgNames(args) <==> exists m :: 0 <= m < |args| && args[m].name == n
  {
    var r := ArgNames(args);
    forall n | n in r ensures exists m :: 0 <= m < |args| && args[m].name == n {
      var m :| 0 <= m < |r| && r[m] == n;
    }
  }

  /** Every argument name of `gates[from..]`, in document order. */
  function ReferencedNames(gates: seq<Gate>, from: nat): (r: seq<string>)
    requires from <= |gates|
    ensures forall n :: n in r <==> exists k, m :: from <= k < |gates| && 0 <= m < |gates[k].args| && gates[k].args[m].name == n
    decreases |gates| - from
  {
    if from == |gates| then []
    else
      ArgNamesMembership(gates[from].args);
      ArgNames(gates[from].args) + ReferencedNames(gates, from + 1)
  }

  /**
   * Scans `refs[from..]` and appends to `found` every name that neither a
   * definition nor an earlier entry of `found` has, up to case.
   */
  function Collect(defined: seq<string>, refs: seq<string>, from: nat, found: seq<string>): seq<string>
    requires from <= |refs|
    decreases |refs| - from
  {
    if from == |refs| then found
    else if MatchFrom(defined, refs[from], 0) || MatchFrom(found, refs[from], 0) then Collect(defined, refs, from + 1, found)
    else Collect(defined, refs, from + 1, found + [refs[from]])
  }

  /** The referenced names with no definition, once each, in order of first use. */
  function UndefinedEvents(d: Draft): seq<string> {
    Collect(DefinedNames(d), ReferencedNames(d.gates, 0), 0, [])
  }

  ghost predicate Defined(d: Draft, n: string) {
    exists i :: 0 <= i < |DefinedNames(d)| && SameName(DefinedNames(d)[i], n)
  }

  ghost predicate NoTwoSame(xs: seq<string>) {
    forall i, j :: 0 <= i < j < |xs| ==> !SameName(xs[i], xs[j])
  }

  lemma MatchIsDefined(d: Draft)
    ensures forall n :: MatchFrom(DefinedNames(d), n, 0) <==> Defined(d, n)
  {}

  /** What Collect keeps true of `found` after scanning `refs[..from]`. */
  ghost predicate CollectInvariant(defined: seq<string>, refs: seq<string>, from: nat, found: seq<string>)
    requires from <= |refs|
  {
    && NoTwoSame(found)
    && (forall i :: 0 <= i < |found| ==> found[i] in refs && !MatchFrom(defined, found[i], 0))
    && (forall i :: 0 <= i < from ==> MatchFrom(defined, refs[i], 0) || MatchFrom(found, refs[i], 0))
  }

  lemma {:induction false} CollectSkip(defined: seq<string>, refs: seq<string>, from: nat, found: seq<string>)
    requires from < |refs| && CollectInvariant(defined, refs, from, found)
    requires MatchFrom(defined, refs[from], 0) || MatchFrom(found, refs[from], 0)
    ensures CollectInvariant(defined, refs, from + 1, found)
  {}

  lemma {:induction false} CollectAdd(defined: seq<string>, refs: seq<string>, from: nat, found: seq<string>)
    requires from < |refs| && CollectInvariant(defined, refs, from, found)
    requires !MatchFrom(defined, refs[from], 0) && !MatchFrom(found, refs[from], 0)
    ensures CollectInvariant(defined, refs, from + 1, found + [refs[from]])
  {
    var n := refs[from];
    var found' := found + [n];
    assert NoTwoSame(found');
    forall i | 0 <= i < from ensures MatchFrom(defined, refs[i], 0) || MatchFrom(found', refs[i], 0) {
      if MatchFrom(found, refs[i], 0) {
        var m :| 0 <= m < |found| && SameName(found[m], refs[i]);
        assert found'[m] == found[m];
      }
    }
    assert found'[|found|] == n;
    SameNameEquivalence(n, n, n);
    assert MatchFrom(found', n, 0);
  }

  lemma {:induction false} CollectSpec(defined: seq<string>, refs: seq<string>, from: nat, found: seq<string>)
    requires from <= |refs| && CollectInvariant(defined, refs, from, found)
    ensures CollectInvariant(defined, refs, |refs|, Collect(defined, refs, from, found))
    decreases |refs| - from
  {
    if from < |refs| {
      if MatchFrom(defined, refs[from], 0) || MatchFrom(found, refs[from], 0) {
        CollectSkip(defined, refs, from, found);
        CollectSpec(defined, refs, from + 1, found);
      } else {
        CollectAdd(defined, refs, from, found);
        CollectSpec(defined, refs, from + 1, found + [refs[from]]);
      }
    }
  }

  /**
   * The undefined events are exactly the argument names with no definition:
   * each one is referenced and undefined, each referenced undefined name is
   * represented by one of them up to case, and no two are the same up to case.
   */
  lemma UndefinedEventsSpec(d: Draft)
    ensures var u := UndefinedEvents(d);
      && NoTwoSame(u)
      && (forall i :: 0 <= i < |u| ==> u[i] in ReferencedNames(d.gates, 0) && !Defined(d, u[i]))
      && (forall n :: n in ReferencedNames(d.gates, 0) && !Defined(d, n) ==> exists i :: 0 <= i < |u| && SameName(u[i], n))
  {
    var defined := DefinedNames(d);
    var refs := ReferencedNames(d.gates, 0);
    var u := UndefinedEvents(d);
    CollectFromEmpty(defined, refs);
    MatchIsDefined(d);
  }

  /** Collect from the start, stated without the invariant. */
  lemma {:induction false} CollectFromEmpty(defined: seq<string>, refs: seq<string>)
    ensures var u := Collect(defined, refs, 0, []);
      && NoTwoSame(u)
      && (forall i :: 0 <= i < |u| ==> u[i] in refs && !MatchFrom(defined, u[i], 0))
      && (forall n :: n in refs && !MatchFrom(defined, n, 0) ==> exists i :: 0 <= i < |u| && SameName(u[i], n))
  {
    var u := Collect(defined, refs, 0, []);
    CollectSpec(defined, refs, 0, []);
    forall n | n in refs && !MatchFrom(defined, n, 0) ensures exists i :: 0 <= i < |u| && SameName(u[i], n) {
      var k :| 0 <= k < |refs| && refs[k] == n;
      assert MatchFrom(u, refs[k], 0);
    }
  }

  // ---------------------------------------------------------------------
  // The semantic stage

  function TopNames(gates: seq<Gate>, tops: seq<nat>): (r: seq<string>)
    requires forall k :: 0 <= k < |tops| ==> tops[k] < |gates|
    ensures |r| == |tops|
    ensures forall k :: 0 <= k < |tops| ==> r[k] == gates[tops[k]].name
  {
    seq(|tops|, k requires 0 <= k < |tops| => gates[tops[k]].name)
  }

  function Build(d: Draft, tops: seq<nat>): FaultTree
    requires forall k :: 0 <= k < |tops| ==> tops[k] < |d.gates|
  {
    FaultTree(d.name, d.gates, d.basicEvents, d.houseEvents, UndefinedEvents(d), TopNames(d.gates, tops))
  }

  /** The semantic rules, in order; the first one broken is the error. */
  function Validate(d: Draft, multiTop: bool): (r: Result<FaultTree>)
    ensures r.Failure? ==> r.error.FaultTreeError?
  {
    if !GatesRepeatFree(d.gates, 0) then Failure(FaultTreeError(RepeatedArgument))
    else if !DistinctFrom(DefinedNames(d), 0) then Failure(FaultTreeError(Redefinition))
    else if !VotesOk(d.gates, 0) then Failure(FaultTreeError(VoteArity))
    else
      var g := GateGraph(d.gates);
      if Unordered(g) != [] then Failure(FaultTreeError(Cycle))
      else
        var tops := TopCandidates(g);
        if tops == [] then Failure(FaultTreeError(NoTopEvent))
        else if |tops| > 1 && !multiTop then Failure(FaultTreeError(MultipleTopEvents))
        else Success(Build(d, tops))
  }

  /** The translator: the syntax stage, then the semantic stage. */
  function ParseInput(doc: seq<Statement>, multiTop: bool): (r: Result<FaultTree>)
    ensures ParseDocument(doc).Failure? ==> r == Failure(ParseDocument(doc).error)
    ensures ParseDocument(doc).Success? ==> r == Validate(ParseDocument(doc).value, multiTop)
  {
    match ParseDocument(doc)
    case Failure(e) => Failure(e)
    case Success(d) => Validate(d, multiTop)
  }

  // ---------------------------------------------------------------------
  // Properties of the semantic stage

  /** Rules 1-3 hold: no repeated argument, no redefinition, every vote well-sized. */
  ghost predicate LocalRulesHold(d: Draft) {
    && (forall k :: 0 <= k < |d.gates| ==> !HasRepeatedArgument(d.gates[k]))
    && !HasRedefinition(d)
    && (forall k :: 0 <= k < |d.gates| ==> VoteArityOk(d.gates[k]))
  }

  lemma LocalRulesChecked(d: Draft)
    ensures LocalRulesHold(d) <==> GatesRepeatFree(d.gates, 0) && DistinctFrom(DefinedNames(d), 0) && VotesOk(d.gates, 0)
  {
    RedefinitionCheck(d);
  }

  /** A gate with two same-polarity arguments of the same name (up to case) is rejected. */
  lemma RepeatedArgumentRejected(d: Draft, multiTop: bool, k: nat)
    requires k < |d.gates| && HasRepeatedArgument(d.gates[k])
    ensures Validate(d, multiTop) == Failure(FaultTreeError(RepeatedArgument))
  {}

  /** Two definitions of one name (gate, basic or house event, up to case) are rejected. */
  lemma RedefinitionRejected(d: Draft, multiTop: bool)
    requires HasRedefinition(d)
    ensures Validate(d, multiTop).Failure?
    ensures GatesRepeatFree(d.gates, 0) ==> Validate(d, multiTop) == Failure(FaultTreeError(Redefinition))
  {
    RedefinitionCheck(d);
  }

  /** A vote gate `@(K, [...])` over N arguments with K = 0 or K >= N is rejected. */
  lemma VoteArityRejected(d: Draft, multiTop: bool, k: nat)
    requires k < |d.gates| && d.gates[k].op.AtLeast? && !(1 <= d.gates[k].op.k < |d.gates[k].args|)
    ensures Validate(d, multiTop).Failure?
    ensures GatesRepeatFree(d.gates, 0) && !HasRedefinition(d) ==>
      Validate(d, multiTop) == Failure(FaultTreeError(VoteArity))
  {
    assert !VoteArityOk(d.gates[k]);
    RedefinitionCheck(d);
  }

  /** Any cycle among the gates, reachable from a top gate or not, is rejected. */
  lemma CycleRejected(d: Draft, multiTop: bool)
    requires HasCycle(GateGraph(d.gates))
    ensures Validate(d, multiTop).Failure?
    ensures LocalRulesHold(d) ==> Validate(d, multiTop) == Failure(FaultTreeError(Cycle))
  {
    LocalRulesChecked(d);
    CycleIsUnordered(GateGraph(d.gates));
  }

  /** The outcome of the semantic stage once rules 1-3 hold. */
  lemma ValidateGraphRules(d: Draft, multiTop: bool)
    requires LocalRulesHold(d)
    ensures HasCycle(GateGraph(d.gates)) <==> Validate(d, multiTop) == Failure(FaultTreeError(Cycle))
    ensures Validate(d, multiTop) == Failure(FaultTreeError(NoTopEvent)) <==> d.gates == []
    ensures !HasCycle(GateGraph(d.gates)) && d.gates != [] ==> TopCandidates(GateGraph(d.gates)) != []
    ensures Validate(d, multiTop) == Failure(FaultTreeError(MultipleTopEvents)) <==>
      !HasCycle(GateGraph(d.gates)) && |TopCandidates(GateGraph(d.gates))| > 1 && !multiTop
    ensures Validate(d, multiTop).Success? <==>
      !HasCycle(GateGraph(d.gates)) && d.gates != [] && (multiTop || |TopCandidates(GateGraph(d.gates))| == 1)
  {
    var g := GateGraph(d.gates);
    LocalRulesChecked(d);
    GateGraphClosed(d.gates);
    UnorderedIffCycle(g);
    if d.gates != [] && TopCandidates(g) == [] { NoTopHasCycle(g); }
    if d.gates == [] {
      assert g == [];
      assert Unordered(g) == [];
    }
  }

  /** A tree without a top event arises only from a document without gates. */
  lemma NoTopEventMeansNoGates(d: Draft, multiTop: bool)
    requires Validate(d, multiTop) == Failure(FaultTreeError(NoTopEvent))
    ensures d.gates == []
  {
    LocalRulesChecked(d);
    ValidateGraphRules(d, multiTop);
  }

  /** Several top candidates: an error by default, a forest with the flag. */
  lemma MultipleTops(d: Draft)
    requires LocalRulesHold(d) && !HasCycle(GateGraph(d.gates))
    requires |TopCandidates(GateGraph(d.gates))| >= 2
    ensures Validate(d, false) == Failure(FaultTreeError(MultipleTopEvents))
    ensures Validate(d, true).Success?
    ensures |Validate(d, true).value.topEvents| == |TopCandidates(GateGraph(d.gates))|
  {
    ValidateGraphRules(d, false);
    ValidateGraphRules(d, true);
  }

  /**
   * What an accepted tree holds: the gates, basic and house events of the
   * document (orphans included), its undefined events, and as top events
   * the gates no gate names as an argument.
   */
  lemma AcceptedTree(d: Draft, multiTop: bool)
    requires Validate(d, multiTop).Success?
    ensures var t := Validate(d, multiTop).value;
      && t.name == d.name && t.gates == d.gates
      && t.basicEvents == d.basicEvents && t.houseEvents == d.houseEvents
      && t.undefinedEvents == UndefinedEvents(d)
      && |t.topEvents| >= 1 && (!multiTop ==> |t.topEvents| == 1)
      && (forall n :: n in t.topEvents <==>
            exists j :: 0 <= j < |d.gates| && d.gates[j].name == n && forall i :: 0 <= i < |d.gates| ==> !Mentions(d.gates, i, j))
  {
    LocalRulesChecked(d);
    DistinctDefinitionsDistinctGates(d);
    TopNamesByReference(d.gates);
  }

  /** With distinct gate names, the top names are the names of the gates no gate mentions. */
  lemma TopNamesByReference(gates: seq<Gate>)
    requires GateNamesDistinct(gates)
    ensures var tops := TopCandidates(GateGraph(gates));
      forall n :: n in TopNames(gates, tops) <==>
        exists j :: 0 <= j < |gates| && gates[j].name == n && forall i :: 0 <= i < |gates| ==> !Mentions(gates, i, j)
  {
    var tops := TopCandidates(GateGraph(gates));
    var names := TopNames(gates, tops);
    forall n ensures n in names <==>
      exists j :: 0 <= j < |gates| && gates[j].name == n && forall i :: 0 <= i < |gates| ==> !Mentions(gates, i, j)
    {
      if n in names {
        var k :| 0 <= k < |tops| && names[k] == n;
        TopCandidateByName(gates, tops[k]);
      }
      if exists j :: 0 <= j < |gates| && gates[j].name == n && forall i :: 0 <= i < |gates| ==> !Mentions(gates, i, j) {
        var j :| 0 <= j < |gates| && gates[j].name == n && forall i :: 0 <= i < |gates| ==> !Mentions(gates, i, j);
        TopCandidateByName(gates, j);
        var k :| 0 <= k < |tops| && tops[k] == j;
        assert names[k] == n;
      }
    }
  }

  /** The tree of a document has one gate per gate line. */
  lemma {:induction false} GateCount(doc: seq<Statement>, multiTop: bool)
    requires ParseInput(doc, multiTop).Success?
    ensures |ParseInput(doc, multiTop).value.gates| == CountGateLines(doc, 1)
    ensures |ParseInput(doc, multiTop).value.basicEvents| == CountProbabilityLines(doc, 1)
    ensures |ParseInput(doc, multiTop).value.houseEvents| == CountStateLines(doc, 1)
  {
    BodyAccepted(doc, 1, Draft(doc[0].text, [], [], []));
  }

  /** The errors of the translator: the syntax stage's kinds come first. */
  lemma ErrorKinds(doc: seq<Statement>, multiTop: bool)
    ensures ParseInput(doc, multiTop).Failure? && ParseInput(doc, multiTop).error.FaultTreeError? ==>
      ParseDocument(doc).Success?
    ensures ParseDocument(doc).Failure? ==> ParseInput(doc, multiTop).Failure?
  {}

  /** A document the syntax stage accepts, stated without the checks. */
  ghost predicate WellFormedDocument(doc: seq<Statement>) {
    && |doc| > 0 && doc[0].NameLine? && WellFormedName(doc[0].text)
    && forall k :: 1 <= k < |doc| ==> WellFormedStatement(doc[k])
  }

  /** The semantic rules a draft must meet to become a tree, stated without the checks. */
  ghost predicate TreeRulesHold(d: Draft, multiTop: bool) {
    && LocalRulesHold(d)
    && !HasCycle(GateGraph(d.gates))
    && d.gates != []
    && (multiTop || |TopCandidates(GateGraph(d.gates))| == 1)
  }

  /**
   * The translator in declarative terms: which documents give a tree, which
   * give a syntax-level error, and what an accepted tree holds.
   */
  lemma ParseInputSpec(doc: seq<Statement>, multiTop: bool)
    ensures ParseInput(doc, multiTop).Success? <==>
      && WellFormedDocument(doc) && ParseDocument(doc).Success?
      && TreeRulesHold(ParseDocument(doc).value, multiTop)
    ensures ParseInput(doc, multiTop).Failure? && !ParseInput(doc, multiTop).error.FaultTreeError? <==>
      !WellFormedDocument(doc)
    ensures ParseInput(doc, multiTop).Success? ==>
      var t := ParseInput(doc, multiTop).value;
      var d := ParseDocument(doc).value;
      && doc[0] == NameLine(t.name)
      && t.gates == d.gates && t.basicEvents == d.basicEvents && t.houseEvents == d.houseEvents
      && |t.gates| == CountGateLines(doc, 1)
      && |t.basicEvents| == CountProbabilityLines(doc, 1)
      && |t.houseEvents| == CountStateLines(doc, 1)
      && t.undefinedEvents == UndefinedEvents(d)
      && |t.topEvents| >= 1 && (!multiTop ==> |t.topEvents| == 1)
      && (forall n :: n in t.topEvents <==>
            exists j :: 0 <= j < |d.gates| && d.gates[j].name == n && forall i :: 0 <= i < |d.gates| ==> !Mentions(d.gates, i, j))
  {
    DocumentAccepted(doc);
    if ParseDocument(doc).Success? {
      var d := ParseDocument(doc).value;
      LocalRulesChecked(d);
      if LocalRulesHold(d) {
        ValidateGraphRules(d, multiTop);
      }
      if Validate(d, multiTop).Success? {
        AcceptedTree(d, multiTop);
        GateCount(doc, multiTop);
      }
    }
  }

  function DraftOf(t: FaultTree): Draft {
    Draft(t.name, t.gates, t.basicEvents, t.houseEvents)
  }

  /** Validating the definitions of an accepted tree again gives the same tree. */
  lemma RevalidateIdempotent(d: Draft, multiTop: bool)
    requires Validate(d, multiTop).Success?
    ensures Validate(DraftOf(Validate(d, multiTop).value), multiTop) == Validate(d, multiTop)
    ensures WellFormedDraft(d) ==>
      ParseInput(Unparse(DraftOf(Validate(d, multiTop).value)), multiTop) == Validate(d, multiTop)
  {
    assert DraftOf(Validate(d, multiTop).value) == d;
    if WellFormedDraft(d) { UnparseRoundTrip(d); }
  }

  // ---------------------------------------------------------------------
  // Small sequence and name facts, each stated once so that the larger
  // proofs above cite them instead of re-deriving them in their own, more
  // costly proof contexts.  They are proof aids, not properties of the
  // translator.

  lemma AppendFirst<T>(a: seq<T>, x: seq<T>)
    requires |x| > 0
    ensures (a + [x[0]]) + x[1..] == a + x
  {
    assert [x[0]] + x[1..] == x;
  }

  lemma PrefixSnoc<T>(a: seq<T>, x: seq<T>, i: nat)
    requires i < |x|
    ensures (a + x[..i]) + [x[i]] == a + x[..i + 1]
  {
    assert x[..i + 1] == x[..i] + [x[i]];
  }

  /** The draft after one more gate of `gates` is read. */
  lemma DraftSnoc(d: Draft, gates: seq<Gate>, i: nat)
    requires i < |gates|
    ensures d.(gates := d.gates + gates[..i]).(gates := d.gates + gates[..i] + [gates[i]])
         == d.(gates := d.gates + gates[..i + 1])
  {
    PrefixSnoc(d.gates, gates, i);
  }
}
