/**
 * Gate formulas of the Aralia language, at the level of tokens.
 *
 * A formula is one of
 *   ref                       -- pass-through (`null`)
 *   ~( ref )                  -- negation (`not`), ref possibly complemented
 *   ref c ref (c ref)*        -- one repeated connective c among & | ^,
 *                                optionally inside one pair of parentheses;
 *                                `^` takes exactly two operands
 *   @( K , [ ref (, ref)* ] ) -- K-out-of-N vote (`atleast`)
 * where ref is an identifier, optionally preceded by `~` (a complement).
 */
module Formulas {

  datatype Token =
    | Ident(name: string)
    | Tilde | Amp | Bar | Caret | At
    | LParen | RParen | LBracket | RBracket | Comma
    | Number(value: nat)
    | Arith(symbol: char)

  datatype Op = Null | Not | And | Or | Xor | AtLeast(k: nat)

  /** A reference to an event or gate, possibly complemented. */
  datatype Arg = Arg(name: string, negated: bool)

  datatype Formula = Formula(op: Op, args: seq<Arg>)

  datatype Option<T> = None | Some(value: T)

  predicate IsConnective(t: Token) { t == Amp || t == Bar || t == Caret }

  predicate IsChainOp(op: Op) { op == And || op == Or || op == Xor }

  function ConnectiveOp(t: Token): Op
    requires IsConnective(t)
  {
    match t
    case Amp => And
    case Bar => Or
    case Caret => Xor
  }

  function ConnectiveToken(op: Op): Token
    requires IsChainOp(op)
  {
    match op
    case And => Amp
    case Or => Bar
    case Xor => Caret
  }

  /** The tokens that may stand right before a complement sign. */
  predicate IsOpener(t: Token) { IsConnective(t) || t == Comma || t == LParen || t == LBracket }

  // ---------------------------------------------------------------------
  // The written form of a formula

  function RefTokens(a: Arg): seq<Token> {
    if a.negated then [Tilde, Ident(a.name)] else [Ident(a.name)]
  }

  /** `sep ref sep ref ...`, one separator before each argument. */
  function Joined(args: seq<Arg>, sep: Token): seq<Token> {
    if args == [] then [] else [sep] + RefTokens(args[0]) + Joined(args[1..], sep)
  }

  function ArgList(args: seq<Arg>, sep: Token): seq<Token>
    requires |args| >= 1
  {
    RefTokens(args[0]) + Joined(args[1..], sep)
  }

  /** The formulas the grammar can write down. */
  predicate Expressible(f: Formula) {
    match f.op
    case Null => |f.args| == 1
    case Not => |f.args| == 1
    case And => |f.args| >= 2
    case Or => |f.args| >= 2
    case Xor => |f.args| == 2
    case AtLeast(_) => |f.args| >= 1
  }

  /** The canonical written form: no wrapping parentheses around a chain. */
  function Render(f: Formula): seq<Token>
    requires Expressible(f)
  {
    match f.op
    case Null => RefTokens(f.args[0])
    case Not => [Tilde, LParen] + RefTokens(f.args[0]) + [RParen]
    case AtLeast(k) => [At, LParen, Number(k), Comma, LBracket] + ArgList(f.args, Comma) + [RBracket, RParen]
    case _ => ArgList(f.args, ConnectiveToken(f.op))
  }

  function Wrapped(ts: seq<Token>): seq<Token> { [LParen] + ts + [RParen] }

  /** Every written form of f: the canonical one, and a chain in one pair of parentheses. */
  predicate IsWrittenForm(ts: seq<Token>, f: Formula) {
    Expressible(f) && (ts == Render(f) || (IsChainOp(f.op) && ts == Wrapped(Render(f))))
  }

  // ---------------------------------------------------------------------
  // The classifier

  function ParseRef(ts: seq<Token>): (r: Option<(Arg, seq<Token>)>)
    ensures r.Some? ==> ts == RefTokens(r.value.0) + r.value.1
  {
    if |ts| >= 1 && ts[0].Ident? then Some((Arg(ts[0].name, false), ts[1..]))
    else if |ts| >= 2 && ts[0] == Tilde && ts[1].Ident? then Some((Arg(ts[1].name, true), ts[2..]))
    else None
  }

  /** Parses `(sep ref)*` and nothing after it. */
  function ParseTail(ts: seq<Token>, sep: Token): (r: Option<seq<Arg>>)
    ensures r.Some? ==> ts == Joined(r.value, sep)
    decreases |ts|
  {
    if ts == [] then Some([])
    else if ts[0] != sep then None
    else
      match ParseRef(ts[1..])
      case None => None
      case Some((a, rest)) =>
        match ParseTail(rest, sep)
        case None => None
        case Some(more) => Some([a] + more)
  }

  /** Parses `ref (sep ref)*` and nothing after it. */
  function ParseList(ts: seq<Token>, sep: Token): (r: Option<seq<Arg>>)
    ensures r.Some? ==> |r.value| >= 1 && ts == ArgList(r.value, sep)
  {
    match ParseRef(ts)
    case None => None
    case Some((a, rest)) =>
      match ParseTail(rest, sep)
      case None => None
      case Some(more) => Some([a] + more)
  }

  /** A single reference, or a chain of references over one connective. */
  function ParseChain(ts: seq<Token>): (r: Option<Formula>)
    ensures r.Some? ==> Expressible(r.value) && ts == Render(r.value)
    ensures r.Some? ==> r.value.op == Null || IsChainOp(r.value.op)
  {
    match ParseRef(ts)
    case None => None
    case Some((a, rest)) =>
      if rest == [] then Some(Formula(Null, [a]))
      else if !IsConnective(rest[0]) then None
      else
        match ParseTail(rest, rest[0])
        case None => None
        case Some(more) =>
          if rest[0] == Caret && |more| != 1 then None
          else Some(Formula(ConnectiveOp(rest[0]), [a] + more))
  }

  lemma NotSplit(ts: seq<Token>)
    requires |ts| >= 3 && ts[0] == Tilde && ts[1] == LParen && ts[|ts| - 1] == RParen
    ensures ts == [Tilde, LParen] + ts[2..|ts| - 1] + [RParen]
  {}

  lemma VoteSplit(ts: seq<Token>)
    requires |ts| >= 7 && ts[0] == At && ts[1] == LParen && ts[2].Number? && ts[3] == Comma && ts[4] == LBracket
    requires ts[|ts| - 2] == RBracket && ts[|ts| - 1] == RParen
    ensures ts == [At, LParen, Number(ts[2].value), Comma, LBracket] + ts[5..|ts| - 2] + [RBracket, RParen]
  {}

  function ParseNot(ts: seq<Token>): (r: Option<Formula>)
    requires |ts| >= 2 && ts[0] == Tilde && ts[1] == LParen
    ensures r.Some? ==> r.value.op == Not && Expressible(r.value) && ts == Render(r.value)
  {
    if |ts| >= 3 && ts[|ts| - 1] == RParen then
      match ParseRef(ts[2..|ts| - 1])
      case None => None
      case Some((a, rest)) =>
        if rest != [] then None
        else
          NotSplit(ts);
          Some(Formula(Not, [a]))
    else None
  }

  function ParseVote(ts: seq<Token>): (r: Option<Formula>)
    requires |ts| >= 1 && ts[0] == At
    ensures r.Some? ==> r.value.op.AtLeast? && Expressible(r.value) && ts == Render(r.value)
  {
    if && |ts| >= 7 && ts[1] == LParen && ts[2].Number? && ts[3] == Comma && ts[4] == LBracket
       && ts[|ts| - 2] == RBracket && ts[|ts| - 1] == RParen
    then
      match ParseList(ts[5..|ts| - 2], Comma)
      case None => None
      case Some(args) =>
        VoteSplit(ts);
        Some(Formula(AtLeast(ts[2].value), args))
    else None
  }

  /**
   * Classifies the tokens of one formula into an operator and its arguments,
   * or rejects them (a parsing error).  Whatever it accepts is a written form
   * of the formula it returns.
   */
  function Classify(ts: seq<Token>): (r: Option<Formula>)
    ensures r.Some? ==> IsWrittenForm(ts, r.value)
  {
    if |ts| >= 1 && ts[0] == At then ParseVote(ts)
    else if |ts| >= 2 && ts[0] == Tilde && ts[1] == LParen then ParseNot(ts)
    else if |ts| >= 2 && ts[0] == LParen && ts[|ts| - 1] == RParen then
      match ParseChain(ts[1..|ts| - 1])
      case None => None
      case Some(f) =>
        if f.op == Null then None
        else
          assert ts == Wrapped(ts[1..|ts| - 1]);
          Some(f)
    else ParseChain(ts)
  }

  // ---------------------------------------------------------------------
  // Completeness: every written form is classified back to its formula

  lemma ParseRefOf(a: Arg, rest: seq<Token>)
    ensures ParseRef(RefTokens(a) + rest) == Some((a, rest))
  {
    var ts := RefTokens(a) + rest;
    if a.negated { assert ts[2..] == rest; } else { assert ts[1..] == rest; }
  }

  lemma {:induction false} ParseTailOf(args: seq<Arg>, sep: Token)
    requires !sep.Ident? && sep != Tilde
    ensures ParseTail(Joined(args, sep), sep) == Some(args)
  {
    if args != [] {
      var ts := Joined(args, sep);
      assert ts[1..] == RefTokens(args[0]) + Joined(args[1..], sep);
      ParseRefOf(args[0], Joined(args[1..], sep));
      ParseTailOf(args[1..], sep);
      assert [args[0]] + args[1..] == args;
    }
  }

  lemma ParseListOf(args: seq<Arg>, sep: Token)
    requires |args| >= 1 && !sep.Ident? && sep != Tilde
    ensures ParseList(ArgList(args, sep), sep) == Some(args)
  {
    ParseRefOf(args[0], Joined(args[1..], sep));
    ParseTailOf(args[1..], sep);
    assert [args[0]] + args[1..] == args;
  }

  lemma ParseChainOf(f: Formula)
    requires Expressible(f) && (f.op == Null || IsChainOp(f.op))
    ensures ParseChain(Render(f)) == Some(f)
  {
    if f.op == Null {
      assert Render(f) == RefTokens(f.args[0]) + [];
      ParseRefOf(f.args[0], []);
      assert f.args == [f.args[0]];
    } else {
      var c := ConnectiveToken(f.op);
      assert Render(f) == RefTokens(f.args[0]) + Joined(f.args[1..], c);
      ParseRefOf(f.args[0], Joined(f.args[1..], c));
      ParseTailOf(f.args[1..], c);
      assert [f.args[0]] + f.args[1..] == f.args;
      JoinedHead(f.args[1..], c);
    }
  }

  lemma {:induction false} JoinedHead(args: seq<Arg>, sep: Token)
    ensures args != [] ==> |Joined(args, sep)| > 0 && Joined(args, sep)[0] == sep
  {}

  lemma ParseNotOf(f: Formula)
    requires Expressible(f) && f.op == Not
    ensures Classify(Render(f)) == Some(f)
  {
    var ts := Render(f);
    assert ts[2..|ts| - 1] == RefTokens(f.args[0]) + [];
    ParseRefOf(f.args[0], []);
    assert f.args == [f.args[0]];
  }

  lemma ParseVoteOf(f: Formula)
    requires Expressible(f) && f.op.AtLeast?
    ensures Classify(Render(f)) == Some(f)
  {
    var ts := Render(f);
    assert ts[5..|ts| - 2] == ArgList(f.args, Comma);
    ParseListOf(f.args, Comma);
  }

  lemma ParseWrappedOf(f: Formula)
    requires Expressible(f) && IsChainOp(f.op)
    ensures Classify(Render(f)) == Some(f)
    ensures Classify(Wrapped(Render(f))) == Some(f)
  {
    var ts := Render(f);
    ParseChainOf(f);
    assert ts[0].Ident? || (ts[0] == Tilde && ts[1].Ident?);
    var w := Wrapped(ts);
    assert w[1..|w| - 1] == ts;
  }

  /** The classifier accepts every written form of every expressible formula. */
  lemma ClassifyComplete(f: Formula)
    requires Expressible(f)
    ensures Classify(Render(f)) == Some(f)
    ensures IsChainOp(f.op) ==> Classify(Wrapped(Render(f))) == Some(f)
  {
    if f.op == Null {
      ParseChainOf(f);
      assert Render(f)[0].Ident? || (Render(f)[0] == Tilde && Render(f)[1].Ident?);
    } else if f.op == Not {
      ParseNotOf(f);
    } else if f.op.AtLeast? {
      ParseVoteOf(f);
    } else {
      ParseWrappedOf(f);
    }
  }

  /** Classification in both directions: accepted exactly on the written forms. */
  lemma ClassifyExactly(ts: seq<Token>, f: Formula)
    ensures Classify(ts) == Some(f) <==> IsWrittenForm(ts, f)
  {
    if IsWrittenForm(ts, f) { ClassifyComplete(f); }
  }

  // ---------------------------------------------------------------------
  // Token-level shape of every accepted formula

  /** Every complement sign stands first or right after an opener. */
  predicate TildeGuarded(ts: seq<Token>) {
    forall i :: 1 <= i < |ts| && ts[i] == Tilde ==> IsOpener(ts[i - 1])
  }

  lemma TildeGuardedConcat(x: seq<Token>, y: seq<Token>)
    requires TildeGuarded(x) && TildeGuarded(y)
    requires |x| > 0 && |y| > 0 && y[0] == Tilde ==> IsOpener(x[|x| - 1])
    ensures TildeGuarded(x + y)
  {
    var z := x + y;
    forall i | 1 <= i < |z| && z[i] == Tilde ensures IsOpener(z[i - 1]) {
      if i < |x| { assert z[i] == x[i] && z[i - 1] == x[i - 1]; }
      else if i == |x| { assert z[i] == y[0] && z[i - 1] == x[|x| - 1]; }
      else { assert z[i] == y[i - |x|] && z[i - 1] == y[i - |x| - 1]; }
    }
  }

  /** Number of occurrences of t in ts. */
  function Count(ts: seq<Token>, t: Token): nat {
    if ts == [] then 0 else (if ts[0] == t then 1 else 0) + Count(ts[1..], t)
  }

  lemma {:induction false} CountConcat(x: seq<Token>, y: seq<Token>, t: Token)
    ensures Count(x + y, t) == Count(x, t) + Count(y, t)
  {
    if x == [] {
      assert x + y == y;
    } else {
      assert (x + y)[1..] == x[1..] + y;
      CountConcat(x[1..], y, t);
    }
  }

  lemma {:induction false} CountAbsent(ts: seq<Token>, t: Token)
    requires t !in ts
    ensures Count(ts, t) == 0
  {
    if ts != [] {
      assert forall u :: u in ts[1..] ==> u in ts;
      CountAbsent(ts[1..], t);
    }
  }

  /** The tokens a separated argument list is made of. */
  ghost predicate ListShape(ts: seq<Token>, sep: Token) {
    && (forall t :: t in ts ==> t == sep || t == Tilde || t.Ident?)
    && TildeGuarded(ts)
  }

  lemma ListShapeConcat(x: seq<Token>, y: seq<Token>, sep: Token)
    requires ListShape(x, sep) && ListShape(y, sep)
    requires |x| > 0 && |y| > 0 && y[0] == Tilde ==> IsOpener(x[|x| - 1])
    ensures ListShape(x + y, sep)
  {
    TildeGuardedConcat(x, y);
  }

  lemma RefListShape(a: Arg, sep: Token)
    requires IsOpener(sep)
    ensures ListShape(RefTokens(a), sep) && Count(RefTokens(a), sep) == 0
  {
    CountAbsent(RefTokens(a), sep);
  }

  lemma SepListShape(sep: Token)
    ensures ListShape([sep], sep) && Count([sep], sep) == 1
  {
    assert [sep][1..] == [];
  }

  lemma {:induction false} JoinedShape(args: seq<Arg>, sep: Token)
    requires IsOpener(sep)
    ensures ListShape(Joined(args, sep), sep)
    ensures Count(Joined(args, sep), sep) == |args|
  {
    if args != [] {
      var r := RefTokens(args[0]);
      JoinedShape(args[1..], sep);
      RefListShape(args[0], sep);
      SepListShape(sep);
      ListShapeConcat([sep], r, sep);
      JoinedHead(args[1..], sep);
      ListShapeConcat([sep] + r, Joined(args[1..], sep), sep);
      CountConcat([sep] + r, Joined(args[1..], sep), sep);
      CountConcat([sep], r, sep);
    }
  }

  lemma {:induction false} ArgListShape(args: seq<Arg>, sep: Token)
    requires |args| >= 1 && IsOpener(sep)
    ensures ListShape(ArgList(args, sep), sep)
    ensures Count(ArgList(args, sep), sep) == |args| - 1
  {
    var r := RefTokens(args[0]);
    JoinedShape(args[1..], sep);
    RefListShape(args[0], sep);
    JoinedHead(args[1..], sep);
    ListShapeConcat(r, Joined(args[1..], sep), sep);
    CountConcat(r, Joined(args[1..], sep), sep);
  }

  /** What every written form looks like, token by token. */
  ghost predicate AcceptedShape(ts: seq<Token>, f: Formula) {
    && (forall t :: t in ts ==> !t.Arith?)
    && (forall t :: t in ts && IsConnective(t) ==> IsChainOp(f.op) && t == ConnectiveToken(f.op))
    && (At in ts ==> f.op.AtLeast?)
    && Count(ts, Caret) <= 1
    && Count(ts, LParen) <= 1
    && Count(ts, LParen) == Count(ts, RParen)
    && TildeGuarded(ts)
  }

  lemma NullShape(f: Formula)
    requires Expressible(f) && f.op == Null
    ensures AcceptedShape(Render(f), f)
  {
    var ts := Render(f);
    CountAbsent(ts, Caret);
    CountAbsent(ts, LParen);
    CountAbsent(ts, RParen);
  }

  /** The shape facts of one piece of a written form. */
  ghost predicate PieceShape(x: seq<Token>, f: Formula) {
    && (forall t :: t in x ==> !t.Arith?)
    && (forall t :: t in x && IsConnective(t) ==> IsChainOp(f.op) && t == ConnectiveToken(f.op))
    && (At in x ==> f.op.AtLeast?)
    && TildeGuarded(x)
  }

  /** The shape facts, assembled from a prefix, a middle part and a suffix. */
  lemma {:induction false} ShapeOfThree(x: seq<Token>, y: seq<Token>, z: seq<Token>, f: Formula)
    requires PieceShape(x, f) && PieceShape(y, f) && PieceShape(z, f)
    requires |x| > 0 && |y| > 0 && y[0] == Tilde ==> IsOpener(x[|x| - 1])
    requires |z| > 0 ==> z[0] != Tilde
    requires Count(x, LParen) + Count(y, LParen) + Count(z, LParen) <= 1
    requires Count(x, LParen) + Count(y, LParen) + Count(z, LParen)
          == Count(x, RParen) + Count(y, RParen) + Count(z, RParen)
    requires Count(x, Caret) + Count(y, Caret) + Count(z, Caret) <= 1
    ensures AcceptedShape(x + y + z, f)
  {
    TildeGuardedConcat(x, y);
    TildeGuardedConcat(x + y, z);
    CountConcat(x + y, z, LParen);
    CountConcat(x, y, LParen);
    CountConcat(x + y, z, RParen);
    CountConcat(x, y, RParen);
    CountConcat(x + y, z, Caret);
    CountConcat(x, y, Caret);
  }

  lemma RefPieceShape(a: Arg, f: Formula)
    ensures PieceShape(RefTokens(a), f)
    ensures Count(RefTokens(a), LParen) == 0 && Count(RefTokens(a), RParen) == 0 && Count(RefTokens(a), Caret) == 0
  {
    CountAbsent(RefTokens(a), LParen);
    CountAbsent(RefTokens(a), RParen);
    CountAbsent(RefTokens(a), Caret);
  }

  lemma NotHeadShape(f: Formula)
    ensures PieceShape([Tilde, LParen], f)
    ensures Count([Tilde, LParen], LParen) == 1 && Count([Tilde, LParen], RParen) == 0 && Count([Tilde, LParen], Caret) == 0
  {
    assert [Tilde, LParen][1..] == [LParen];
  }

  lemma NotShape(f: Formula)
    requires Expressible(f) && f.op == Not
    ensures AcceptedShape(Render(f), f)
  {
    var r := RefTokens(f.args[0]);
    assert Render(f) == [Tilde, LParen] + r + [RParen];
    RefPieceShape(f.args[0], f);
    NotHeadShape(f);
    ParenShape(f);
    ShapeOfThree([Tilde, LParen], r, [RParen], f);
  }

  lemma {:induction false} ListPieceShape(args: seq<Arg>, sep: Token, f: Formula)
    requires |args| >= 1 && (sep == Comma || IsConnective(sep))
    requires IsConnective(sep) ==> IsChainOp(f.op) && sep == ConnectiveToken(f.op)
    ensures PieceShape(ArgList(args, sep), f)
    ensures Count(ArgList(args, sep), sep) == |args| - 1
    ensures Count(ArgList(args, sep), LParen) == 0 && Count(ArgList(args, sep), RParen) == 0
    ensures sep != Caret ==> Count(ArgList(args, sep), Caret) == 0
  {
    var ts := ArgList(args, sep);
    ArgListShape(args, sep);
    CountAbsent(ts, LParen);
    CountAbsent(ts, RParen);
    if sep != Caret { CountAbsent(ts, Caret); }
  }

  lemma VoteHeadShape(k: nat, f: Formula)
    requires f.op.AtLeast?
    ensures PieceShape([At, LParen, Number(k), Comma, LBracket], f)
    ensures PieceShape([RBracket, RParen], f)
    ensures Count([At, LParen, Number(k), Comma, LBracket], LParen) == 1
    ensures Count([At, LParen, Number(k), Comma, LBracket], RParen) == 0
    ensures Count([At, LParen, Number(k), Comma, LBracket], Caret) == 0
    ensures Count([RBracket, RParen], LParen) == 0
    ensures Count([RBracket, RParen], RParen) == 1
    ensures Count([RBracket, RParen], Caret) == 0
  {
    var head: seq<Token> := [At, LParen, Number(k), Comma, LBracket];
    assert head[1..] == [LParen, Number(k), Comma, LBracket];
    assert head[2..] == [Number(k), Comma, LBracket];
    CountAbsent(head[2..], LParen);
    CountAbsent(head, RParen);
    CountAbsent(head, Caret);
  }

  lemma VoteShape(f: Formula)
    requires Expressible(f) && f.op.AtLeast?
    ensures AcceptedShape(Render(f), f)
  {
    var head: seq<Token> := [At, LParen, Number(f.op.k), Comma, LBracket];
    var body := ArgList(f.args, Comma);
    var tail: seq<Token> := [RBracket, RParen];
    assert Render(f) == head + body + tail;
    ListPieceShape(f.args, Comma, f);
    VoteHeadShape(f.op.k, f);
    ShapeOfThree(head, body, tail, f);
  }

  lemma ParenShape(f: Formula)
    ensures PieceShape([LParen], f) && PieceShape([RParen], f)
    ensures Count([LParen], LParen) == 1 && Count([LParen], RParen) == 0 && Count([LParen], Caret) == 0
    ensures Count([RParen], LParen) == 0 && Count([RParen], RParen) == 1 && Count([RParen], Caret) == 0
  {}

  lemma ChainShape(f: Formula)
    requires Expressible(f) && IsChainOp(f.op)
    ensures AcceptedShape(Render(f), f)
    ensures AcceptedShape(Wrapped(Render(f)), f)
  {
    var c := ConnectiveToken(f.op);
    var ts := Render(f);
    ListPieceShape(f.args, c, f);
    assert ts == [] + ts + [];
    ShapeOfThree([], ts, [], f);
    ParenShape(f);
    ShapeOfThree([LParen], ts, [RParen], f);
  }

  lemma RenderShape(f: Formula)
    requires Expressible(f)
    ensures AcceptedShape(Render(f), f)
    ensures IsChainOp(f.op) ==> AcceptedShape(Wrapped(Render(f)), f)
  {
    if f.op == Null { NullShape(f); }
    else if f.op == Not { NotShape(f); }
    else if f.op.AtLeast? { VoteShape(f); }
    else { ChainShape(f); }
  }

  lemma AcceptedHasShape(ts: seq<Token>)
    requires Classify(ts).Some?
    ensures AcceptedShape(ts, Classify(ts).value)
  {
    RenderShape(Classify(ts).value);
  }

  // ---------------------------------------------------------------------
  // The syntax errors, each for all inputs

  /** An arithmetic operator (+, -, *, /) is never part of a formula. */
  lemma ArithmeticRejected(ts: seq<Token>, i: nat)
    requires i < |ts| && ts[i].Arith?
    ensures Classify(ts) == None
  {
    assert ts[i] in ts;
    if Classify(ts).Some? { AcceptedHasShape(ts); }
  }

  /** Two different connectives need an intermediate named gate. */
  lemma MixedConnectivesRejected(ts: seq<Token>, i: nat, j: nat)
    requires i < |ts| && j < |ts| && IsConnective(ts[i]) && IsConnective(ts[j]) && ts[i] != ts[j]
    ensures Classify(ts) == None
  {
    assert ts[i] in ts && ts[j] in ts;
    if Classify(ts).Some? { AcceptedHasShape(ts); }
  }

  /** A vote cannot be combined with a connective in one formula. */
  lemma VoteWithConnectiveRejected(ts: seq<Token>, i: nat)
    requires At in ts && i < |ts| && IsConnective(ts[i])
    ensures Classify(ts) == None
  {
    assert ts[i] in ts;
    if Classify(ts).Some? { AcceptedHasShape(ts); }
  }

  /** `^` joins exactly two operands: a second `^` is an error. */
  lemma {:induction false} RepeatedXorRejected(ts: seq<Token>)
    requires Count(ts, Caret) >= 2
    ensures Classify(ts) == None
  {
    if Classify(ts).Some? { AcceptedHasShape(ts); }
  }

  /** Unbalanced parentheses. */
  lemma {:induction false} UnbalancedParenthesesRejected(ts: seq<Token>)
    requires Count(ts, LParen) != Count(ts, RParen)
    ensures Classify(ts) == None
  {
    if Classify(ts).Some? { AcceptedHasShape(ts); }
  }

  /** A second, redundant level of parentheses. */
  lemma {:induction false} NestedParenthesesRejected(ts: seq<Token>)
    requires Count(ts, LParen) >= 2
    ensures Classify(ts) == None
  {
    if Classify(ts).Some? { AcceptedHasShape(ts); }
  }

  /** A complement sign right after an identifier or another complement sign. */
  lemma UngroupedNegationRejected(ts: seq<Token>, i: nat)
    requires 1 <= i < |ts| && ts[i] == Tilde && !IsOpener(ts[i - 1])
    ensures Classify(ts) == None
  {
    if Classify(ts).Some? { AcceptedHasShape(ts); }
  }
}
