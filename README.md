# Aralia fault-tree translator and basic events, in Dafny

This project models two parts of a fault-tree tool.

The first is the translator for the Aralia language. An Aralia document names a fault tree on its first line. The lines after that are of three kinds:

- gate definitions `g := formula`;
- probability lines `p(e) = v`;
- house-event state lines `s(h) = true|false`.

`parse_input(text, multi_top)` either returns a fault tree or raises one of three errors:

- `FormatError`: the tree name is missing, or it is given twice;
- `ParsingError`: a name or a formula is malformed;
- `FaultTreeError`: the lines are well formed but break a rule of the tree.

The model is `Aralia.ParseInput`. It runs two stages.

1. The syntax stage is `ParseDocument`. It reads the statements in order and stops at the first bad one.
2. The semantic stage is `Validate`. It checks these rules in order, and the first rule broken gives the error:
   - no gate repeats an argument, compared up to case and with the same polarity;
   - no name has two definitions, whether gate, basic event or house event, compared up to case;
   - every vote `@(K, [...])` over N arguments has 1 <= K < N;
   - the gates do not form a cycle;
   - there is a top gate;
   - there is only one top gate, unless `multi_top` is set.

`Aralia.ParseInputSpec` states the whole translator without reference to its checks: which documents give a tree, which give a syntax-level error, and what an accepted tree holds.

An accepted tree holds:

- the gates, basic events and house events of the document, in document order, orphans included;
- the undefined events: names used as arguments that nothing defines;
- the names of the top gates.

The expected behaviour comes from the test suite `translators/test/test_aralia.py`. Every test case in it except test_main is replayed in the modules `AraliaTests`, `AraliaTreeTests` and `AraliaCorrectTest` as lemmas about `ParseInput` on the test's own document. A test that expects an exception becomes a lemma stating the exact error.

The second part is the `BasicEvent` class of `fault_tree/event/basic_event.py`. It is modelled as a Dafny class with a mutable probability field. Its setter refuses, with a type error, any value that is neither a probability nor `None`. The translator's tree is an immutable value, so it does not hold these objects: it lists each `p(name) = value` line as an `Aralia.ProbabilityDefinition` record with the same name and probability.

Modules:

- `Names` (names.dfy): the name rule and case-insensitive name equality.
- `Formulas` (formulas.dfy): formula tokens, the grammar's written forms of a formula, and the classifier.
- `Graphs` (graphs.dfy): gate graphs, cycles, peeling for cycle detection, and top candidates.
- `Aralia` (aralia.dfy): statements, the two stages, and the translator.
- `Events` (events.dfy): the `BasicEvent` class.
- `AraliaTests`, `AraliaTreeTests`, `AraliaCorrectTest`: the test suite, replayed.

## Model

| member | source | states |
|---|---|---|
| Names.NameCheckCorrect | translators/test/test_aralia.py:83-109 | the name check accepts exactly the names that start with a letter or underscore and contain only word characters and single, non-final dashes |
| Names.SameNameIsKeyEquality | translators/test/test_aralia.py:145-152 | two names are the same up to case exactly when their lower-cased forms are equal |
| Names.SameNameEquivalence | translators/test/test_aralia.py:244-252 | the case-insensitive equality is reflexive, symmetric and transitive |
| Formulas.Classify | translators/test/test_aralia.py:121-217 | a formula accepted by the classifier is one of the written forms of the formula it returns |
| Formulas.ClassifyComplete | translators/test/test_aralia.py:192-217 | every expressible formula is accepted in its canonical form, and a chain is also accepted inside one pair of parentheses |
| Formulas.ClassifyExactly | translators/test/test_aralia.py:121-217 | the classifier returns f on a token list if and only if the token list is a written form of f |
| Formulas.AcceptedHasShape | translators/test/test_aralia.py:358-413 | every accepted formula has one connective kind, at most one `^` and one pair of parentheses, balanced parentheses, and a `~` only first or after an opener |
| Formulas.ArithmeticRejected | translators/test/test_aralia.py:121-142 | a formula containing `+`, `-`, `*` or `/` is rejected |
| Formulas.MixedConnectivesRejected | translators/test/test_aralia.py:366-376 | a formula containing two different connectives is rejected |
| Formulas.VoteWithConnectiveRejected | translators/test/test_aralia.py:378-382 | a vote combined with a connective is rejected |
| Formulas.RepeatedXorRejected | translators/test/test_aralia.py:384-393 | a formula with two `^` is rejected |
| Formulas.UnbalancedParenthesesRejected | translators/test/test_aralia.py:155-166 | a formula whose opening and closing parentheses differ in number is rejected |
| Formulas.NestedParenthesesRejected | translators/test/test_aralia.py:169-175 | a formula with two opening parentheses is rejected |
| Formulas.UngroupedNegationRejected | translators/test/test_aralia.py:401-413 | a `~` right after a name or another `~` is rejected |
| Graphs.UnorderedIffCycle | translators/test/test_aralia.py:273-299 | peeling leaves gates behind if and only if the gate graph has a cycle, reachable from a root or detached |
| Graphs.CycleIsUnordered | translators/test/test_aralia.py:273-288 | every gate on a cycle is left behind by peeling |
| Graphs.RankedIsAcyclic | translators/test/test_aralia.py:37-70 | a graph with a rank that drops along every edge has no cycle |
| Graphs.NoTopHasCycle | translators/test/test_aralia.py:220-230 | a non-empty graph in which every node is referenced has a cycle |
| Graphs.TopsFrom | translators/test/test_aralia.py:233-241 | the top candidates are exactly the unreferenced gates, in increasing order |
| Aralia.EventArguments | translators/test/test_aralia.py:310-327 | one argument text per argument, in order, with `~` before a complemented one |
| Aralia.ComplementArguments | translators/test/test_aralia.py:310-327 | a name is a complement argument exactly when some argument with that name is complemented |
| Aralia.ComplementArgumentsCount | translators/test/test_aralia.py:323-324 | there is one complement argument per complemented argument |
| Aralia.EventArgumentsSpec | translators/test/test_aralia.py:320-327 | n is a complement argument if and only if `~n` is an argument text, and a valid name is an argument text if and only if it is a plain argument |
| Aralia.CheckStatementCorrect | translators/test/test_aralia.py:83-142 | a statement passes the syntax check exactly when its names are well formed and its formula is a written form |
| Aralia.ParseBody | translators/test/test_aralia.py:73-142 | the syntax stage keeps the tree name and never reports a fault-tree error |
| Aralia.ParseDocument | translators/test/test_aralia.py:73-118 | an accepted document starts with the name line of the tree it yields |
| Aralia.FailFast | translators/test/test_aralia.py:121-142 | the first statement that fails the syntax check decides the error |
| Aralia.BodyAccepted | translators/test/test_aralia.py:37-70 | the syntax stage succeeds exactly when every statement passes, and then keeps every definition in document order |
| Aralia.DocumentAccepted | translators/test/test_aralia.py:73-118 | a document passes the syntax stage exactly when it starts with a well-formed name line and every later statement is well formed |
| Aralia.MissingNameRejected | translators/test/test_aralia.py:112-118 | a document that does not start with a name line gives a format error |
| Aralia.InvalidTreeNameRejected | translators/test/test_aralia.py:83-109 | a malformed tree name gives a parsing error |
| Aralia.SecondNameRejected | translators/test/test_aralia.py:73-80 | a second name line gives a format error |
| Aralia.DocumentDraftWellFormed | translators/test/test_aralia.py:83-142 | every name and formula kept by the syntax stage is well formed |
| Aralia.UnparseRoundTrip | translators/test/test_aralia.py:37-70 | writing out a well-formed draft and reading it back gives the same draft |
| Aralia.RedefinitionCheck | translators/test/test_aralia.py:244-252 | the redefinition check passes exactly when no two defined names are the same up to case |
| Aralia.EdgeIsReference | translators/test/test_aralia.py:273-299 | with distinct gate names, the graph has an edge from i to j exactly when gate i names gate j |
| Aralia.TopCandidateByName | translators/test/test_aralia.py:220-241 | a gate is a top candidate exactly when no gate names it |
| Aralia.UndefinedEventsSpec | translators/test/test_aralia.py:37-70 | the undefined events are all referenced and undefined, none is listed twice up to case, and every referenced undefined name is listed |
| Aralia.Validate | translators/test/test_aralia.py:145-299 | the semantic stage only ever reports fault-tree errors |
| Aralia.ParseInputSpec | translators/test/test_aralia.py:31-35 | a tree is returned exactly when the document is well formed (a valid name line first, every later statement well formed) and its draft meets every semantic rule, namely no repeated argument, no redefinition, well-sized votes, no cycle, some gate, and one top gate unless `multi_top`; a format or parsing error arises exactly when the document is not well formed; an accepted tree has the document's name, its definitions in order with one gate per gate line, one basic event per probability line and one house event per state line, its undefined events, and as top events exactly the gates no gate names |
| Aralia.LocalRulesChecked | translators/test/test_aralia.py:145-252 | the three local checks pass exactly when no gate repeats an argument, no name is redefined and every vote is well sized |
| Aralia.RepeatedArgumentRejected | translators/test/test_aralia.py:145-152 | a gate repeating an argument up to case gives the repeated-argument error |
| Aralia.RedefinitionRejected | translators/test/test_aralia.py:244-252 | a redefined name is rejected, with the redefinition error once no argument repeats |
| Aralia.VoteArityRejected | translators/test/test_aralia.py:178-189 | a vote with K = 0 or K >= N is rejected, with the vote-arity error once no argument repeats and no name is redefined |
| Aralia.CycleRejected | translators/test/test_aralia.py:273-299 | a cycle is rejected, with the cycle error once the local rules hold |
| Aralia.ValidateGraphRules | translators/test/test_aralia.py:220-299 | once the local rules hold: cycle error iff a cycle; no-top error iff no gates; multiple-top error iff several tops without the flag; success otherwise |
| Aralia.NoTopEventMeansNoGates | translators/test/test_aralia.py:220-230 | the no-top error arises only for a document without gates |
| Aralia.MultipleTops | translators/test/test_aralia.py:233-241 | several top gates are rejected without the flag and accepted with it, one top event per top gate |
| Aralia.AcceptedTree | translators/test/test_aralia.py:255-270 | an accepted tree keeps every definition, orphans included, has its undefined events, and has as top events exactly the gates no gate names, only one without the flag |
| Aralia.GateCount | translators/test/test_aralia.py:37-70 | an accepted tree has one gate per gate line, one basic event per probability line and one house event per state line |
| Aralia.ErrorKinds | translators/test/test_aralia.py:31-35 | a fault-tree error arises only for a document that passed the syntax stage |
| Aralia.RevalidateIdempotent | translators/test/test_aralia.py:37-70 | validating an accepted tree's definitions again, or its written-out document, gives the same tree |
| Events.BasicEvent.constructor | fault_tree/event/basic_event.py:19-31 | the new event holds the given name and the given probability, unchecked |
| Events.BasicEvent.GetProbability | fault_tree/event/basic_event.py:33-40 | the getter returns the stored probability |
| Events.BasicEvent.SetProbability | fault_tree/event/basic_event.py:42-51 | a probability or `None` is stored; any other value raises a type error with the setter's message and leaves the event as it was; the name never changes |
| Events.SetThenGet | fault_tree/event/basic_event.py:42-51 | after a set, the getter sees the new value if it was accepted and the old one otherwise |
| Events.NewThenGet | fault_tree/event/basic_event.py:19-40 | a fresh event reports the probability it was built with, `None` included |
| AraliaCorrectTest.Correct | translators/test/test_aralia.py:37-70 | the sample document is accepted with 9 gates, 3 basic events, 2 house events, the one undefined event e4 and the top event root |
| AraliaTests.NameRedefinitionTest | translators/test/test_aralia.py:73-80 | a second tree name gives a format error |
| AraliaTests.TreeNameTest | translators/test/test_aralia.py:83-105 | the five malformed tree names each give a parsing error |
| AraliaTests.DashedTreeNameTest | translators/test/test_aralia.py:106-109 | `Correct-Name_42` with one gate is accepted |
| AraliaTests.NoTreeNameTest | translators/test/test_aralia.py:112-118 | a document that starts with a gate gives a format error |
| AraliaTests.ArithmeticTest | translators/test/test_aralia.py:121-142 | the four arithmetic formulas each give a parsing error |
| AraliaTests.MissingParenthesisTest | translators/test/test_aralia.py:155-166 | a missing opening or closing parenthesis gives a parsing error |
| AraliaTests.NestedParenthesesTest | translators/test/test_aralia.py:169-175 | doubled parentheses give a parsing error |
| AraliaTests.NullGateTest | translators/test/test_aralia.py:192-203 | `g1 := a` gives one gate g1, a null gate with argument a |
| AraliaTests.NotGateTest | translators/test/test_aralia.py:206-217 | `g1 := ~(a)` gives one gate g1, a not gate with argument a |
| AraliaTests.ComplementOrTest | translators/test/test_aralia.py:329-331 | `e1 \| ~e2` gives one or gate g1 with the argument ~e2 and e2 as its only complement argument |
| AraliaTests.ComplementXorTest | translators/test/test_aralia.py:333-335 | the same for `e1 ^ ~e2` and a xor gate |
| AraliaTests.ComplementAndTest | translators/test/test_aralia.py:337-339 | the same for `e1 & ~e2` and an and gate |
| AraliaTests.ComplementVoteTest | translators/test/test_aralia.py:341-343 | `@(2, [e1, ~e2, e3])` gives an atleast gate with ~e2 and the complement argument e2 |
| AraliaTests.ComplementNullTest | translators/test/test_aralia.py:345-347 | `~e2` gives a null gate with ~e2 and the complement argument e2 |
| AraliaTests.ComplementNotTest | translators/test/test_aralia.py:349-351 | `~(~e2)` gives a not gate with ~e2 and the complement argument e2 |
| AraliaTests.ComplementCancellationTest | translators/test/test_aralia.py:353-355 | `~e2 & e2` is accepted as an and gate with e2 as its only complement argument |
| AraliaTests.OrXorTest | translators/test/test_aralia.py:366-370 | `e1 \| e2 ^ e3` gives a parsing error |
| AraliaTests.OrAndTest | translators/test/test_aralia.py:372-376 | `e1 \| e2 & e3` gives a parsing error |
| AraliaTests.OrVoteTest | translators/test/test_aralia.py:378-382 | `e1 \| @(2, [e2, e3, e4])` gives a parsing error |
| AraliaTests.XorXorTest | translators/test/test_aralia.py:384-393 | `e1 ^ e2 ^ e3` gives a parsing error |
| AraliaTests.XorAndTest | translators/test/test_aralia.py:395-399 | `e1 ^ e2 & e3` gives a parsing error |
| AraliaTests.NotNotTest | translators/test/test_aralia.py:401-408 | `~~e1` gives a parsing error |
| AraliaTests.NotAfterNameTest | translators/test/test_aralia.py:409-413 | `~e1~a` gives a parsing error |
| AraliaTreeTests.RepeatedArgumentTest | translators/test/test_aralia.py:145-152 | `g2 := E1 & e1` gives the repeated-argument error |
| AraliaTreeTests.VoteArityTest | translators/test/test_aralia.py:178-189 | a vote of 3 or 4 out of three arguments gives the vote-arity error |
| AraliaTreeTests.NoTopEventTest | translators/test/test_aralia.py:220-230 | two gates naming each other give a fault-tree error, namely the cycle error |
| AraliaTreeTests.MultiTopTest | translators/test/test_aralia.py:233-239 | two unreferenced gates give the multiple-top error without the flag |
| AraliaTreeTests.MultiTopFlagTest | translators/test/test_aralia.py:240-241 | with the flag, the same document is accepted with top events g1 and g2 |
| AraliaTreeTests.RedefinitionTest | translators/test/test_aralia.py:244-252 | defining g2 twice gives the redefinition error |
| AraliaTreeTests.NoOrphanTest | translators/test/test_aralia.py:255-264 | the document with e1 and h1 defined and used is accepted with those events |
| AraliaTreeTests.OrphanBasicTest | translators/test/test_aralia.py:265-267 | adding the unused basic event e2 still gives an accepted tree, which keeps e2 |
| AraliaTreeTests.OrphanHouseTest | translators/test/test_aralia.py:268-270 | adding the unused house event h2 as well still gives an accepted tree, which keeps h2 |
| AraliaTreeTests.CycleTest | translators/test/test_aralia.py:273-281 | g2 and g3 naming each other give the cycle error |
| AraliaTreeTests.NestedCycleTest | translators/test/test_aralia.py:282-288 | the same cycle in three-argument formulas gives the cycle error |
| AraliaTreeTests.DetachedGatesTest | translators/test/test_aralia.py:291-299 | a cycle out of reach of the root gives the cycle error |

## Left out

- Reading text: the model starts from statements whose formulas are already split into tokens. Characters, whitespace, blank lines and the `:=`, `p(..) =` and `s(..) =` syntax are not modelled.
- Probability values are kept as the literal text. The range [0, 1] and numeric parsing belong to a `Probability` class that is not part of this model.
- The event base class `fault_tree/event/Event` is not part of this model. `BasicEvent` carries the name itself.
- Python's dynamic typing is modelled by a `Value` datatype with an "other type" case, so the setter's type check can be stated.
- XML output (`to_xml`) and the RelaxNG schema check of test_correct (lines 62-70) are left out, since they are I/O against an external schema. test_main (lines 416-429) is left out because it writes a file.
- The command-line front end and `fault_tree_generator/arg_parser.py` are left out; the `multi_top` flag is a parameter.
- The translator module `aralia.py` is not part of this model. Where the tests do not decide a behaviour, the model makes a choice:
  - names may start with an underscore;
  - the tree-name rule is applied to every name: gate names, `p()` and `s()` names and formula arguments; a name that breaks it gives a parsing error (the tests fix the rule only for the tree name);
  - letters and digits are ASCII;
  - the same name given to a `p()` or `s()` line and to a gate (or given twice) is a redefinition;
  - a name line after the first is a format error;
  - the cycle rule is checked before the top-event rules, so the mutual reference of test_no_top_event (a case of a cycle) reports the cycle error. The test only asks for some fault-tree error.
- The test documentation calls the tree-name rule NCName. The tests assert a stricter rule: no trailing dash, no doubled dash and no period. The model follows the tests.
- Undefined events are listed by name in the tree. They are not also added as basic events without a probability, because test_correct expects three basic events while e4 is undefined.
- Aralia.Validate: its contract states only the error kind. What it accepts and rejects is stated by the rule lemmas and `Aralia.ValidateGraphRules`.
