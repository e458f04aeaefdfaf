/**
 * The gate-reference graph and cycle detection over it.
 *
 * Nodes are the indices 0 .. n-1 of the gate table; node i has an edge to
 * every gate its formula names as an argument.  Cycle detection peels off,
 * one at a time, a pending gate all of whose children are already peeled
 * (the order in which a fault tree can be evaluated bottom-up).  Whatever
 * cannot be peeled lies on or above a cycle.  The check scans every gate,
 * so a cycle detached from every top gate is found as well.
 */
module Graphs {

  /** Adjacency lists: `g[i]` holds the children of node i. */
  type Graph = seq<seq<nat>>

  /** Every child is a node of the graph. */
  predicate Closed(g: Graph) {
    forall i, k :: 0 <= i < |g| && 0 <= k < |g[i]| ==> g[i][k] < |g|
  }

  predicate Edge(g: Graph, i: nat, j: nat) {
    i < |g| && j in g[i]
  }

  ghost predicate IsPath(g: Graph, p: seq<nat>) {
    && (forall i :: 0 <= i < |p| ==> p[i] < |g|)
    && (forall i, j :: 0 <= i && j == i + 1 && j < |p| ==> Edge(g, p[i], p[j]))
  }

  /** Some non-empty path leads from a node back to itself. */
  ghost predicate HasCycle(g: Graph) {
    exists p :: |p| >= 2 && IsPath(g, p) && p[0] == p[|p| - 1]
  }

  /** The nodes 0 .. n-1 in increasing order. */
  function Range(n: nat): (r: seq<nat>)
    ensures |r| == n
    ensures forall i :: 0 <= i < n ==> r[i] == i
  {
    seq(n, i requires 0 <= i => i)
  }

  // ---------------------------------------------------------------------
  // Cycle detection by peeling

  /** A node all of whose children are already peeled. */
  predicate Ready(g: Graph, x: nat, done: set<nat>) {
    x < |g| && forall c :: c in g[x] ==> c in done
  }

  /** The position of the first ready node in `pending[from..]`, or `|pending|`. */
  function FindReady(g: Graph, pending: seq<nat>, done: set<nat>, from: nat): (k: nat)
    requires from <= |pending|
    ensures from <= k <= |pending|
    ensures k < |pending| ==> Ready(g, pending[k], done)
    ensures forall m :: from <= m < k ==> !Ready(g, pending[m], done)
    decreases |pending| - from
  {
    if from == |pending| then from
    else if Ready(g, pending[from], done) then from
    else FindReady(g, pending, done, from + 1)
  }

  /** Removes ready nodes one at a time; returns the nodes that are left. */
  function Peel(g: Graph, pending: seq<nat>, done: set<nat>): seq<nat>
    decreases |pending|
  {
    var k := FindReady(g, pending, done, 0);
    if k == |pending| then pending
    else Peel(g, pending[..k] + pending[k + 1..], done + {pending[k]})
  }

  /** The gates that could not be ordered bottom-up. */
  function Unordered(g: Graph): seq<nat> {
    Peel(g, Range(|g|), {})
  }

  // ---------------------------------------------------------------------
  // A cycle is never peeled

  /** No node of a cycle outside `done` is ready. */
  lemma CycleNotReady(g: Graph, done: set<nat>, p: seq<nat>, x: nat)
    requires |p| >= 2 && IsPath(g, p) && p[0] == p[|p| - 1]
    requires forall m :: 0 <= m < |p| ==> p[m] !in done
    requires Ready(g, x, done)
    ensures forall m :: 0 <= m < |p| ==> p[m] != x
  {
    forall m | 0 <= m < |p| ensures p[m] != x {
      var next := if m + 1 < |p| then m + 1 else 1;
      assert Edge(g, p[next - 1], p[next]);
      assert p[next - 1] == p[m];
    }
  }

  /** Peeling the node at `k` keeps every node pending or done. */
  lemma PeelKeepsCover(g: Graph, pending: seq<nat>, done: set<nat>, k: nat)
    requires k < |pending|
    requires forall x: nat :: x < |g| ==> x in pending || x in done
    ensures forall y: nat :: y < |g| ==> y in pending[..k] + pending[k + 1..] || y in done + {pending[k]}
  {
    var rest := pending[..k] + pending[k + 1..];
    forall y: nat | y < |g| ensures y in rest || y in done + {pending[k]} {
      if y in pending && y != pending[k] {
        var m :| 0 <= m < |pending| && pending[m] == y;
        if m < k { assert rest[m] == y; } else { assert m != k; assert rest[m - 1] == y; }
      }
    }
  }

  lemma {:induction false} PeelKeepsCycle(g: Graph, pending: seq<nat>, done: set<nat>, p: seq<nat>)
    requires |p| >= 2 && IsPath(g, p) && p[0] == p[|p| - 1]
    requires forall m :: 0 <= m < |p| ==> p[m] !in done
    requires forall x: nat :: x < |g| ==> x in pending || x in done
    ensures p[0] in Peel(g, pending, done)
    decreases |pending|
  {
    var k := FindReady(g, pending, done, 0);
    if k == |pending| {
      assert p[0] < |g|;
    } else {
      var x := pending[k];
      CycleNotReady(g, done, p, x);
      PeelKeepsCover(g, pending, done, k);
      PeelKeepsCycle(g, pending[..k] + pending[k + 1..], done + {x}, p);
    }
  }

  /** Any cycle, reachable from a top gate or not, is left unordered. */
  lemma CycleIsUnordered(g: Graph)
    requires HasCycle(g)
    ensures Unordered(g) != []
  {
    var p :| |p| >= 2 && IsPath(g, p) && p[0] == p[|p| - 1];
    var r := Range(|g|);
    forall x: nat | x < |g| ensures x in r || x in {} {
      assert r[x] == x;
    }
    PeelKeepsCycle(g, r, {}, p);
  }

  // ---------------------------------------------------------------------
  // Whatever is left unordered contains a cycle

  /** A sequence longer than the set it draws from repeats an element. */
  lemma {:induction false} Pigeonhole(p: seq<nat>, s: set<nat>) returns (i: nat, j: nat)
    requires forall m :: 0 <= m < |p| ==> p[m] in s
    requires |p| > |s|
    ensures i < j < |p| && p[i] == p[j]
    decreases |s|
  {
    assert p[0] in s;
    if m :| 1 <= m < |p| && p[m] == p[0] {
      i, j := 0, m;
    } else {
      var t := s - {p[0]};
      var q := p[1..];
      forall m | 0 <= m < |q| ensures q[m] in t {
        assert q[m] == p[m + 1];
      }
      var a, b := Pigeonhole(q, t);
      i, j := a + 1, b + 1;
    }
  }

  lemma SubPath(g: Graph, p: seq<nat>, i: nat, j: nat)
    requires IsPath(g, p) && i <= j < |p|
    ensures IsPath(g, p[i..j + 1])
  {
    var q := p[i..j + 1];
    forall a, b | 0 <= a && b == a + 1 && b < |q| ensures Edge(g, q[a], q[b]) {
      assert q[a] == p[i + a] && q[b] == p[i + a + 1];
    }
  }

  /** A path that visits some node twice closes a cycle. */
  lemma RepeatIsCycle(g: Graph, p: seq<nat>, i: nat, j: nat)
    requires IsPath(g, p) && i < j < |p| && p[i] == p[j]
    ensures HasCycle(g)
  {
    SubPath(g, p, i, j);
    var q := p[i..j + 1];
    assert |q| >= 2 && q[0] == p[i] && q[|q| - 1] == p[j];
  }

  /** Some element of `xs` lies in `s`. */
  predicate AnyIn(xs: seq<nat>, s: set<nat>) {
    xs != [] && (xs[0] in s || AnyIn(xs[1..], s))
  }

  lemma {:induction false} AnyInWitness(xs: seq<nat>, s: set<nat>) returns (y: nat)
    requires AnyIn(xs, s)
    ensures y in xs && y in s
  {
    if xs[0] in s { y := xs[0]; } else { y := AnyInWitness(xs[1..], s); }
  }

  lemma {:induction false} AnyInOf(xs: seq<nat>, s: set<nat>, y: nat)
    requires y in xs && y in s
    ensures AnyIn(xs, s)
  {
    if xs[0] != y { assert y in xs[1..]; AnyInOf(xs[1..], s, y); }
  }

  /** A walk of any length inside a set where every node has a child. */
  lemma {:induction false} ForwardWalk(g: Graph, s: set<nat>, n: nat) returns (p: seq<nat>)
    requires s != {}
    requires forall x :: x in s ==> x < |g| && AnyIn(g[x], s)
    requires n >= 1
    ensures |p| == n && IsPath(g, p)
    ensures forall m :: 0 <= m < |p| ==> p[m] in s
  {
    if n == 1 {
      var x :| x in s;
      p := [x];
    } else {
      var q := ForwardWalk(g, s, n - 1);
      assert q[|q| - 1] in s;
      var y := AnyInWitness(g[q[|q| - 1]], s);
      p := q + [y];
      forall m | 0 <= m < |p| ensures p[m] in s && p[m] < |g| {
        if m < |q| { assert p[m] == q[m]; }
      }
      forall a, b | 0 <= a && b == a + 1 && b < |p| ensures Edge(g, p[a], p[b]) {
        if b < |q| { assert p[a] == q[a] && p[b] == q[b]; }
      }
    }
  }

  /** A non-empty set where every node has a child inside the set holds a cycle. */
  lemma ChildClosedHasCycle(g: Graph, s: set<nat>)
    requires s != {}
    requires forall x :: x in s ==> x < |g| && AnyIn(g[x], s)
    ensures HasCycle(g)
  {
    var p := ForwardWalk(g, s, |s| + 1);
    var i, j := Pigeonhole(p, s);
    RepeatIsCycle(g, p, i, j);
  }

  lemma {:induction false} PeelStuckHasCycle(g: Graph, pending: seq<nat>, done: set<nat>)
    requires Closed(g)
    requires forall m :: 0 <= m < |pending| ==> pending[m] < |g|
    requires forall x: nat :: x < |g| ==> x in pending || x in done
    ensures Peel(g, pending, done) != [] ==> HasCycle(g)
    decreases |pending|
  {
    var k := FindReady(g, pending, done, 0);
    if k == |pending| {
      if pending != [] {
        var s := set m | 0 <= m < |pending| :: pending[m];
        assert pending[0] in s;
        forall x | x in s ensures x < |g| && AnyIn(g[x], s) {
          var m :| 0 <= m < |pending| && pending[m] == x;
          assert !Ready(g, x, done);
          var c :| c in g[x] && c !in done;
          var ci :| 0 <= ci < |g[x]| && g[x][ci] == c;
          assert c < |g|;
          var mc :| 0 <= mc < |pending| && pending[mc] == c;
          assert c in s;
          AnyInOf(g[x], s, c);
        }
        ChildClosedHasCycle(g, s);
      }
    } else {
      var x := pending[k];
      var rest := pending[..k] + pending[k + 1..];
      forall y: nat | y < |g| ensures y in rest || y in done + {x} {
        if y in pending && y != x {
          var m :| 0 <= m < |pending| && pending[m] == y;
          if m < k { assert rest[m] == y; } else { assert m != k; assert rest[m - 1] == y; }
        }
      }
      forall m | 0 <= m < |rest| ensures rest[m] < |g| {
        if m < k { assert rest[m] == pending[m]; } else { assert rest[m] == pending[m + 1]; }
      }
      PeelStuckHasCycle(g, rest, done + {x});
    }
  }

  /** Peeling orders every gate exactly when the graph has no cycle. */
  lemma UnorderedIffCycle(g: Graph)
    requires Closed(g)
    ensures Unordered(g) != [] <==> HasCycle(g)
  {
    var r := Range(|g|);
    forall x: nat | x < |g| ensures x in r || x in {} {
      assert r[x] == x;
    }
    PeelStuckHasCycle(g, r, {});
    if HasCycle(g) { CycleIsUnordered(g); }
  }

  // ---------------------------------------------------------------------
  // Top candidates

  /** Some node has node j as a child. */
  predicate Referenced(g: Graph, j: nat) {
    exists i :: 0 <= i < |g| && j in g[i]
  }

  /** The same question, asked node by node from `i` on. */
  function ReferencedFrom(g: Graph, j: nat, i: nat): (b: bool)
    requires i <= |g|
    ensures b <==> exists m :: i <= m < |g| && j in g[m]
    decreases |g| - i
  {
    if i == |g| then false else j in g[i] || ReferencedFrom(g, j, i + 1)
  }

  /** The nodes from `j` on that no node references, in increasing order. */
  function TopsFrom(g: Graph, j: nat): (t: seq<nat>)
    requires j <= |g|
    ensures forall m :: 0 <= m < |t| ==> j <= t[m] < |g| && !Referenced(g, t[m])
    ensures forall x :: j <= x < |g| && !Referenced(g, x) ==> x in t
    ensures forall a, b :: 0 <= a < b < |t| ==> t[a] < t[b]
    decreases |g| - j
  {
    if j == |g| then []
    else if ReferencedFrom(g, j, 0) then TopsFrom(g, j + 1)
    else [j] + TopsFrom(g, j + 1)
  }

  /** The top candidates: every node that no node references. */
  function TopCandidates(g: Graph): seq<nat> {
    TopsFrom(g, 0)
  }

  /** The set of nodes below n, with its size. */
  ghost function Below(n: nat): (s: set<nat>)
    ensures |s| == n
    ensures forall x: nat :: x in s <==> x < n
  {
    if n == 0 then {} else
      var t := Below(n - 1);
      assert n - 1 !in t;
      t + {n - 1}
  }

  /** A walk of any length where every node has a parent, built backwards. */
  lemma {:induction false} BackwardWalk(g: Graph, n: nat) returns (p: seq<nat>)
    requires |g| > 0
    requires forall j :: 0 <= j < |g| ==> Referenced(g, j)
    requires n >= 1
    ensures |p| == n && IsPath(g, p)
  {
    if n == 1 {
      p := [0];
    } else {
      var q := BackwardWalk(g, n - 1);
      assert q[0] < |g|;
      assert Referenced(g, q[0]);
      var i :| 0 <= i < |g| && q[0] in g[i];
      p := [i] + q;
      forall a, b | 0 <= a && b == a + 1 && b < |p| ensures Edge(g, p[a], p[b]) {
        if a > 0 { assert p[a] == q[a - 1] && p[b] == q[b - 1]; }
      }
    }
  }

  /**
   * A graph with at least one node and no top candidate has a cycle: every
   * node is referenced, so walking backwards from any node never ends.
   */
  lemma NoTopHasCycle(g: Graph)
    requires |g| > 0 && TopCandidates(g) == []
    ensures HasCycle(g)
  {
    assert TopsFrom(g, 0) == [];
    assert forall j :: 0 <= j < |g| ==> Referenced(g, j);
    var p := BackwardWalk(g, |g| + 1);
    var s := Below(|g|);
    var i, j := Pigeonhole(p, s);
    RepeatIsCycle(g, p, i, j);
  }

  // ---------------------------------------------------------------------
  // A certificate of acyclicity

  /** Every edge goes from a higher rank to a strictly lower one. */
  predicate RankDecreases(g: Graph, rank: seq<nat>) {
    && |rank| == |g|
    && forall i, k :: 0 <= i < |g| && 0 <= k < |g[i]| ==> g[i][k] < |g| && rank[g[i][k]] < rank[i]
  }

  lemma {:induction false} RankAlongPath(g: Graph, rank: seq<nat>, p: seq<nat>)
    requires RankDecreases(g, rank) && IsPath(g, p) && |p| >= 2
    ensures rank[p[|p| - 1]] < rank[p[0]]
    decreases |p|
  {
    assert Edge(g, p[0], p[1]);
    var k :| 0 <= k < |g[p[0]]| && g[p[0]][k] == p[1];
    if |p| > 2 {
      var q := p[1..];
      forall a, b | 0 <= a && b == a + 1 && b < |q| ensures Edge(g, q[a], q[b]) {
        assert q[a] == p[a + 1] && q[b] == p[b + 1];
      }
      RankAlongPath(g, rank, q);
    }
  }

  /** A ranking that decreases along every edge rules out every cycle. */
  lemma RankedIsAcyclic(g: Graph, rank: seq<nat>)
    requires RankDecreases(g, rank)
    ensures !HasCycle(g)
  {
    if HasCycle(g) {
      var p :| |p| >= 2 && IsPath(g, p) && p[0] == p[|p| - 1];
      RankAlongPath(g, rank, p);
    }
  }
}
