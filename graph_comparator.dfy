/**
 * `IterativeGraphComparator`: a heuristic similarity of two execution-trace graphs. It
 * seeds a left-to-right node mapping from operation nodes that share an operator or a
 * called method, then grows the mapping outwards along edges that play the same role,
 * one frontier round at a time, and reports the mapped fraction of each graph.
 *
 * Nodes are identified by their index in the graph; an edge names its source and target
 * by index. `ElementMatcher.match` on nodes and on edges and the optimal-assignment
 * algorithm are not part of this model: they are the functions `nodeMatch`, `edgeMatch`
 * and `assign` of a comparator, and the assignment is assumed to meet the contract the
 * comparator relies on (`AssignmentContract`). Kotlin's `Double` is modelled by `Double`:
 * a real number or NaN.
 */
module GraphComparator {

  // ---------------------------------------------------------------------------
  // Numbers
  // ---------------------------------------------------------------------------

  datatype Double = Finite(value: real) | NaN

  /** `1.0 - d`. */
  function Sub1(d: Double): Double
  {
    match d
    case Finite(x) => Finite(1.0 - x)
    case NaN => NaN
  }

  /** `d > 0.5`, false for NaN. */
  predicate GreaterThanHalf(d: Double)
  {
    d.Finite? && d.value > 0.5
  }

  /** `a.toDouble().div(b)` for counts, where a nonzero count is never divided by zero;
      `0.0 / 0` is NaN. */
  function Ratio(a: nat, b: nat): (r: Double)
    requires b == 0 ==> a == 0
    ensures r.NaN? <==> b == 0
    ensures r.Finite? && a <= b ==> 0.0 <= r.value <= 1.0
    ensures r.Finite? ==> r.value * b as real == a as real
  {
    if b == 0 then NaN else Finite(a as real / b as real)
  }

  function Max(a: int, b: int): int { if a >= b then a else b }

  function Min(a: int, b: int): int { if a <= b then a else b }

  function Abs(a: int): nat { if a < 0 then -a else a }

  // ---------------------------------------------------------------------------
  // Graphs
  // ---------------------------------------------------------------------------

  /** What groups operation nodes: the operator of an operator node, the qualified
      signature of a method-call node; other nodes are not operations. */
  datatype NodeKind = OperatorNode(operator: string) | MethodCallNode(methodSignature: string) | OtherNode

  datatype Node = Node(kind: NodeKind, attributes: map<string, string>)

  datatype Edge = Edge(source: nat, target: nat, attributes: map<string, string>)

  datatype Graph = Graph(nodes: seq<Node>, edges: seq<Edge>)

  predicate WellFormed(g: Graph)
  {
    forall e :: e in g.edges ==> e.source < |g.nodes| && e.target < |g.nodes|
  }

  function IncidentIn(es: seq<Edge>, n: nat): (r: seq<Edge>)
    ensures forall e :: e in r ==> e in es && (e.source == n || e.target == n)
  {
    if es == [] then []
    else (if es[0].source == n || es[0].target == n then [es[0]] else []) + IncidentIn(es[1..], n)
  }

  /** `getEdgeSet()`: the edges at node `n`, in edge order. */
  function Incident(g: Graph, n: nat): (r: seq<Edge>)
    ensures forall e :: e in r ==> e in g.edges && (e.source == n || e.target == n)
  {
    IncidentIn(g.edges, n)
  }

  /** `getOpposite(n)`. */
  function Opposite(e: Edge, n: nat): nat
  {
    if e.source == n then e.target else e.source
  }

  /** The nodes at the other end of the first `i` edges at `n`. */
  function NeighboursUpTo(g: Graph, n: nat, i: nat): set<nat>
    requires i <= |Incident(g, n)|
  {
    set e | e in Incident(g, n)[..i] :: Opposite(e, n)
  }

  /** The nodes at the other end of the edges at `n`. */
  function Neighbours(g: Graph, n: nat): set<nat>
  {
    NeighboursUpTo(g, n, |Incident(g, n)|)
  }

  /** The neighbours of the left (`left`) or right nodes of the first `p` pairs. */
  function Frontier(g: Graph, pairs: seq<(nat, nat)>, p: nat, left: bool): set<nat>
    requires p <= |pairs|
  {
    if p == 0 then {}
    else Frontier(g, pairs, p - 1, left) + Neighbours(g, if left then pairs[p - 1].0 else pairs[p - 1].1)
  }

  /** The two edges leave their nodes, or the two edges enter their nodes. */
  predicate SameRole(le: Edge, ln: nat, re: Edge, rn: nat)
  {
    (le.source == ln && re.source == rn) || (le.target == ln && re.target == rn)
  }

  predicate IsOperation(n: Node)
  {
    n.kind.OperatorNode? || n.kind.MethodCallNode?
  }

  // ---------------------------------------------------------------------------
  // Sequences and sets
  // ---------------------------------------------------------------------------

  predicate Distinct(s: seq<nat>)
  {
    forall i, j :: 0 <= i < j < |s| ==> s[i] != s[j]
  }

  function Elems(s: seq<nat>): set<nat>
  {
    set x | x in s
  }

  function Range(n: nat): (r: seq<nat>)
    ensures |r| == n && forall i :: 0 <= i < n ==> r[i] == i
  {
    seq(n, i => i)
  }

  function Firsts(ps: seq<(nat, nat)>): (r: seq<nat>)
    ensures |r| == |ps| && forall i :: 0 <= i < |ps| ==> r[i] == ps[i].0
  {
    seq(|ps|, i requires 0 <= i < |ps| => ps[i].0)
  }

  function Seconds(ps: seq<(nat, nat)>): (r: seq<nat>)
    ensures |r| == |ps| && forall i :: 0 <= i < |ps| ==> r[i] == ps[i].1
  {
    seq(|ps|, i requires 0 <= i < |ps| => ps[i].1)
  }

  /** `keys.add(k)` on an insertion-ordered set. */
  function AddKey(keys: seq<nat>, k: nat): (r: seq<nat>)
    ensures forall x :: x in r <==> x in keys || x == k
    ensures Distinct(keys) ==> Distinct(r)
  {
    if k in keys then keys else keys + [k]
  }

  /** Adding distinct new elements grows a set by their number. */
  lemma {:induction false} CardAddDistinct(a: set<nat>, s: seq<nat>)
    requires Distinct(s) && Elems(s) !! a
    ensures |a + Elems(s)| == |a| + |s|
  {
    if s != [] {
      var init := s[..|s| - 1];
      var last := s[|s| - 1];
      assert Elems(s) == Elems(init) + {last};
      assert last !in Elems(init);
      CardAddDistinct(a, init);
      assert a + Elems(s) == (a + Elems(init)) + {last};
    }
  }

  /** A set of numbers below `n` has at most `n` elements. */
  lemma {:induction false} CardBelow(s: set<nat>, n: nat)
    requires forall x :: x in s ==> x < n
    ensures |s| <= n
  {
    if n > 0 {
      var smaller := s - {n - 1};
      CardBelow(smaller, n - 1);
      assert s <= smaller + {n - 1};
    } else {
      assert s == {};
    }
  }

  lemma {:induction false} SubsetCard(a: set<nat>, b: set<nat>)
    requires a <= b
    ensures |a| <= |b|
  {
    assert b == a + (b - a);
  }

  // ---------------------------------------------------------------------------
  // Assignment
  // ---------------------------------------------------------------------------

  /** A cost matrix: one row per left element, one column per right element. */
  type Matrix = seq<seq<Double>>

  function Columns(m: Matrix): nat
  {
    if m == [] then 0 else |m[0]|
  }

  predicate Rectangular(m: Matrix, cols: nat)
  {
    forall i :: 0 <= i < |m| ==> |m[i]| == cols
  }

  /** One entry per row, each `-1` or a column, no column used twice. */
  predicate IsAssignment(m: Matrix, a: seq<int>)
  {
    && |a| == |m|
    && (forall i :: 0 <= i < |a| ==> a[i] == -1 || 0 <= a[i] < Columns(m))
    && (forall i, j :: 0 <= i < j < |a| && a[i] != -1 ==> a[i] != a[j])
  }

  /** What the comparator relies on from `OptimalAssignmentAlgorithmFactory.execute`
      (IterativeGraphComparator.kt:65-68, 174-177, 199-202). */
  ghost predicate AssignmentContract(assign: Matrix -> seq<int>)
  {
    forall m :: IsAssignment(m, assign(m))
  }

  /** The loop over an assignment that turns it into node pairs (IterativeGraphComparator.kt:
      174-184 and 199-211): every assigned row gives the pair of its key and its column's
      key; with `threshold`, only when the pair's similarity `1 - cost` exceeds 0.5. */
  function Picks(lkeys: seq<nat>, rkeys: seq<nat>, m: Matrix, a: seq<int>, upto: nat, threshold: bool): seq<(nat, nat)>
    requires |lkeys| == |m| == |a| && upto <= |a| && Rectangular(m, |rkeys|)
    requires forall i :: 0 <= i < |a| ==> a[i] == -1 || 0 <= a[i] < |rkeys|
  {
    if upto == 0 then []
    else
      var i := upto - 1;
      Picks(lkeys, rkeys, m, a, i, threshold) +
      (if a[i] != -1 && (!threshold || GreaterThanHalf(Sub1(m[i][a[i]])))
       then [(lkeys[i], rkeys[a[i]])] else [])
  }

  /** Every pick comes from an assigned row. */
  lemma {:induction false} PicksFromRows(lkeys: seq<nat>, rkeys: seq<nat>, m: Matrix, a: seq<int>, upto: nat, threshold: bool, q: (nat, nat))
    requires |lkeys| == |m| == |a| && upto <= |a| && Rectangular(m, |rkeys|)
    requires forall i :: 0 <= i < |a| ==> a[i] == -1 || 0 <= a[i] < |rkeys|
    requires q in Picks(lkeys, rkeys, m, a, upto, threshold)
    ensures exists i :: 0 <= i < upto && a[i] != -1 && (!threshold || GreaterThanHalf(Sub1(m[i][a[i]])))
                        && q == (lkeys[i], rkeys[a[i]])
  {
    var i := upto - 1;
    if q !in Picks(lkeys, rkeys, m, a, i, threshold) {
      assert q == (lkeys[i], rkeys[a[i]]);
    } else {
      PicksFromRows(lkeys, rkeys, m, a, i, threshold, q);
    }
  }

  /** Conversely, every assigned row that passes the threshold gives its pick. */
  lemma {:induction false} PicksFromEveryRow(lkeys: seq<nat>, rkeys: seq<nat>, m: Matrix, a: seq<int>, upto: nat, threshold: bool, i: nat)
    requires |lkeys| == |m| == |a| && upto <= |a| && Rectangular(m, |rkeys|)
    requires forall i :: 0 <= i < |a| ==> a[i] == -1 || 0 <= a[i] < |rkeys|
    requires i < upto && a[i] != -1 && (!threshold || GreaterThanHalf(Sub1(m[i][a[i]])))
    ensures (lkeys[i], rkeys[a[i]]) in Picks(lkeys, rkeys, m, a, upto, threshold)
  {
    if i < upto - 1 {
      PicksFromEveryRow(lkeys, rkeys, m, a, upto - 1, threshold, i);
    }
  }

  /** Picks from distinct keys under an assignment pair distinct left keys with distinct
      right keys. */
  lemma {:induction false} PicksDistinct(lkeys: seq<nat>, rkeys: seq<nat>, m: Matrix, a: seq<int>, upto: nat, threshold: bool)
    requires |lkeys| == |m| == |a| && upto <= |a| && Rectangular(m, |rkeys|)
    requires forall i :: 0 <= i < |a| ==> a[i] == -1 || 0 <= a[i] < |rkeys|
    requires forall i, j :: 0 <= i < j < |a| && a[i] != -1 ==> a[i] != a[j]
    requires Distinct(lkeys) && Distinct(rkeys)
    ensures var ps := Picks(lkeys, rkeys, m, a, upto, threshold);
      && Distinct(Firsts(ps)) && Distinct(Seconds(ps))
      && Elems(Firsts(ps)) <= Elems(lkeys) && Elems(Seconds(ps)) <= Elems(rkeys)
  {
    if upto > 0 {
      var i := upto - 1;
      var init := Picks(lkeys, rkeys, m, a, i, threshold);
      PicksDistinct(lkeys, rkeys, m, a, i, threshold);
      var ps := Picks(lkeys, rkeys, m, a, upto, threshold);
      if ps != init {
        assert ps == init + [(lkeys[i], rkeys[a[i]])];
        forall q | q in init
          ensures q.0 != lkeys[i] && q.1 != rkeys[a[i]]
        {
          PicksFromRows(lkeys, rkeys, m, a, i, threshold, q);
        }
        forall x, y | 0 <= x < y < |ps|
          ensures Firsts(ps)[x] != Firsts(ps)[y] && Seconds(ps)[x] != Seconds(ps)[y]
        {
          if y == |ps| - 1 {
            assert ps[x] in init;
          } else {
            assert ps[x] == init[x] && ps[y] == init[y];
            assert Firsts(init)[x] != Firsts(init)[y] && Seconds(init)[x] != Seconds(init)[y];
          }
        }
        assert Firsts(ps) == Firsts(init) + [lkeys[i]];
        assert Seconds(ps) == Seconds(init) + [rkeys[a[i]]];
        assert Elems(Firsts(ps)) == Elems(Firsts(init)) + {lkeys[i]};
        assert Elems(Seconds(ps)) == Elems(Seconds(init)) + {rkeys[a[i]]};
      }
    }
  }

  /** The `forEachIndexed` over an assignment (IterativeGraphComparator.kt:174-184, 199-211). */
  method PickMatches(lkeys: seq<nat>, rkeys: seq<nat>, m: Matrix, a: seq<int>, threshold: bool) returns (picks: seq<(nat, nat)>)
    requires |lkeys| == |m| == |a| && Rectangular(m, |rkeys|)
    requires forall i :: 0 <= i < |a| ==> a[i] == -1 || 0 <= a[i] < |rkeys|
    ensures picks == Picks(lkeys, rkeys, m, a, |a|, threshold)
  {
    picks := [];
    for i := 0 to |a|
      invariant picks == Picks(lkeys, rkeys, m, a, i, threshold)
    {
      if a[i] != -1 {
        var sim := Sub1(m[i][a[i]]);
        if !threshold || GreaterThanHalf(sim) {
          picks := picks + [(lkeys[i], rkeys[a[i]])];
        }
      }
    }
  }

  /** The accumulated state of one frontier round: the unmapped left and right neighbours
      met, in insertion order, and the costs of role-aligned neighbour pairs. */
  datatype Round = Round(lkeys: seq<nat>, rkeys: seq<nat>, sims: map<(nat, nat), real>)

  /** The comparator of one pair of graphs (the private `Comparator` class). */
  class Comparator {
    const lhs: Graph
    const rhs: Graph
    const nodeMatch: (Node, Node) -> int
    const edgeMatch: (Edge, Edge) -> int
    const assign: Matrix -> seq<int>
    var simMap: map<(nat, nat), Double>

    ghost predicate Valid()
    {
      WellFormed(lhs) && WellFormed(rhs) && AssignmentContract(assign)
    }

    /** The table holds exactly the pairs of a left and a right node. */
    ghost predicate Grid(m: map<(nat, nat), Double>)
    {
      forall l: nat, r: nat :: (l, r) in m <==> l < |lhs.nodes| && r < |rhs.nodes|
    }

    /** `makeSimilarityMap()` (IterativeGraphComparator.kt:216-223): every pair costs 1.0. */
    ghost predicate AllOnes(m: map<(nat, nat), Double>)
    {
      Grid(m) && forall k :: k in m ==> m[k] == Finite(1.0)
    }

    constructor(lhs: Graph, rhs: Graph, nodeMatch: (Node, Node) -> int, edgeMatch: (Edge, Edge) -> int,
                assign: Matrix -> seq<int>)
      ensures this.lhs == lhs && this.rhs == rhs && this.nodeMatch == nodeMatch
      ensures this.edgeMatch == edgeMatch && this.assign == assign
      ensures AllOnes(simMap)
    {
      this.lhs := lhs;
      this.rhs := rhs;
      this.nodeMatch := nodeMatch;
      this.edgeMatch := edgeMatch;
      this.assign := assign;
      var m := MakeSimilarityMap(|lhs.nodes|, |rhs.nodes|);
      simMap := m;
    }

    // -------------------------------------------------------------------------
    // Seeds (IterativeGraphComparator.kt:38-80, 225-257)
    // -------------------------------------------------------------------------

    /** The right nodes below `upto` that have kind `k`, in node order. */
    function SameKind(k: NodeKind, upto: nat): (r: seq<nat>)
      requires upto <= |rhs.nodes|
      ensures forall c: nat :: c in r <==> c < upto && rhs.nodes[c].kind == k
      ensures Distinct(r)
      ensures forall i :: 0 <= i < |r| ==> r[i] < upto
    {
      if upto == 0 then []
      else SameKind(k, upto - 1) + (if rhs.nodes[upto - 1].kind == k then [upto - 1] else [])
    }

    /** The candidates of left node `l`: the right operation nodes with the same operator
        or method signature; a non-operation node has none. */
    function Candidates(l: nat): (r: seq<nat>)
      requires l < |lhs.nodes|
      ensures forall c: nat :: c in r <==> IsOperation(lhs.nodes[l]) && c < |rhs.nodes| && rhs.nodes[c].kind == lhs.nodes[l].kind
      ensures Distinct(r)
    {
      if IsOperation(lhs.nodes[l]) then SameKind(lhs.nodes[l].kind, |rhs.nodes|) else []
    }

    /** `makeInitialCandidates` (IterativeGraphComparator.kt:225-257): the left operation
        nodes whose group has a counterpart, each with the whole right group. */
    function InitialCandidates(): (r: map<nat, seq<nat>>)
      ensures forall l: nat :: l in r <==> l < |lhs.nodes| && Candidates(l) != []
      ensures forall l: nat :: l in r ==> r[l] == Candidates(l)
    {
      map l | 0 <= l < |lhs.nodes| && Candidates(l) != [] :: Candidates(l)
    }

    /** The cost of matching edge `ne` of `n` with edge `ce` of `c`: 1 - min(edge match *
        opposite-node match, 1) for role-aligned edges, and the array's default 0.0 for
        the others (IterativeGraphComparator.kt:43-61). */
    function SeedEdgeCost(n: nat, c: nat, ne: Edge, ce: Edge): Double
      requires Valid() && ne in lhs.edges && ce in rhs.edges
    {
      if SameRole(ne, n, ce, c) then
        var sim := Min(edgeMatch(ne, ce) * nodeMatch(lhs.nodes[Opposite(ne, n)], rhs.nodes[Opposite(ce, c)]), 1);
        Finite(1.0 - sim as real)
      else Finite(0.0)
    }

    function SeedEdgeRow(n: nat, c: nat, i: nat): (r: seq<Double>)
      requires Valid() && i < |Incident(lhs, n)|
      ensures |r| == |Incident(rhs, c)|
    {
      var ne := Incident(lhs, n)[i];
      seq(|Incident(rhs, c)|, j requires 0 <= j < |Incident(rhs, c)| => SeedEdgeCost(n, c, ne, Incident(rhs, c)[j]))
    }

    /** The `sims` array of a seed candidate: rows are the edges of `n`, columns the edges
        of `c`. */
    function SeedEdgeCosts(n: nat, c: nat): (m: Matrix)
      requires Valid()
      ensures |m| == |Incident(lhs, n)| && Rectangular(m, |Incident(rhs, c)|)
    {
      seq(|Incident(lhs, n)|, i requires 0 <= i < |Incident(lhs, n)| => SeedEdgeRow(n, c, i))
    }

    /** The cost a seed candidate pair gets: 1 - (length of the assignment) / (larger
        degree) (IterativeGraphComparator.kt:63-78). */
    function SeedCost(n: nat, c: nat): Double
      requires Valid()
    {
      var m := SeedEdgeCosts(n, c);
      var matches := assign(m);
      assert IsAssignment(m, matches);
      Sub1(Ratio(|matches|, Max(|Incident(lhs, n)|, |Incident(rhs, c)|)))
    }

    /** The seed cost counts the rows of the assignment, not the assigned rows, so it
        depends on the two degrees alone; it is NaN when both degrees are 0. */
    lemma SeedCostByDegrees(n: nat, c: nat)
      requires Valid()
      ensures var dn, dc := |Incident(lhs, n)|, |Incident(rhs, c)|;
        SeedCost(n, c) == if Max(dn, dc) == 0 then NaN else Finite(1.0 - dn as real / Max(dn, dc) as real)
    {
      var m := SeedEdgeCosts(n, c);
      assert IsAssignment(m, assign(m));
    }

    /** The cost matrix of seed pair (`n`, `c`), built by the nested `forEachIndexed`. */
    method SeedEdgeCostArray(n: nat, c: nat) returns (sims: Matrix)
      requires Valid()
      ensures sims == SeedEdgeCosts(n, c)
    {
      var nodeEdges := Incident(lhs, n);
      var candidateEdges := Incident(rhs, c);
      sims := [];
      for i := 0 to |nodeEdges|
        invariant |sims| == i && forall a :: 0 <= a < i ==> sims[a] == SeedEdgeRow(n, c, a)
      {
        var row := [];
        for j := 0 to |candidateEdges|
          invariant |row| == j && forall b :: 0 <= b < j ==> row[b] == SeedEdgeCost(n, c, nodeEdges[i], candidateEdges[b])
        {
          row := row + [SeedEdgeCost(n, c, nodeEdges[i], candidateEdges[j])];
        }
        assert row == SeedEdgeRow(n, c, i);
        sims := sims + [row];
      }
      assert sims == SeedEdgeCosts(n, c);
    }

    /** The body of the candidate loop (IterativeGraphComparator.kt:42-78), without the
        list of matched neighbours, which nothing reads. */
    method SeedPairCost(n: nat, c: nat) returns (cost: Double)
      requires Valid()
      ensures cost == SeedCost(n, c)
    {
      var sims := SeedEdgeCostArray(n, c);
      var matches := assign(sims);
      assert IsAssignment(sims, matches);
      var similarity := Ratio(|matches|, Max(|Incident(lhs, n)|, |Incident(rhs, c)|));
      cost := Sub1(similarity);
    }

    /** The table after seeding: candidate pairs carry their seed cost, every other pair
        still costs 1.0. */
    ghost predicate Seeded(m: map<(nat, nat), Double>)
      requires Valid()
    {
      Grid(m) && forall l: nat, c: nat :: (l, c) in m ==>
        m[(l, c)] == if c in Candidates(l) then SeedCost(l, c) else Finite(1.0)
    }

    /** The seeding loops (IterativeGraphComparator.kt:38-80). Candidate pairs are visited
        in left-node order; they are distinct, so the order does not change the table. */
    method SeedCosts()
      requires Valid() && AllOnes(simMap)
      modifies this
      ensures Seeded(simMap) && simMap == SeedTable()
    {
      SeededFromOnes(simMap);
      for l := 0 to |lhs.nodes|
        invariant SeededBefore(simMap, l, 0)
      {
        var candidates := Candidates(l);
        for j := 0 to |candidates|
          invariant SeededBefore(simMap, l, j)
        {
          var candidate := candidates[j];
          var cost := SeedPairCost(l, candidate);
          SeededStep(simMap, l, j);
          simMap := simMap[(l, candidate) := cost];
        }
        SeededNextNode(simMap, l);
      }
      SeededAll(simMap);
      SeededIsSeedTable(simMap);
    }

    /** The pairs the seeding loops have written once they are at candidate `j` of left
        node `l`. */
    ghost predicate Written(a: nat, c: nat, l: nat, j: nat)
    {
      (a < l && a < |lhs.nodes| && c in Candidates(a)) || (a == l && l < |lhs.nodes| && c in Candidates(l)[..Min(j, |Candidates(l)|)])
    }

    ghost predicate SeededBefore(m: map<(nat, nat), Double>, l: nat, j: nat)
      requires Valid()
    {
      Grid(m) && forall a: nat, c: nat :: (a, c) in m ==>
        m[(a, c)] == if Written(a, c, l, j) then SeedCost(a, c) else Finite(1.0)
    }

    lemma SeededFromOnes(m: map<(nat, nat), Double>)
      requires Valid() && AllOnes(m)
      ensures SeededBefore(m, 0, 0)
    {
      forall a: nat, c: nat | (a, c) in m
        ensures !Written(a, c, 0, 0)
      {
        assert Candidates(0)[..0] == [];
      }
    }

    lemma SeededStep(m: map<(nat, nat), Double>, l: nat, j: nat)
      requires Valid() && l < |lhs.nodes| && j < |Candidates(l)| && SeededBefore(m, l, j)
      ensures SeededBefore(m[(l, Candidates(l)[j]) := SeedCost(l, Candidates(l)[j])], l, j + 1)
    {
      var cs := Candidates(l);
      assert cs[..j + 1] == cs[..j] + [cs[j]];
      var m' := m[(l, cs[j]) := SeedCost(l, cs[j])];
      forall a: nat, c: nat | (a, c) in m' && (a, c) != (l, cs[j])
        ensures Written(a, c, l, j + 1) == Written(a, c, l, j)
      {
      }
    }

    lemma SeededNextNode(m: map<(nat, nat), Double>, l: nat)
      requires Valid() && l < |lhs.nodes| && SeededBefore(m, l, |Candidates(l)|)
      ensures SeededBefore(m, l + 1, 0)
    {
      var cs := Candidates(l);
      assert cs[..|cs|] == cs;
      forall a: nat, c: nat | (a, c) in m
        ensures Written(a, c, l + 1, 0) == Written(a, c, l, |cs|)
      {
        if l + 1 < |lhs.nodes| {
          assert Candidates(l + 1)[..0] == [];
        }
      }
    }

    lemma SeededAll(m: map<(nat, nat), Double>)
      requires Valid() && SeededBefore(m, |lhs.nodes|, 0)
      ensures Seeded(m)
    {
    }

    /** The seeded table itself; `SeededIsSeedTable` shows it is the one table `Seeded`
        describes. */
    function SeedTable(): (m: map<(nat, nat), Double>)
      requires Valid()
      ensures Grid(m)
    {
      map l: nat, c: nat | l < |lhs.nodes| && c < |rhs.nodes| ::
        (l, c) := if c in Candidates(l) then SeedCost(l, c) else Finite(1.0)
    }

    /** `Seeded` determines the table: `SeedTable()` is seeded, and no other table is. */
    lemma SeededIsSeedTable(m: map<(nat, nat), Double>)
      requires Valid()
      ensures Seeded(SeedTable())
      ensures Seeded(m) <==> m == SeedTable()
    {
      if Seeded(m) {
        SeededDetermines(m);
      }
    }

    lemma SeededDetermines(m: map<(nat, nat), Double>)
      requires Valid() && Seeded(m)
      ensures m == SeedTable()
    {
      var t := SeedTable();
      forall k: (nat, nat)
        ensures (k in m <==> k in t) && (k in m ==> m[k] == t[k])
      {
        var (l, c) := k;
        assert (l, c) in m <==> (l, c) in t;
      }
    }

    /** `makeBestMatches()`'s cost array: the seeded table, row per left node, column per
        right node. */
    function SeedMatrix(m: map<(nat, nat), Double>): (r: Matrix)
      requires Grid(m)
      ensures |r| == |lhs.nodes| && Rectangular(r, |rhs.nodes|)
    {
      seq(|lhs.nodes|, i requires 0 <= i < |lhs.nodes| =>
        seq(|rhs.nodes|, j requires 0 <= j < |rhs.nodes| => m[(i, j)]))
    }

    /** The seed pairs: assigned pairs whose similarity exceeds 0.5. */
    function SeedPairs(m: map<(nat, nat), Double>): seq<(nat, nat)>
      requires Valid() && Grid(m)
    {
      var costs := SeedMatrix(m);
      var matches := assign(costs);
      assert IsAssignment(costs, matches);
      Picks(Range(|lhs.nodes|), Range(|rhs.nodes|), costs, matches, |matches|, true)
    }

    /** Every seed pair is a candidate pair, so both nodes are operations of the same
        operator or method signature. */
    lemma SeedsShareKey(m: map<(nat, nat), Double>, q: (nat, nat))
      requires Valid() && Seeded(m) && q in SeedPairs(m)
      ensures q.0 < |lhs.nodes| && q.1 < |rhs.nodes| && q.1 in Candidates(q.0)
      ensures IsOperation(lhs.nodes[q.0]) && rhs.nodes[q.1].kind == lhs.nodes[q.0].kind
    {
      var costs := SeedMatrix(m);
      var matches := assign(costs);
      assert IsAssignment(costs, matches);
      PicksFromRows(Range(|lhs.nodes|), Range(|rhs.nodes|), costs, matches, |matches|, true, q);
    }

    /** The seed threshold: an assigned pair is a seed exactly when its similarity
        `1 - cost` exceeds 0.5. */
    lemma SeedThreshold(m: map<(nat, nat), Double>, i: nat)
      requires Valid() && Grid(m)
      ensures var a := assign(SeedMatrix(m));
        i < |a| && a[i] != -1 ==>
          && i < |lhs.nodes| && 0 <= a[i] < |rhs.nodes|
          && ((i, a[i] as nat) in SeedPairs(m) <==> GreaterThanHalf(Sub1(SeedMatrix(m)[i][a[i]])))
    {
      var costs := SeedMatrix(m);
      var a := assign(costs);
      assert IsAssignment(costs, a);
      if i < |a| && a[i] != -1 {
        var ls, rs := Range(|lhs.nodes|), Range(|rhs.nodes|);
        if GreaterThanHalf(Sub1(costs[i][a[i]])) {
          PicksFromEveryRow(ls, rs, costs, a, |a|, true, i);
        }
        if (i, a[i] as nat) in SeedPairs(m) {
          PicksFromRows(ls, rs, costs, a, |a|, true, (i, a[i] as nat));
        }
      }
    }

    /** `makeBestMatches()` (IterativeGraphComparator.kt:189-214). */
    method BestSeedMatches() returns (seeds: seq<(nat, nat)>)
      requires Valid() && Grid(simMap)
      ensures seeds == SeedPairs(simMap)
    {
      var simArr: Matrix := [];
      for i := 0 to |lhs.nodes|
        invariant |simArr| == i && forall a :: 0 <= a < i ==> simArr[a] == SeedMatrix(simMap)[a]
      {
        var row := [];
        for j := 0 to |rhs.nodes|
          invariant |row| == j && forall b :: 0 <= b < j ==> row[b] == simMap[(i, b)]
        {
          row := row + [simMap[(i, j)]];
        }
        assert row == SeedMatrix(simMap)[i];
        simArr := simArr + [row];
      }
      assert simArr == SeedMatrix(simMap);
      var matches := assign(simArr);
      assert IsAssignment(simArr, matches);
      seeds := PickMatches(Range(|lhs.nodes|), Range(|rhs.nodes|), simArr, matches, true);
    }

    // -------------------------------------------------------------------------
    // Frontier rounds (IterativeGraphComparator.kt:98-147, 162-187)
    // -------------------------------------------------------------------------

    /** The similarity of a role-aligned neighbour pair. Both neighbours are unmapped when
        it is computed, so of the three branches at IterativeGraphComparator.kt:124-130
        only the last is live: min(edge match * min(node match, 1), 1). */
    function FrontierSim(ledge: Edge, redge: Edge, lop: nat, rop: nat): real
      requires lop < |lhs.nodes| && rop < |rhs.nodes|
    {
      var nodeSim := Min(nodeMatch(lhs.nodes[lop], rhs.nodes[rop]), 1) as real;
      var product := edgeMatch(ledge, redge) as real * nodeSim;
      if product <= 1.0 then product else 1.0
    }

    /** One step of the inner loop over the right node's edges. */
    function RightStep(acc: Round, lnode: nat, ledge: Edge, lop: nat, rnode: nat, redge: Edge, rMapped: set<nat>): Round
      requires Valid() && lop < |lhs.nodes| && redge in rhs.edges
    {
      var rop := Opposite(redge, rnode);
      if rop in rMapped then acc
      else
        var next := acc.(rkeys := AddKey(acc.rkeys, rop));
        if SameRole(ledge, lnode, redge, rnode)
        then next.(sims := next.sims[(lop, rop) := 1.0 - FrontierSim(ledge, redge, lop, rop)])
        else next
    }

    /** The inner loop over the first `j` edges of the right node. */
    function ScanRight(acc: Round, lnode: nat, ledge: Edge, lop: nat, rnode: nat, j: nat, rMapped: set<nat>): Round
      requires Valid() && lop < |lhs.nodes| && j <= |Incident(rhs, rnode)|
    {
      if j == 0 then acc
      else RightStep(ScanRight(acc, lnode, ledge, lop, rnode, j - 1, rMapped), lnode, ledge, lop, rnode,
                     Incident(rhs, rnode)[j - 1], rMapped)
    }

    /** One step of the loop over the left node's edges. */
    function LeftStep(acc: Round, lnode: nat, rnode: nat, ledge: Edge, lMapped: set<nat>, rMapped: set<nat>): Round
      requires Valid() && ledge in lhs.edges
    {
      var lop := Opposite(ledge, lnode);
      if lop in lMapped then acc
      else ScanRight(acc.(lkeys := AddKey(acc.lkeys, lop)), lnode, ledge, lop, rnode, |Incident(rhs, rnode)|, rMapped)
    }

    /** The loop over the first `i` edges of the left node. */
    function ScanLeft(acc: Round, lnode: nat, rnode: nat, i: nat, lMapped: set<nat>, rMapped: set<nat>): Round
      requires Valid() && i <= |Incident(lhs, lnode)|
    {
      if i == 0 then acc
      else LeftStep(ScanLeft(acc, lnode, rnode, i - 1, lMapped, rMapped), lnode, rnode, Incident(lhs, lnode)[i - 1], lMapped, rMapped)
    }

    /** The loop over the first `p` pairs mapped in the previous round. */
    function ScanPairs(pairs: seq<(nat, nat)>, p: nat, lMapped: set<nat>, rMapped: set<nat>): Round
      requires Valid() && p <= |pairs|
    {
      if p == 0 then Round([], [], map[])
      else
        var (lnode, rnode) := pairs[p - 1];
        ScanLeft(ScanPairs(pairs, p - 1, lMapped, rMapped), lnode, rnode, |Incident(lhs, lnode)|, lMapped, rMapped)
    }

    /** The keys of a round are distinct nodes of their graphs that are not yet mapped. */
    predicate FreshKeys(r: Round, lMapped: set<nat>, rMapped: set<nat>)
    {
      && Distinct(r.lkeys) && Distinct(r.rkeys)
      && (forall k :: k in r.lkeys ==> k < |lhs.nodes| && k !in lMapped)
      && (forall k :: k in r.rkeys ==> k < |rhs.nodes| && k !in rMapped)
    }

    lemma {:induction false} ScanRightFresh(acc: Round, lnode: nat, ledge: Edge, lop: nat, rnode: nat, j: nat, lMapped: set<nat>, rMapped: set<nat>)
      requires Valid() && lop < |lhs.nodes| && j <= |Incident(rhs, rnode)|
      requires FreshKeys(acc, lMapped, rMapped)
      ensures FreshKeys(ScanRight(acc, lnode, ledge, lop, rnode, j, rMapped), lMapped, rMapped)
      ensures ScanRight(acc, lnode, ledge, lop, rnode, j, rMapped).lkeys == acc.lkeys
    {
      if j > 0 {
        ScanRightFresh(acc, lnode, ledge, lop, rnode, j - 1, lMapped, rMapped);
        var redge := Incident(rhs, rnode)[j - 1];
        assert redge in rhs.edges;
      }
    }

    lemma {:induction false} ScanLeftFresh(acc: Round, lnode: nat, rnode: nat, i: nat, lMapped: set<nat>, rMapped: set<nat>)
      requires Valid() && i <= |Incident(lhs, lnode)|
      requires FreshKeys(acc, lMapped, rMapped)
      ensures FreshKeys(ScanLeft(acc, lnode, rnode, i, lMapped, rMapped), lMapped, rMapped)
    {
      if i > 0 {
        ScanLeftFresh(acc, lnode, rnode, i - 1, lMapped, rMapped);
        var before := ScanLeft(acc, lnode, rnode, i - 1, lMapped, rMapped);
        var ledge := Incident(lhs, lnode)[i - 1];
        assert ledge in lhs.edges;
        var lop := Opposite(ledge, lnode);
        if lop !in lMapped {
          var added := before.(lkeys := AddKey(before.lkeys, lop));
          assert FreshKeys(added, lMapped, rMapped);
          ScanRightFresh(added, lnode, ledge, lop, rnode, |Incident(rhs, rnode)|, lMapped, rMapped);
        }
      }
    }

    /** Partner of a round: its keys are distinct unmapped nodes. */
    lemma {:induction false} ScanPairsFresh(pairs: seq<(nat, nat)>, p: nat, lMapped: set<nat>, rMapped: set<nat>)
      requires Valid() && p <= |pairs|
      ensures FreshKeys(ScanPairs(pairs, p, lMapped, rMapped), lMapped, rMapped)
    {
      if p > 0 {
        ScanPairsFresh(pairs, p - 1, lMapped, rMapped);
        var (lnode, rnode) := pairs[p - 1];
        ScanLeftFresh(ScanPairs(pairs, p - 1, lMapped, rMapped), lnode, rnode, |Incident(lhs, lnode)|, lMapped, rMapped);
      }
    }

    lemma {:induction false} ScanRightNeighbours(acc: Round, lnode: nat, ledge: Edge, lop: nat, rnode: nat, j: nat, rMapped: set<nat>)
      requires Valid() && lop < |lhs.nodes| && j <= |Incident(rhs, rnode)|
      ensures Elems(ScanRight(acc, lnode, ledge, lop, rnode, j, rMapped).rkeys) <= Elems(acc.rkeys) + Neighbours(rhs, rnode)
      ensures ScanRight(acc, lnode, ledge, lop, rnode, j, rMapped).lkeys == acc.lkeys
    {
      if j > 0 {
        ScanRightNeighbours(acc, lnode, ledge, lop, rnode, j - 1, rMapped);
        var redges := Incident(rhs, rnode);
        var redge := redges[j - 1];
        assert redge in rhs.edges;
        assert redge in redges[..|redges|];
        assert Opposite(redge, rnode) in Neighbours(rhs, rnode);
      }
    }

    lemma {:induction false} ScanLeftNeighbours(acc: Round, lnode: nat, rnode: nat, i: nat, lMapped: set<nat>, rMapped: set<nat>)
      requires Valid() && i <= |Incident(lhs, lnode)|
      ensures LeftKeysFrom(acc, lnode, rnode, i, lMapped, rMapped)
    {
      if i == 0 {
        assert NeighboursUpTo(lhs, lnode, 0) == {};
      } else {
        ScanLeftNeighbours(acc, lnode, rnode, i - 1, lMapped, rMapped);
        ScanLeftNeighboursStep(acc, lnode, rnode, i, lMapped, rMapped);
      }
    }

    /** After `i` left edges, the left keys added are the unmapped neighbours met so far
        and the right keys added are neighbours of the right node. */
    ghost predicate LeftKeysFrom(acc: Round, lnode: nat, rnode: nat, i: nat, lMapped: set<nat>, rMapped: set<nat>)
      requires Valid() && i <= |Incident(lhs, lnode)|
    {
      var r := ScanLeft(acc, lnode, rnode, i, lMapped, rMapped);
      && Elems(r.lkeys) == Elems(acc.lkeys) + (NeighboursUpTo(lhs, lnode, i) - lMapped)
      && Elems(r.rkeys) <= Elems(acc.rkeys) + Neighbours(rhs, rnode)
    }

    lemma ScanLeftNeighboursStep(acc: Round, lnode: nat, rnode: nat, i: nat, lMapped: set<nat>, rMapped: set<nat>)
      requires Valid() && 0 < i <= |Incident(lhs, lnode)|
      requires LeftKeysFrom(acc, lnode, rnode, i - 1, lMapped, rMapped)
      ensures LeftKeysFrom(acc, lnode, rnode, i, lMapped, rMapped)
    {
      var before := ScanLeft(acc, lnode, rnode, i - 1, lMapped, rMapped);
      var ledge := Incident(lhs, lnode)[i - 1];
      assert ledge in lhs.edges;
      NeighboursUpToStep(lhs, lnode, i);
      LeftStepNeighbours(before, lnode, rnode, ledge, lMapped, rMapped);
      SetDifferenceUnion(Elems(acc.lkeys), NeighboursUpTo(lhs, lnode, i - 1), {Opposite(ledge, lnode)}, lMapped);
    }

    lemma SetDifferenceUnion(a: set<nat>, b: set<nat>, c: set<nat>, m: set<nat>)
      ensures a + (b - m) + (c - m) == a + ((b + c) - m)
    {
    }

    lemma NeighboursUpToStep(g: Graph, n: nat, i: nat)
      requires 0 < i <= |Incident(g, n)|
      ensures NeighboursUpTo(g, n, i) == NeighboursUpTo(g, n, i - 1) + {Opposite(Incident(g, n)[i - 1], n)}
    {
      var es := Incident(g, n);
      assert es[..i] == es[..i - 1] + [es[i - 1]];
    }

    lemma LeftStepNeighbours(acc: Round, lnode: nat, rnode: nat, ledge: Edge, lMapped: set<nat>, rMapped: set<nat>)
      requires Valid() && ledge in lhs.edges
      ensures var r := LeftStep(acc, lnode, rnode, ledge, lMapped, rMapped);
        var lop := Opposite(ledge, lnode);
        && Elems(r.lkeys) == Elems(acc.lkeys) + ({lop} - lMapped)
        && Elems(r.rkeys) <= Elems(acc.rkeys) + Neighbours(rhs, rnode)
    {
      var lop := Opposite(ledge, lnode);
      if lop !in lMapped {
        var added := acc.(lkeys := AddKey(acc.lkeys, lop));
        assert Elems(added.lkeys) == Elems(acc.lkeys) + {lop};
        ScanRightNeighbours(added, lnode, ledge, lop, rnode, |Incident(rhs, rnode)|, rMapped);
      }
    }

    /** The left keys of a round are exactly the unmapped neighbours of the left nodes
        mapped last, and its right keys are neighbours of the right nodes mapped last. */
    lemma {:induction false} ScanPairsNeighbours(pairs: seq<(nat, nat)>, p: nat, lMapped: set<nat>, rMapped: set<nat>)
      requires Valid() && p <= |pairs|
      ensures var r := ScanPairs(pairs, p, lMapped, rMapped);
        && Elems(r.lkeys) == Frontier(lhs, pairs, p, true) - lMapped
        && Elems(r.rkeys) <= Frontier(rhs, pairs, p, false)
    {
      if p == 0 {
        assert Elems([]) == {};
      } else {
        ScanPairsNeighbours(pairs, p - 1, lMapped, rMapped);
        var (lnode, rnode) := pairs[p - 1];
        ScanLeftNeighbours(ScanPairs(pairs, p - 1, lMapped, rMapped), lnode, rnode, |Incident(lhs, lnode)|, lMapped, rMapped);
      }
    }

    /** The body of one frontier round up to the call of `makeBestMatches`
        (IterativeGraphComparator.kt:102-138). */
    method FrontierRound(pairs: seq<(nat, nat)>, lMapped: set<nat>, rMapped: set<nat>) returns (round: Round)
      requires Valid()
      ensures round == ScanPairs(pairs, |pairs|, lMapped, rMapped)
    {
      round := Round([], [], map[]);
      for p := 0 to |pairs|
        invariant round == ScanPairs(pairs, p, lMapped, rMapped)
      {
        var (lnode, rnode) := pairs[p];
        round := ScanEdges(round, lnode, rnode, lMapped, rMapped);
      }
    }

    /** The loops over the edges of one mapped pair (IterativeGraphComparator.kt:107-137). */
    method ScanEdges(acc: Round, lnode: nat, rnode: nat, lMapped: set<nat>, rMapped: set<nat>) returns (round: Round)
      requires Valid()
      ensures round == ScanLeft(acc, lnode, rnode, |Incident(lhs, lnode)|, lMapped, rMapped)
    {
      var ledges := Incident(lhs, lnode);
      round := acc;
      for i := 0 to |ledges|
        invariant round == ScanLeft(acc, lnode, rnode, i, lMapped, rMapped)
      {
        var ledge := ledges[i];
        assert ledge in lhs.edges;
        var lop := Opposite(ledge, lnode);
        if lop in lMapped {
          continue;
        }
        ghost var before := round;
        round := ScanRightEdges(round.(lkeys := AddKey(round.lkeys, lop)), lnode, ledge, lop, rnode, rMapped);
        assert round == LeftStep(before, lnode, rnode, ledge, lMapped, rMapped);
      }
    }

    /** The loop over the right node's edges for one left edge (IterativeGraphComparator.kt:
        115-136). */
    method ScanRightEdges(acc: Round, lnode: nat, ledge: Edge, lop: nat, rnode: nat, rMapped: set<nat>) returns (round: Round)
      requires Valid() && lop < |lhs.nodes|
      ensures round == ScanRight(acc, lnode, ledge, lop, rnode, |Incident(rhs, rnode)|, rMapped)
    {
      var redges := Incident(rhs, rnode);
      round := acc;
      for j := 0 to |redges|
        invariant round == ScanRight(acc, lnode, ledge, lop, rnode, j, rMapped)
      {
        var redge := redges[j];
        assert redge in rhs.edges;
        var rop := Opposite(redge, rnode);
        if rop in rMapped {
          continue;
        }
        round := round.(rkeys := AddKey(round.rkeys, rop));
        if SameRole(ledge, lnode, redge, rnode) {
          var sim := FrontierSim(ledge, redge, lop, rop);
          round := round.(sims := round.sims[(lop, rop) := 1.0 - sim]);
        }
      }
    }

    /** A frontier round's cost array: the recorded cost of a pair, 1.0 where none was
        recorded. */
    function FrontierMatrix(lkeys: seq<nat>, rkeys: seq<nat>, sims: map<(nat, nat), real>): (m: Matrix)
      ensures |m| == |lkeys| && Rectangular(m, |rkeys|)
    {
      seq(|lkeys|, i requires 0 <= i < |lkeys| =>
        seq(|rkeys|, j requires 0 <= j < |rkeys| =>
          if (lkeys[i], rkeys[j]) in sims then Finite(sims[(lkeys[i], rkeys[j])]) else Finite(1.0)))
    }

    /** `makeBestMatches(lkeys, rkeys, sims)`: no pairs when a side is empty, otherwise
        every assigned pair, with no threshold. */
    function FrontierPairs(lkeys: seq<nat>, rkeys: seq<nat>, sims: map<(nat, nat), real>): seq<(nat, nat)>
      requires Valid()
    {
      if lkeys == [] || rkeys == [] then []
      else
        var costs := FrontierMatrix(lkeys, rkeys, sims);
        var matches := assign(costs);
        assert IsAssignment(costs, matches);
        Picks(lkeys, rkeys, costs, matches, |matches|, false)
    }

    /** `makeBestMatches(lkeys, rkeys, sims)` (IterativeGraphComparator.kt:162-187). */
    method BestMatches(lkeys: seq<nat>, rkeys: seq<nat>, sims: map<(nat, nat), real>) returns (matched: seq<(nat, nat)>)
      requires Valid()
      ensures matched == FrontierPairs(lkeys, rkeys, sims)
    {
      if |lkeys| == 0 || |rkeys| == 0 {
        return [];
      }
      var simArr: Matrix := [];
      for i := 0 to |lkeys|
        invariant |simArr| == i && forall a :: 0 <= a < i ==> simArr[a] == FrontierMatrix(lkeys, rkeys, sims)[a]
      {
        var row := [];
        for j := 0 to |rkeys|
          invariant |row| == j && forall b :: 0 <= b < j ==> row[b] == FrontierMatrix(lkeys, rkeys, sims)[i][b]
        {
          var key := (lkeys[i], rkeys[j]);
          row := row + [if key in sims then Finite(sims[key]) else Finite(1.0)];
        }
        simArr := simArr + [row];
      }
      assert simArr == FrontierMatrix(lkeys, rkeys, sims);
      var matches := assign(simArr);
      assert IsAssignment(simArr, matches);
      matched := PickMatches(lkeys, rkeys, simArr, matches, false);
    }

    /** The pairs of a round are fresh on both sides, with distinct left and distinct
        right nodes. */
    lemma FrontierPairsFresh(lkeys: seq<nat>, rkeys: seq<nat>, sims: map<(nat, nat), real>, lMapped: set<nat>, rMapped: set<nat>)
      requires Valid() && FreshKeys(Round(lkeys, rkeys, sims), lMapped, rMapped)
      ensures var ps := FrontierPairs(lkeys, rkeys, sims);
        && Distinct(Firsts(ps)) && Distinct(Seconds(ps))
        && (forall k :: k in Firsts(ps) ==> k < |lhs.nodes| && k !in lMapped)
        && (forall k :: k in Seconds(ps) ==> k < |rhs.nodes| && k !in rMapped)
    {
      if lkeys != [] && rkeys != [] {
        var costs := FrontierMatrix(lkeys, rkeys, sims);
        var matches := assign(costs);
        assert IsAssignment(costs, matches);
        PicksDistinct(lkeys, rkeys, costs, matches, |matches|, false);
        var ps := FrontierPairs(lkeys, rkeys, sims);
        forall k | k in Firsts(ps)
          ensures k in lkeys
        {
          assert k in Elems(Firsts(ps));
        }
        forall k | k in Seconds(ps)
          ensures k in rkeys
        {
          assert k in Elems(Seconds(ps));
        }
      }
    }

    /** A frontier round has no threshold: an empty side gives no pairs, and otherwise
        every assigned row gives the pair of its keys. */
    lemma FrontierAcceptsAssigned(lkeys: seq<nat>, rkeys: seq<nat>, sims: map<(nat, nat), real>, i: nat)
      requires Valid()
      ensures lkeys == [] || rkeys == [] ==> FrontierPairs(lkeys, rkeys, sims) == []
      ensures var a := assign(FrontierMatrix(lkeys, rkeys, sims));
        lkeys != [] && rkeys != [] && i < |a| && a[i] != -1 ==>
          && i < |lkeys| && 0 <= a[i] < |rkeys|
          && (lkeys[i], rkeys[a[i]]) in FrontierPairs(lkeys, rkeys, sims)
    {
      var costs := FrontierMatrix(lkeys, rkeys, sims);
      var a := assign(costs);
      assert IsAssignment(costs, a);
      if lkeys != [] && rkeys != [] && i < |a| && a[i] != -1 {
        PicksFromEveryRow(lkeys, rkeys, costs, a, |a|, false, i);
      }
    }

    /** The seed pairs have distinct left and distinct right nodes of their graphs. */
    lemma SeedPairsDistinct(m: map<(nat, nat), Double>)
      requires Valid() && Grid(m)
      ensures var ps := SeedPairs(m);
        && Distinct(Firsts(ps)) && Distinct(Seconds(ps))
        && (forall k :: k in Firsts(ps) ==> k < |lhs.nodes|)
        && (forall k :: k in Seconds(ps) ==> k < |rhs.nodes|)
    {
      var costs := SeedMatrix(m);
      var matches := assign(costs);
      assert IsAssignment(costs, matches);
      PicksDistinct(Range(|lhs.nodes|), Range(|rhs.nodes|), costs, matches, |matches|, true);
      var ps := SeedPairs(m);
      forall k | k in Firsts(ps)
        ensures k < |lhs.nodes|
      {
        assert k in Elems(Range(|lhs.nodes|));
      }
      forall k | k in Seconds(ps)
        ensures k < |rhs.nodes|
      {
        assert k in Elems(Range(|rhs.nodes|));
      }
    }

    // -------------------------------------------------------------------------
    // The comparison (IterativeGraphComparator.kt:31-156)
    // -------------------------------------------------------------------------

    /** One frontier round (IterativeGraphComparator.kt:99-140): the best matches among the
        unmapped neighbours of the pairs mapped last; they are fresh on both sides and have
        distinct left and distinct right nodes. */
    method Expand(pairs: seq<(nat, nat)>, lMapped: set<nat>, rMapped: set<nat>) returns (best: seq<(nat, nat)>)
      requires Valid()
      ensures var round := ScanPairs(pairs, |pairs|, lMapped, rMapped);
        best == FrontierPairs(round.lkeys, round.rkeys, round.sims)
      ensures Distinct(Firsts(best)) && Distinct(Seconds(best))
      ensures forall k :: k in Firsts(best) ==> k < |lhs.nodes| && k !in lMapped
      ensures forall k :: k in Seconds(best) ==> k < |rhs.nodes| && k !in rMapped
    {
      var round := FrontierRound(pairs, lMapped, rMapped);
      ScanPairsFresh(pairs, |pairs|, lMapped, rMapped);
      best := BestMatches(round.lkeys, round.rkeys, round.sims);
      FrontierPairsFresh(round.lkeys, round.rkeys, round.sims, lMapped, rMapped);
    }

    /** The `forEach` that records a round's pairs as mapped. */
    method Record(pairs: seq<(nat, nat)>, lMapped: set<nat>, rMapped: set<nat>) returns (lNext: set<nat>, rNext: set<nat>)
      ensures lNext == lMapped + Elems(Firsts(pairs)) && rNext == rMapped + Elems(Seconds(pairs))
    {
      lNext, rNext := lMapped, rMapped;
      for i := 0 to |pairs|
        invariant lNext == lMapped + Elems(Firsts(pairs[..i])) && rNext == rMapped + Elems(Seconds(pairs[..i]))
      {
        assert Elems(Firsts(pairs[..i + 1])) == Elems(Firsts(pairs[..i])) + {pairs[i].0};
        assert Elems(Seconds(pairs[..i + 1])) == Elems(Seconds(pairs[..i])) + {pairs[i].1};
        lNext := lNext + {pairs[i].0};
        rNext := rNext + {pairs[i].1};
      }
      assert pairs[..|pairs|] == pairs;
    }

    /** The mapping the frontier rounds grow from `lMapped` and `rMapped`, where `last`
        holds the pairs mapped last (IterativeGraphComparator.kt:92-147): each round maps
        its pairs and they become `last`, until a round yields none. Each round adds as
        many left nodes as right nodes. */
    function Grown(last: seq<(nat, nat)>, lMapped: set<nat>, rMapped: set<nat>): (r: (set<nat>, set<nat>))
      requires Valid()
      requires forall k :: k in lMapped ==> k < |lhs.nodes|
      requires forall k :: k in rMapped ==> k < |rhs.nodes|
      ensures lMapped <= r.0 && rMapped <= r.1
      ensures forall k :: k in r.0 ==> k < |lhs.nodes|
      ensures forall k :: k in r.1 ==> k < |rhs.nodes|
      ensures |r.0| - |lMapped| == |r.1| - |rMapped|
      decreases |lhs.nodes| - |lMapped|, |last|
    {
      if last == [] then (lMapped, rMapped)
      else
        var round := ScanPairs(last, |last|, lMapped, rMapped);
        var best := FrontierPairs(round.lkeys, round.rkeys, round.sims);
        ScanPairsFresh(last, |last|, lMapped, rMapped);
        FrontierPairsFresh(round.lkeys, round.rkeys, round.sims, lMapped, rMapped);
        CardAddDistinct(lMapped, Firsts(best));
        CardAddDistinct(rMapped, Seconds(best));
        CardBelow(lMapped + Elems(Firsts(best)), |lhs.nodes|);
        Grown(best, lMapped + Elems(Firsts(best)), rMapped + Elems(Seconds(best)))
    }

    /** One round of the `while` loop: a round that yields no pairs ends the growth;
        otherwise its pairs are all mapped in the end, and the mapping has strictly grown
        on both sides, by at least their number. */
    lemma GrownRound(last: seq<(nat, nat)>, lMapped: set<nat>, rMapped: set<nat>)
      requires Valid() && last != []
      requires forall k :: k in lMapped ==> k < |lhs.nodes|
      requires forall k :: k in rMapped ==> k < |rhs.nodes|
      ensures var round := ScanPairs(last, |last|, lMapped, rMapped);
        var best := FrontierPairs(round.lkeys, round.rkeys, round.sims);
        var r := Grown(last, lMapped, rMapped);
        && (best == [] ==> r == (lMapped, rMapped))
        && Elems(Firsts(best)) <= r.0 && Elems(Seconds(best)) <= r.1
        && |r.0| >= |lMapped| + |best| && |r.1| >= |rMapped| + |best|
    {
      var round := ScanPairs(last, |last|, lMapped, rMapped);
      var best := FrontierPairs(round.lkeys, round.rkeys, round.sims);
      ScanPairsFresh(last, |last|, lMapped, rMapped);
      FrontierPairsFresh(round.lkeys, round.rkeys, round.sims, lMapped, rMapped);
      CardAddDistinct(lMapped, Firsts(best));
      CardAddDistinct(rMapped, Seconds(best));
      var lNext, rNext := lMapped + Elems(Firsts(best)), rMapped + Elems(Seconds(best));
      var r := Grown(last, lMapped, rMapped);
      assert r == Grown(best, lNext, rNext);
      assert lNext <= r.0 && rNext <= r.1;
      SubsetCard(lNext, r.0);
      SubsetCard(rNext, r.1);
      if best == [] {
        assert lNext == lMapped && rNext == rMapped;
      }
    }

    /** The nodes mapped once the mapping has grown from the seed pairs of the seeded
        table: every seed is mapped, and as many left nodes as right nodes. */
    function Mapping(): (r: (set<nat>, set<nat>))
      requires Valid()
      ensures Elems(Firsts(SeedPairs(SeedTable()))) <= r.0 && Elems(Seconds(SeedPairs(SeedTable()))) <= r.1
      ensures forall k :: k in r.0 ==> k < |lhs.nodes|
      ensures forall k :: k in r.1 ==> k < |rhs.nodes|
      ensures |r.0| == |r.1|
    {
      var seeds := SeedPairs(SeedTable());
      SeedPairsDistinct(SeedTable());
      CardAddDistinct({}, Firsts(seeds));
      CardAddDistinct({}, Seconds(seeds));
      Grown(seeds, Elems(Firsts(seeds)), Elems(Seconds(seeds)))
    }

    lemma MappingSizes()
      requires Valid()
      ensures |Mapping().0| <= |lhs.nodes| && |Mapping().1| <= |rhs.nodes|
    {
      var mapped := Mapping();
      CardBelow(mapped.0, |lhs.nodes|);
      CardBelow(mapped.1, |rhs.nodes|);
    }

    /** What `compare()` returns: (0, 0) when the node counts differ by more than 40;
        otherwise the fractions of left and right nodes in `Mapping()`, which are NaN for an
        empty graph and otherwise lie in [0, 1]. As `Mapping()` holds as many left nodes as
        right nodes, the two fractions count the same number of nodes. */
    function Scores(): (r: (Double, Double))
      requires Valid()
      ensures Abs(|lhs.nodes| - |rhs.nodes|) > 40 ==> r == (Finite(0.0), Finite(0.0))
      ensures Abs(|lhs.nodes| - |rhs.nodes|) <= 40 ==>
        && r == (Ratio(|Mapping().0|, |lhs.nodes|), Ratio(|Mapping().1|, |rhs.nodes|))
        && (r.0.NaN? <==> |lhs.nodes| == 0) && (r.1.NaN? <==> |rhs.nodes| == 0)
        && (r.0.Finite? ==> 0.0 <= r.0.value <= 1.0) && (r.1.Finite? ==> 0.0 <= r.1.value <= 1.0)
    {
      if Abs(|lhs.nodes| - |rhs.nodes|) > 40 then (Finite(0.0), Finite(0.0))
      else
        MappingSizes();
        (Ratio(|Mapping().0|, |lhs.nodes|), Ratio(|Mapping().1|, |rhs.nodes|))
    }

    /** The `while` loop of `compare()` (IterativeGraphComparator.kt:82-147): it grows the
        mapping from the seed pairs as `Grown` says. */
    method Grow(seeds: seq<(nat, nat)>) returns (lMapped: set<nat>, rMapped: set<nat>)
      requires Valid()
      requires Distinct(Firsts(seeds)) && Distinct(Seconds(seeds))
      requires forall k :: k in Firsts(seeds) ==> k < |lhs.nodes|
      requires forall k :: k in Seconds(seeds) ==> k < |rhs.nodes|
      ensures (lMapped, rMapped) == Grown(seeds, Elems(Firsts(seeds)), Elems(Seconds(seeds)))
      ensures Elems(Firsts(seeds)) <= lMapped && Elems(Seconds(seeds)) <= rMapped
      ensures |lMapped| == |rMapped|
    {
      CardAddDistinct({}, Firsts(seeds));
      CardAddDistinct({}, Seconds(seeds));
      lMapped, rMapped := Record(seeds, {}, {});
      ghost var grown := Grown(seeds, lMapped, rMapped);
      var lastMapped := seeds;
      while lastMapped != []
        invariant forall k :: k in lMapped ==> k < |lhs.nodes|
        invariant forall k :: k in rMapped ==> k < |rhs.nodes|
        invariant Grown(lastMapped, lMapped, rMapped) == grown
        decreases |lhs.nodes| - |lMapped|, |lastMapped|
      {
        var best := Expand(lastMapped, lMapped, rMapped);
        CardAddDistinct(lMapped, Firsts(best));
        CardBelow(lMapped + Elems(Firsts(best)), |lhs.nodes|);
        lMapped, rMapped := Record(best, lMapped, rMapped);
        lastMapped := best;
      }
    }

    /** `compare()` (IterativeGraphComparator.kt:31-155): returns `Scores()`, and leaves the
        seeded table in `simMap` when it gets past the size gate. */
    method Compare() returns (lsim: Double, rsim: Double)
      requires Valid() && AllOnes(simMap)
      modifies this
      ensures (lsim, rsim) == Scores()
      ensures Abs(|lhs.nodes| - |rhs.nodes|) <= 40 ==> simMap == SeedTable()
      ensures Abs(|lhs.nodes| - |rhs.nodes|) > 40 ==> simMap == old(simMap)
    {
      if Abs(|lhs.nodes| - |rhs.nodes|) > 40 {
        return Finite(0.0), Finite(0.0);
      }
      SeedCosts();
      var seeds := BestSeedMatches();
      SeedPairsDistinct(simMap);
      var lMapped, rMapped := Grow(seeds);
      CardBelow(lMapped, |lhs.nodes|);
      CardBelow(rMapped, |rhs.nodes|);
      lsim := Ratio(|lMapped|, |lhs.nodes|);
      rsim := Ratio(|rMapped|, |rhs.nodes|);
    }
  }

  /** `IterativeGraphComparator.compare(lhs, rhs)` (IterativeGraphComparator.kt:20-23): a
      fresh comparator for the two graphs, whose `Scores()` it returns. */
  method CompareGraphs(lhs: Graph, rhs: Graph, nodeMatch: (Node, Node) -> int, edgeMatch: (Edge, Edge) -> int,
                       assign: Matrix -> seq<int>) returns (lsim: Double, rsim: Double, ghost comparator: Comparator)
    requires WellFormed(lhs) && WellFormed(rhs) && AssignmentContract(assign)
    ensures comparator.lhs == lhs && comparator.rhs == rhs && comparator.nodeMatch == nodeMatch
    ensures comparator.edgeMatch == edgeMatch && comparator.assign == assign && comparator.Valid()
    ensures (lsim, rsim) == comparator.Scores()
  {
    var c := new Comparator(lhs, rhs, nodeMatch, edgeMatch, assign);
    lsim, rsim := c.Compare();
    comparator := c;
  }

  /** `makeSimilarityMap()` (IterativeGraphComparator.kt:216-223): cost 1.0 for every pair
      of a left node below `ln` and a right node below `rn`. */
  method MakeSimilarityMap(ln: nat, rn: nat) returns (m: map<(nat, nat), Double>)
    ensures forall l: nat, r: nat :: (l, r) in m <==> l < ln && r < rn
    ensures forall k :: k in m ==> m[k] == Finite(1.0)
  {
    m := map[];
    for l := 0 to ln
      invariant forall a: nat, b: nat :: (a, b) in m <==> a < l && b < rn
      invariant forall k :: k in m ==> m[k] == Finite(1.0)
    {
      for r := 0 to rn
        invariant forall a: nat, b: nat :: (a, b) in m <==> (a < l && b < rn) || (a == l && b < r)
        invariant forall k :: k in m ==> m[k] == Finite(1.0)
      {
        m := m[(l, r) := Finite(1.0)];
      }
    }
  }
}
