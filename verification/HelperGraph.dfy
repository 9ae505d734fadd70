/** The reference graph of helper declarations, and what can be reached in it. */
module HelperGraph {
  type Decl = nat

  /** What the AST knows of declarations: the first declaration of an entity, and the outermost class or function around one. */
  datatype Ast = Ast(canonical: Decl -> Decl, outmost: Decl -> Decl)

  ghost predicate CanonicalIsIdempotent(ast: Ast) {
    forall d :: ast.canonical(ast.canonical(d)) == ast.canonical(d)
  }

  /** The node of a canonical declaration, with the nodes it calls in the order they were added. */
  type Graph = map<Decl, seq<Decl>>

  predicate WellFormed(g: Graph) {
    forall n, c :: n in g && c in g[n] ==> c in g
  }

  // ---------------------------------------------------------------- reachability

  /** A set of nodes that no edge leaves. */
  predicate Closed(g: Graph, s: set<Decl>) {
    s <= g.Keys && forall n, c :: n in s && c in g[n] ==> c in s
  }

  /** The least closed set with a given node. */
  ghost predicate IsClosure(g: Graph, root: Decl, s: set<Decl>) {
    && Closed(g, s) && root in s
    && forall other :: Closed(g, other) && root in other ==> s <= other
  }

  /** What getReachableNodes promises: nothing for a declaration without a node. */
  ghost predicate Reaches(g: Graph, node: Decl, s: set<Decl>) {
    if node in g then IsClosure(g, node, s) else s == {}
  }

  /** Everything new has all its callees visited, and lies in every closed set that holds the start. */
  ghost predicate Explored(g: Graph, starts: seq<Decl>, before: set<Decl>, after: set<Decl>) {
    && before <= after <= g.Keys
    && (forall n :: n in starts ==> n in after)
    && (forall n, c :: n in after && n !in before && c in g[n] ==> c in after)
    && (forall s: set<Decl> :: Closed(g, s) && (forall n :: n in starts ==> n in s) ==> after <= before + s)
  }

  class HelperDeclRefGraph {
    const ast: Ast
    var declMap: Graph

    ghost predicate Valid()
      reads this
    {
      && WellFormed(declMap)
      && forall n :: n in declMap ==> ast.canonical(n) == n
    }

    constructor (ast: Ast)
      requires CanonicalIsIdempotent(ast)
      ensures Valid() && this.ast == ast && declMap == map[]
    {
      this.ast := ast;
      declMap := map[];
    }

    method GetOrInsertNode(f: Decl) returns (node: Decl)
      requires Valid() && CanonicalIsIdempotent(ast)
      modifies this
      ensures Valid() && node == ast.canonical(f) && node in declMap
      ensures declMap == if node in old(declMap) then old(declMap) else old(declMap)[node := []]
    {
      node := ast.canonical(f);
      if node !in declMap { declMap := declMap[node := []]; }
    }

    /** A declaration does not refer to itself; two declarations of one entity may. */
    method AddEdge(caller: Decl, callee: Decl)
      requires Valid() && CanonicalIsIdempotent(ast)
      modifies this
      ensures Valid()
      ensures declMap == WithEdge(ast, old(declMap), caller, callee)
    {
      if caller == callee { return; }
      var callerNode := GetOrInsertNode(caller);
      var calleeNode := GetOrInsertNode(callee);
      declMap := declMap[callerNode := declMap[callerNode] + [calleeNode]];
    }

    /** Depth first; the visited set grows. */
    method VisitNode(node: Decl, connected: set<Decl>) returns (r: set<Decl>)
      requires Valid() && node in declMap && connected <= declMap.Keys
      ensures Explored(declMap, [node], connected, r)
      decreases declMap.Keys - connected, 0
    {
      if node in connected { return connected; }
      r := VisitCallees(node, connected + {node});
    }

    method VisitCallees(node: Decl, connected: set<Decl>) returns (r: set<Decl>)
      requires Valid() && node in connected && connected <= declMap.Keys
      ensures connected <= r <= declMap.Keys
      ensures forall c :: c in declMap[node] ==> c in r
      ensures forall n, c :: n in r && n !in connected && c in declMap[n] ==> c in r
      ensures forall s: set<Decl> :: Closed(declMap, s) && node in s ==> r <= connected + s
      decreases declMap.Keys - connected, 1
    {
      var callees := declMap[node];
      r := connected;
      var i := 0;
      while i < |callees|
        invariant i <= |callees| && connected <= r <= declMap.Keys
        invariant forall k :: 0 <= k < i ==> callees[k] in r
        invariant forall n, c :: n in r && n !in connected && c in declMap[n] ==> c in r
        invariant forall s: set<Decl> :: Closed(declMap, s) && node in s ==> r <= connected + s
      {
        ghost var before := r;
        if callees[i] !in r {
          r := VisitNode(callees[i], r);
          forall s: set<Decl> | Closed(declMap, s) && node in s ensures r <= connected + s {
            assert callees[i] in s;
            assert r <= before + s;
          }
        }
        i := i + 1;
      }
    }

    method GetReachableNodes(root: Decl) returns (r: set<Decl>)
      requires Valid()
      ensures Reaches(declMap, ast.canonical(root), r)
    {
      var node := ast.canonical(root);
      if node !in declMap { return {}; }
      r := VisitNode(node, {});
      forall s | Closed(declMap, s) && node in s ensures r <= s {
        assert r <= {} + s;
      }
    }
  }

  function WithNode(g: Graph, n: Decl): Graph {
    if n in g then g else g[n := []]
  }

  function WithEdge(ast: Ast, g: Graph, caller: Decl, callee: Decl): Graph {
    if caller == callee then g
    else
      var n, c := ast.canonical(caller), ast.canonical(callee);
      var h := WithNode(WithNode(g, n), c);
      h[n := h[n] + [c]]
  }

  /** Every edge added between different declarations is there, and none is lost. */
  lemma EdgesAreRecorded(ast: Ast, g: Graph, caller: Decl, callee: Decl, n: Decl, c: Decl)
    requires WellFormed(g)
    ensures var h := WithEdge(ast, g, caller, callee);
      && WellFormed(h)
      && ((n in h && c in h[n])
          <==> ((n in g && c in g[n])
                || (caller != callee && n == ast.canonical(caller) && c == ast.canonical(callee))))
  {
  }

  // ---------------------------------------------------------------- closures as paths

  /** A walk along recorded edges. */
  predicate Path(g: Graph, p: seq<Decl>) {
    && p != [] && (forall i :: 0 <= i < |p| ==> p[i] in g)
    && forall i :: 0 <= i < |p| - 1 ==> p[i + 1] in g[p[i]]
  }

  lemma {:induction false} ClosedSetsHoldPaths(g: Graph, s: set<Decl>, p: seq<Decl>)
    requires Closed(g, s) && Path(g, p) && p[0] in s
    ensures p[|p| - 1] in s
    decreases |p|
  {
    if |p| > 1 {
      assert p[0 + 1] in g[p[0]];
      var tail := p[1..];
      forall i | 0 <= i < |tail| - 1 ensures tail[i + 1] in g[tail[i]] {
        assert p[(i + 1) + 1] in g[p[i + 1]];
      }
      ClosedSetsHoldPaths(g, s, tail);
    }
  }

  /** The nodes some walk from root ends in. */
  ghost predicate OnPath(g: Graph, root: Decl, n: Decl) {
    exists p :: Path(g, p) && p[0] == root && p[|p| - 1] == n
  }

  lemma PathGrows(g: Graph, root: Decl, n: Decl, c: Decl)
    requires WellFormed(g) && OnPath(g, root, n) && n in g && c in g[n]
    ensures OnPath(g, root, c)
  {
    var p :| Path(g, p) && p[0] == root && p[|p| - 1] == n;
    var q := p + [c];
    assert forall i :: 0 <= i < |q| - 1 ==> q[i + 1] in g[q[i]];
    assert Path(g, q);
  }

  /** The closure is exactly what walks from the root reach. */
  lemma ClosureIsWhatPathsReach(g: Graph, root: Decl, s: set<Decl>, n: Decl)
    requires WellFormed(g) && IsClosure(g, root, s)
    ensures n in s <==> OnPath(g, root, n)
  {
    if OnPath(g, root, n) {
      var p :| Path(g, p) && p[0] == root && p[|p| - 1] == n;
      ClosedSetsHoldPaths(g, s, p);
    }
    var reached := set m | m in g && OnPath(g, root, m);
    assert Path(g, [root]);
    forall m, c | m in reached && c in g[m] ensures c in reached {
      PathGrows(g, root, m, c);
    }
    assert Closed(g, reached);
  }
}
