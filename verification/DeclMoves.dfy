/** Which helper declarations go to new.cc, and which are deleted from old.cc. */
module DeclMoves {
  import opened HelperGraph

  /** The node from which a declaration's references are followed. */
  function Root(ast: Ast, d: Decl): Decl { ast.canonical(ast.outmost(d)) }

  /** The node that references to a declaration end in. */
  function Node(ast: Ast, d: Decl): Decl { ast.canonical(ast.outmost(ast.canonical(d))) }

  /** What is looked up for a helper: this is not canonicalised again. */
  function Key(ast: Ast, d: Decl): Decl { ast.outmost(ast.canonical(d)) }

  /** What the declarations refer to, directly or through others, themselves included. */
  ghost predicate Used(g: Graph, ast: Ast, decls: seq<Decl>, n: Decl) {
    exists k :: 0 <= k < |decls| && OnPath(g, Root(ast, decls[k]), n)
  }

  ghost function UsedDecls(g: Graph, ast: Ast, decls: seq<Decl>): set<Decl> {
    set n | n in g && Used(g, ast, decls, n)
  }

  /** The declarations for new.cc: helpers only if they are used. */
  function ActualNewCC(ast: Ast, moved: seq<Decl>, inHeader: Decl -> bool, helpers: seq<Decl>,
                       used: set<Decl>): seq<Decl> {
    if moved == [] then []
    else if inHeader(moved[0]) || (moved[0] in helpers && Key(ast, moved[0]) !in used) then
      ActualNewCC(ast, moved[1..], inHeader, helpers, used)
    else [moved[0]] + ActualNewCC(ast, moved[1..], inHeader, helpers, used)
  }

  /** The declarations for new.h, in order. */
  function NewHeader(moved: seq<Decl>, inHeader: Decl -> bool): seq<Decl> {
    if moved == [] then [] else (if inHeader(moved[0]) then [moved[0]] else []) + NewHeader(moved[1..], inHeader)
  }

  /** The helpers to delete from old.cc: those not used. */
  function Unused(ast: Ast, helpers: seq<Decl>, used: set<Decl>): seq<Decl> {
    if helpers == [] then []
    else (if Key(ast, helpers[0]) in used then [] else [helpers[0]]) + Unused(ast, helpers[1..], used)
  }

  method GetUsedDecls(graph: HelperDeclRefGraph, decls: seq<Decl>) returns (r: set<Decl>)
    requires graph.Valid()
    ensures r == UsedDecls(graph.declMap, graph.ast, decls)
  {
    var g, ast := graph.declMap, graph.ast;
    r := {};
    var i := 0;
    while i < |decls|
      invariant i <= |decls|
      invariant forall n :: n in r <==> n in g && exists k :: 0 <= k < i && OnPath(g, Root(ast, decls[k]), n)
    {
      var reached := graph.GetReachableNodes(ast.outmost(decls[i]));
      ReachedIsOnPath(g, Root(ast, decls[i]), reached);
      r := r + reached;
      i := i + 1;
    }
  }

  lemma ReachedIsOnPath(g: Graph, root: Decl, reached: set<Decl>)
    requires WellFormed(g) && Reaches(g, root, reached)
    ensures forall n :: n in reached <==> n in g && OnPath(g, root, n)
  {
    if root in g {
      forall n ensures n in reached <==> n in g && OnPath(g, root, n) {
        ClosureIsWhatPathsReach(g, root, reached, n);
      }
    }
  }

  function NotInHeader(moved: seq<Decl>, inHeader: Decl -> bool): (r: seq<Decl>)
    ensures forall k :: 0 <= k < |r| ==> !inHeader(r[k])
  {
    if moved == [] then [] else (if inHeader(moved[0]) then [] else [moved[0]]) + NotInHeader(moved[1..], inHeader)
  }

  lemma SplitNext(moved: seq<Decl>, i: nat, inHeader: Decl -> bool, header: seq<Decl>, rest: seq<Decl>)
    requires i < |moved|
    ensures var d, later := moved[i], moved[i + 1..];
      && header + NewHeader(moved[i..], inHeader)
         == (if inHeader(d) then header + [d] else header) + NewHeader(later, inHeader)
      && rest + NotInHeader(moved[i..], inHeader)
         == (if inHeader(d) then rest else rest + [d]) + NotInHeader(later, inHeader)
  {
    assert moved[i..][1..] == moved[i + 1..];
  }

  lemma SplitEnds(moved: seq<Decl>, inHeader: Decl -> bool, header: seq<Decl>, rest: seq<Decl>)
    ensures header + NewHeader(moved[|moved|..], inHeader) == header
    ensures rest + NotInHeader(moved[|moved|..], inHeader) == rest
  {
  }

  lemma FilterNext(ast: Ast, candidates: seq<Decl>, i: nat, inHeader: Decl -> bool, helpers: seq<Decl>, used: set<Decl>,
                   newCC: seq<Decl>)
    requires i < |candidates| && !inHeader(candidates[i])
    ensures var d := candidates[i];
      newCC + ActualNewCC(ast, candidates[i..], inHeader, helpers, used)
      == (if d in helpers && Key(ast, d) !in used then newCC else newCC + [d])
         + ActualNewCC(ast, candidates[i + 1..], inHeader, helpers, used)
  {
    hide Key;
    assert candidates[i..][1..] == candidates[i + 1..];
  }

  lemma FilterEnds(ast: Ast, candidates: seq<Decl>, inHeader: Decl -> bool, helpers: seq<Decl>, used: set<Decl>, newCC: seq<Decl>)
    ensures newCC + ActualNewCC(ast, candidates[|candidates|..], inHeader, helpers, used) == newCC
  {
  }

  /** Taking the header declarations out first changes nothing. */
  lemma {:induction false} FilteredTwice(ast: Ast, moved: seq<Decl>, inHeader: Decl -> bool, helpers: seq<Decl>,
                                         used: set<Decl>)
    ensures ActualNewCC(ast, NotInHeader(moved, inHeader), inHeader, helpers, used)
         == ActualNewCC(ast, moved, inHeader, helpers, used)
  {
    if moved != [] {
      FilteredTwice(ast, moved[1..], inHeader, helpers, used);
      var rest := NotInHeader(moved[1..], inHeader);
      assert ([moved[0]] + rest)[1..] == rest;
      assert [] + rest == rest;
    }
  }

  lemma UnusedNext(ast: Ast, helpers: seq<Decl>, i: nat, used: set<Decl>)
    requires i < |helpers|
    ensures Unused(ast, helpers[i..], used)
         == (if Key(ast, helpers[i]) in used then [] else [helpers[i]]) + Unused(ast, helpers[i + 1..], used)
  {
    assert helpers[i..][1..] == helpers[i + 1..];
  }

  lemma UnusedEnds(ast: Ast, helpers: seq<Decl>, used: set<Decl>)
    ensures Unused(ast, helpers[|helpers|..], used) == []
  {
  }

  class ClangMoveTool {
    const graph: HelperDeclRefGraph
    const inHeader: Decl -> bool
    const hasOldHeader: bool
    var movedDecls: seq<Decl>
    var removedDecls: seq<Decl>
    var helperDeclarations: seq<Decl>
    var unremovedDeclsInOldHeader: set<Decl>

    constructor (graph: HelperDeclRefGraph, inHeader: Decl -> bool, hasOldHeader: bool)
      ensures this.graph == graph && this.inHeader == inHeader && this.hasOldHeader == hasOldHeader
      ensures movedDecls == [] && removedDecls == [] && helperDeclarations == [] && unremovedDeclsInOldHeader == {}
    {
      this.graph, this.inHeader, this.hasOldHeader := graph, inHeader, hasOldHeader;
      movedDecls, removedDecls, helperDeclarations, unremovedDeclsInOldHeader := [], [], [], {};
    }

    /** A declaration that was asked for. */
    method MoveDecl(d: Decl)
      modifies this
      ensures movedDecls == old(movedDecls) + [d] && removedDecls == old(removedDecls) + [d]
      ensures unremovedDeclsInOldHeader == old(unremovedDeclsInOldHeader) - {d}
      ensures helperDeclarations == old(helperDeclarations)
    {
      movedDecls := movedDecls + [d];
      removedDecls := removedDecls + [d];
      unremovedDeclsInOldHeader := unremovedDeclsInOldHeader - {d};
    }

    /** Helpers are candidates for moving, but are not removed yet. */
    method AddHelper(d: Decl)
      modifies this
      ensures movedDecls == old(movedDecls) + [d] && helperDeclarations == old(helperDeclarations) + [d]
      ensures removedDecls == old(removedDecls) && unremovedDeclsInOldHeader == old(unremovedDeclsInOldHeader)
    {
      movedDecls := movedDecls + [d];
      helperDeclarations := helperDeclarations + [d];
    }

    method MoveDeclsToNewFiles() returns (newHeader: seq<Decl>, newCC: seq<Decl>)
      requires graph.Valid()
      ensures newHeader == NewHeader(movedDecls, inHeader)
      ensures var used := UsedDecls(graph.declMap, graph.ast, removedDecls);
        newCC == ActualNewCC(graph.ast, movedDecls, inHeader, helperDeclarations, used)
    {
      hide NewHeader, NotInHeader, ActualNewCC, UsedDecls, Key;
      var ast := graph.ast;
      var candidates: seq<Decl>;
      newHeader, candidates := [], [];
      var i := 0;
      assert movedDecls[0..] == movedDecls;
      while i < |movedDecls|
        invariant i <= |movedDecls|
        invariant newHeader + NewHeader(movedDecls[i..], inHeader) == NewHeader(movedDecls, inHeader)
        invariant candidates + NotInHeader(movedDecls[i..], inHeader) == NotInHeader(movedDecls, inHeader)
      {
        SplitNext(movedDecls, i, inHeader, newHeader, candidates);
        if inHeader(movedDecls[i]) {
          newHeader := newHeader + [movedDecls[i]];
        } else {
          candidates := candidates + [movedDecls[i]];
        }
        i := i + 1;
      }
      SplitEnds(movedDecls, inHeader, newHeader, candidates);
      var used := GetUsedDecls(graph, removedDecls);
      newCC := [];
      i := 0;
      assert candidates[0..] == candidates;
      while i < |candidates|
        invariant i <= |candidates|
        invariant newCC + ActualNewCC(ast, candidates[i..], inHeader, helperDeclarations, used)
               == ActualNewCC(ast, candidates, inHeader, helperDeclarations, used)
      {
        FilterNext(ast, candidates, i, inHeader, helperDeclarations, used, newCC);
        if !(candidates[i] in helperDeclarations && Key(ast, candidates[i]) !in used) {
          newCC := newCC + [candidates[i]];
        }
        i := i + 1;
      }
      FilterEnds(ast, candidates, inHeader, helperDeclarations, used, newCC);
      FilteredTwice(ast, movedDecls, inHeader, helperDeclarations, used);
    }

    /** With no old header there is no telling which helpers are still used, so all of them stay. */
    method RemoveDeclsInOldFiles()
      requires graph.Valid()
      modifies `removedDecls
      ensures removedDecls == old(removedDecls) +
        (if old(removedDecls) == [] || !hasOldHeader then []
         else Unused(graph.ast, helperDeclarations, Remaining()))
    {
      hide UsedDecls, OnPath, Key, Unused, Remaining;
      if removedDecls == [] || !hasOldHeader { return; }
      var ast := graph.ast;
      var unremoved := [];
      var left := unremovedDeclsInOldHeader;
      while left != {}
        invariant left <= unremovedDeclsInOldHeader && removedDecls == old(removedDecls)
        invariant forall d :: d in unremoved <==> d in unremovedDeclsInOldHeader && d !in left
        decreases |left|
      {
        var d :| d in left;
        left := left - {d};
        unremoved := unremoved + [d];
      }
      var used := GetUsedDecls(graph, unremoved);
      RemainingIsUsedBy(unremoved);
      var i := 0;
      assert helperDeclarations[0..] == helperDeclarations;
      while i < |helperDeclarations|
        invariant i <= |helperDeclarations| && used == Remaining()
        invariant removedDecls + Unused(ast, helperDeclarations[i..], used)
               == old(removedDecls) + Unused(ast, helperDeclarations, used)
      {
        var d := helperDeclarations[i];
        UnusedNext(ast, helperDeclarations, i, used);
        if Key(ast, d) !in used {
          removedDecls := removedDecls + [d];
        }
        i := i + 1;
      }
      UnusedEnds(ast, helperDeclarations, used);
      assert removedDecls + [] == removedDecls;
    }

    /** What the declarations that stay in the old header refer to. */
    ghost function Remaining(): set<Decl>
      reads this`unremovedDeclsInOldHeader, graph
    {
      set n | n in graph.declMap &&
        exists d :: d in unremovedDeclsInOldHeader && OnPath(graph.declMap, Root(graph.ast, d), n)
    }

    lemma RemainingIsUsedBy(unremoved: seq<Decl>)
      requires forall d :: d in unremoved <==> d in unremovedDeclsInOldHeader
      ensures Remaining() == UsedDecls(graph.declMap, graph.ast, unremoved)
    {
      var g, ast := graph.declMap, graph.ast;
      forall n | n in Remaining() ensures Used(g, ast, unremoved, n) {
        var d :| d in unremovedDeclsInOldHeader && OnPath(g, Root(ast, d), n);
        var k :| 0 <= k < |unremoved| && unremoved[k] == d;
      }
      forall n | n in g && Used(g, ast, unremoved, n) ensures n in Remaining() {
        var k :| 0 <= k < |unremoved| && OnPath(g, Root(ast, unremoved[k]), n);
        assert unremoved[k] in unremoved;
      }
    }
  }

  // ---------------------------------------------------------------- the closure guarantees

  /** The outermost declaration around the helper's first one is a first one itself: it has no earlier forward declaration. */
  predicate Anchored(ast: Ast, h: Decl) {
    ast.canonical(Key(ast, h)) == Key(ast, h)
  }

  ghost predicate Refers(g: Graph, ast: Ast, n: Decl, h: Decl) {
    n in g && Node(ast, h) in g[n]
  }

  ghost predicate CanonicalNodes(g: Graph, ast: Ast) {
    WellFormed(g) && forall n :: n in g ==> ast.canonical(n) == n
  }

  lemma UsedIsClosed(g: Graph, ast: Ast, decls: seq<Decl>, n: Decl, c: Decl)
    requires WellFormed(g) && n in UsedDecls(g, ast, decls) && c in g[n]
    ensures c in UsedDecls(g, ast, decls)
  {
    var k :| 0 <= k < |decls| && OnPath(g, Root(ast, decls[k]), n);
    PathGrows(g, Root(ast, decls[k]), n, c);
  }

  lemma RootsAreUsed(g: Graph, ast: Ast, decls: seq<Decl>, d: Decl)
    requires d in decls && Root(ast, d) in g
    ensures Root(ast, d) in UsedDecls(g, ast, decls)
  {
    var k :| 0 <= k < |decls| && decls[k] == d;
    assert Path(g, [Root(ast, d)]);
    assert OnPath(g, Root(ast, decls[k]), Root(ast, d));
  }

  /** A referrer: one of the declarations, or a helper that was found used. */
  ghost predicate Referrer(g: Graph, ast: Ast, decls: seq<Decl>, d: Decl, n: Decl) {
    (d in decls && n == Root(ast, d)) || (Key(ast, d) in UsedDecls(g, ast, decls) && n == Node(ast, d))
  }

  /** A helper that a referrer refers to is found used exactly when it is anchored. */
  lemma ReferredHelperIsFoundIff(g: Graph, ast: Ast, decls: seq<Decl>, d: Decl, n: Decl, h: Decl)
    requires CanonicalNodes(g, ast) && Referrer(g, ast, decls, d, n) && Refers(g, ast, n, h)
    ensures Key(ast, h) in UsedDecls(g, ast, decls) <==> Anchored(ast, h)
  {
    hide Used;
    if d in decls && n == Root(ast, d) {
      RootsAreUsed(g, ast, decls, d);
    } else {
      assert ast.canonical(Key(ast, d)) == Key(ast, d);
    }
    assert n in UsedDecls(g, ast, decls);
    UsedIsClosed(g, ast, decls, n, Node(ast, h));
  }

  lemma {:induction false} NewCCHolds(ast: Ast, moved: seq<Decl>, inHeader: Decl -> bool, helpers: seq<Decl>,
                                      used: set<Decl>, h: Decl)
    ensures h in ActualNewCC(ast, moved, inHeader, helpers, used)
      <==> h in moved && !inHeader(h) && (h in helpers ==> Key(ast, h) in used)
  {
    if moved != [] {
      NewCCHolds(ast, moved[1..], inHeader, helpers, used, h);
    }
  }

  lemma {:induction false} UnusedHolds(ast: Ast, helpers: seq<Decl>, used: set<Decl>, h: Decl)
    ensures h in Unused(ast, helpers, used) <==> h in helpers && Key(ast, h) !in used
  {
    if helpers != [] {
      UnusedHolds(ast, helpers[1..], used, h);
    }
  }

  // ---------------------------------------------------------------- order

  /** `chosen` lists, in order, the elements of `all` at the places `at`, which are those that `pick` takes. */
  predicate Chosen(all: seq<Decl>, chosen: seq<Decl>, pick: Decl -> bool, at: seq<nat>) {
    && |at| == |chosen|
    && (forall k :: 0 <= k < |at| ==> at[k] < |all| && chosen[k] == all[at[k]])
    && (forall k, l :: 0 <= k < l < |at| ==> at[k] < at[l])
    && (forall i :: 0 <= i < |all| ==> (i in at <==> pick(all[i])))
  }

  function Shifted(at: seq<nat>): (r: seq<nat>)
    ensures |r| == |at| && forall k :: 0 <= k < |at| ==> r[k] == at[k] + 1
  {
    if at == [] then [] else [at[0] + 1] + Shifted(at[1..])
  }

  lemma ShiftedHolds(at: seq<nat>, i: nat)
    ensures i in Shifted(at) <==> i > 0 && i - 1 in at
  {
    if i > 0 && i - 1 in at {
      var k :| 0 <= k < |at| && at[k] == i - 1;
      assert Shifted(at)[k] == i;
    }
    if i in Shifted(at) {
      var k :| 0 <= k < |at| && Shifted(at)[k] == i;
      assert at[k] == i - 1;
    }
  }

  /** The same places, seen with one element more in front. */
  predicate ChosenLater(all: seq<Decl>, chosen: seq<Decl>, pick: Decl -> bool, at: seq<nat>) {
    && |at| == |chosen|
    && (forall k :: 0 <= k < |at| ==> 0 < at[k] < |all| && chosen[k] == all[at[k]])
    && (forall k, l :: 0 <= k < l < |at| ==> at[k] < at[l])
    && (forall i :: 0 < i < |all| ==> (i in at <==> pick(all[i])))
  }

  lemma ShiftedIsChosen(all: seq<Decl>, later: seq<Decl>, pick: Decl -> bool, at: seq<nat>)
    requires all != [] && Chosen(all[1..], later, pick, at)
    ensures ChosenLater(all, later, pick, Shifted(at))
  {
    hide Shifted;
    forall k | 0 <= k < |at|
      ensures later[k] == all[at[k] + 1]
    {
      assert all[1..][at[k]] == all[at[k] + 1];
    }
    forall i | 0 < i < |all|
      ensures i in Shifted(at) <==> pick(all[i])
    {
      ShiftedHolds(at, i);
      assert all[i] == all[1..][i - 1];
    }
  }

  lemma FirstIsLeft(all: seq<Decl>, later: seq<Decl>, pick: Decl -> bool, at: seq<nat>)
    requires all != [] && !pick(all[0]) && ChosenLater(all, later, pick, at)
    ensures Chosen(all, later, pick, at)
  {
  }

  lemma FirstIsTaken(all: seq<Decl>, later: seq<Decl>, pick: Decl -> bool, at: seq<nat>)
    requires all != [] && pick(all[0]) && ChosenLater(all, later, pick, at)
    ensures Chosen(all, [all[0]] + later, pick, [0] + at)
  {
    var more := [0] + at;
    forall i | 0 <= i < |all|
      ensures i in more <==> pick(all[i])
    {
      assert i in more <==> i == 0 || i in at;
    }
  }

  lemma ChosenWithFirst(all: seq<Decl>, later: seq<Decl>, pick: Decl -> bool, at: seq<nat>) returns (more: seq<nat>)
    requires all != [] && Chosen(all[1..], later, pick, at)
    ensures Chosen(all, (if pick(all[0]) then [all[0]] else []) + later, pick, more)
  {
    hide Chosen, ChosenLater, Shifted;
    ShiftedIsChosen(all, later, pick, at);
    if pick(all[0]) {
      more := [0] + Shifted(at);
      FirstIsTaken(all, later, pick, Shifted(at));
    } else {
      more := Shifted(at);
      FirstIsLeft(all, later, pick, more);
      assert [] + later == later;
    }
  }

  /** new.h gets the moved declarations of the old header, in their order. */
  lemma {:induction false} NewHeaderKeepsOrder(moved: seq<Decl>, inHeader: Decl -> bool) returns (at: seq<nat>)
    ensures Chosen(moved, NewHeader(moved, inHeader), inHeader, at)
  {
    at := [];
    if moved != [] {
      at := NewHeaderKeepsOrder(moved[1..], inHeader);
      at := ChosenWithFirst(moved, NewHeader(moved[1..], inHeader), inHeader, at);
    }
  }

  /** new.cc gets the others, without the helpers that are not used, in their order. */
  lemma {:induction false} NewCCKeepsOrder(ast: Ast, moved: seq<Decl>, inHeader: Decl -> bool, helpers: seq<Decl>, used: set<Decl>)
    returns (at: seq<nat>)
    ensures Chosen(moved, ActualNewCC(ast, moved, inHeader, helpers, used),
                   (d: Decl) => !inHeader(d) && (d in helpers ==> Key(ast, d) in used), at)
  {
    hide Key;
    at := [];
    if moved != [] {
      var pick := (d: Decl) => !inHeader(d) && (d in helpers ==> Key(ast, d) in used);
      at := NewCCKeepsOrder(ast, moved[1..], inHeader, helpers, used);
      at := ChosenWithFirst(moved, ActualNewCC(ast, moved[1..], inHeader, helpers, used), pick, at);
      assert [] + ActualNewCC(ast, moved[1..], inHeader, helpers, used) == ActualNewCC(ast, moved[1..], inHeader, helpers, used);
    }
  }

  /** The helpers that are not used are deleted in the order in which they were found. */
  lemma {:induction false} UnusedKeepsOrder(ast: Ast, helpers: seq<Decl>, used: set<Decl>) returns (at: seq<nat>)
    ensures Chosen(helpers, Unused(ast, helpers, used), (d: Decl) => Key(ast, d) !in used, at)
  {
    hide Key;
    at := [];
    if helpers != [] {
      at := UnusedKeepsOrder(ast, helpers[1..], used);
      at := ChosenWithFirst(helpers, Unused(ast, helpers[1..], used), (d: Decl) => Key(ast, d) !in used, at);
    }
  }

  /** new.cc is closed: a helper that a moved declaration, or a moved helper, refers to goes along, exactly when it is
      anchored. */
  lemma NewCCIsClosedIff(g: Graph, ast: Ast, moved: seq<Decl>, inHeader: Decl -> bool, helpers: seq<Decl>,
                         removed: seq<Decl>, d: Decl, h: Decl)
    requires CanonicalNodes(g, ast) && h in moved && h in helpers && !inHeader(h)
    requires
      var newCC := ActualNewCC(ast, moved, inHeader, helpers, UsedDecls(g, ast, removed));
      || (d in removed && Refers(g, ast, Root(ast, d), h))
      || (d in helpers && d in newCC && Refers(g, ast, Node(ast, d), h))
    ensures h in ActualNewCC(ast, moved, inHeader, helpers, UsedDecls(g, ast, removed)) <==> Anchored(ast, h)
  {
    var used := UsedDecls(g, ast, removed);
    hide UsedDecls, ActualNewCC, Refers, Anchored, Key;
    NewCCHolds(ast, moved, inHeader, helpers, used, h);
    NewCCHolds(ast, moved, inHeader, helpers, used, d);
    if d in removed && Refers(g, ast, Root(ast, d), h) {
      ReferredHelperIsFoundIff(g, ast, removed, d, Root(ast, d), h);
    } else {
      ReferredHelperIsFoundIff(g, ast, removed, d, Node(ast, d), h);
    }
  }

  /** old.cc stays closed: a helper that a declaration left in the old header, or a helper that stays, refers to is not
      deleted, exactly when it is anchored. */
  lemma OldCCIsClosedIff(g: Graph, ast: Ast, helpers: seq<Decl>, unremoved: seq<Decl>, d: Decl, h: Decl)
    requires CanonicalNodes(g, ast) && h in helpers
    requires
      var deleted := Unused(ast, helpers, UsedDecls(g, ast, unremoved));
      || (d in unremoved && Refers(g, ast, Root(ast, d), h))
      || (d in helpers && d !in deleted && Refers(g, ast, Node(ast, d), h))
    ensures h !in Unused(ast, helpers, UsedDecls(g, ast, unremoved)) <==> Anchored(ast, h)
  {
    var used := UsedDecls(g, ast, unremoved);
    hide UsedDecls, Unused, Refers, Anchored, Key;
    UnusedHolds(ast, helpers, used, h);
    UnusedHolds(ast, helpers, used, d);
    if d in unremoved && Refers(g, ast, Root(ast, d), h) {
      ReferredHelperIsFoundIff(g, ast, unremoved, d, Root(ast, d), h);
    } else {
      ReferredHelperIsFoundIff(g, ast, unremoved, d, Node(ast, d), h);
    }
  }

  /** Declaration 1 is a static method of a helper class that is defined at 3 and declared earlier at 2. */
  const FORWARD_DECLARED := Ast(d => if d == 3 then 2 else d, d => if d == 1 then 3 else d)

  /** The graph in which function 0 calls that method. */
  function OneCall(): Graph {
    WithEdge(FORWARD_DECLARED, map[], 0, FORWARD_DECLARED.outmost(1))
  }

  lemma OneCallIsRecorded()
    ensures CanonicalIsIdempotent(FORWARD_DECLARED) && CanonicalNodes(OneCall(), FORWARD_DECLARED)
    ensures Refers(OneCall(), FORWARD_DECLARED, Root(FORWARD_DECLARED, 0), 1) && !Anchored(FORWARD_DECLARED, 1)
    ensures Key(FORWARD_DECLARED, 1) !in OneCall()
  {
  }

  /** If 0 is moved, the method it calls is not moved along. */
  lemma ForwardDeclaredHelperIsLeftBehind()
    ensures var ast, g := FORWARD_DECLARED, OneCall();
      && CanonicalNodes(g, ast) && Refers(g, ast, Root(ast, 0), 1)
      && 1 !in ActualNewCC(ast, [0, 1], d => false, [1], UsedDecls(g, ast, [0]))
  {
    OneCallIsRecorded();
    NewCCHolds(FORWARD_DECLARED, [0, 1], d => false, [1], UsedDecls(OneCall(), FORWARD_DECLARED, [0]), 1);
  }

  /** If 0 stays in the old header, the method it calls is deleted from old.cc all the same. */
  lemma ForwardDeclaredHelperIsDeleted()
    ensures var ast, g := FORWARD_DECLARED, OneCall();
      && CanonicalNodes(g, ast) && Refers(g, ast, Root(ast, 0), 1)
      && 1 in Unused(ast, [1], UsedDecls(g, ast, [0]))
  {
    OneCallIsRecorded();
    UnusedHolds(FORWARD_DECLARED, [1], UsedDecls(OneCall(), FORWARD_DECLARED, [0]), 1);
  }
}
