/**
 * What one attempt of the graph-colouring allocator guarantees: within an
 * attempt that starts from the graph as built (every node in the map and
 * coloured), two interfering locals never end up in the same register, and
 * every local the allocator colours ends up in a LOCAL register no lower
 * than the first colour. Minimisation retried on the graph the attempt
 * started from therefore always ends with such an allocation.
 */
module ColoringFacts {
  import opened Wrappers
  import opened Ollir
  import opened Liveness
  import opened Interference
  import opened Coloring

  // ---------------------------------------------------------------------
  // The graph as the interference graph builds it
  // ---------------------------------------------------------------------

  /** Distinct names, edges inside the graph, no edge to itself and every edge with its reverse. */
  ghost predicate SimpleGraph(nodes: seq<Node>) {
    (forall a, b :: 0 <= a < |nodes| && 0 <= b < |nodes| && nodes[a].id == nodes[b].id ==> a == b) &&
    (forall v, j :: 0 <= v < |nodes| && 0 <= j < |nodes[v].edges| ==> nodes[v].edges[j] < |nodes|) &&
    (forall a, b :: 0 <= a < |nodes| && 0 <= b < |nodes| && b in nodes[a].edges ==> a != b && a in nodes[b].edges)
  }

  /** The graph before any attempt: every node in the map and coloured. */
  ghost predicate Fresh(nodes: seq<Node>, present: seq<bool>) {
    |present| == |nodes| && SimpleGraph(nodes) &&
    (forall v :: 0 <= v < |nodes| ==> present[v] && nodes[v].hasColor)
  }

  lemma RecolouredSimple(a: seq<Node>, b: seq<Node>)
    requires Recoloured(a, b) && SimpleGraph(a)
    ensures SimpleGraph(b)
  {
    assert forall v :: 0 <= v < |a| ==> b[v].id == a[v].id && b[v].edges == a[v].edges;
  }

  lemma RecolouredTrans(a: seq<Node>, b: seq<Node>, c: seq<Node>)
    requires Recoloured(a, b) && Recoloured(b, c)
    ensures Recoloured(a, c)
  {
    forall v | 0 <= v < |a| ensures c[v] == a[v].(hasColor := c[v].hasColor) {
      assert b[v] == a[v].(hasColor := b[v].hasColor);
    }
  }

  // ---------------------------------------------------------------------
  // Simplification keeps the stack and the map apart
  // ---------------------------------------------------------------------

  /** The stack holds distinct positions, and a node is on it exactly when the map no longer holds it. */
  ghost predicate Stacked(w: Work) {
    |w.present| == |w.nodes| && StackIn(w) &&
    (forall i, j :: 0 <= i < j < |w.stack| ==> w.stack[i] != w.stack[j]) &&
    (forall v :: 0 <= v < |w.nodes| ==> (w.present[v] <==> v !in w.stack))
  }

  lemma RemoveStacked(w: Work, v: nat)
    requires Stacked(w) && v < |w.nodes| && w.present[v]
    ensures Stacked(Work(w.nodes[v := w.nodes[v].(hasColor := false)], w.present[v := false], w.stack + [v]))
  {
    var s := w.stack + [v];
    assert v !in w.stack;
    forall i, j | 0 <= i < j < |s| ensures s[i] != s[j] {
      if j == |s| - 1 {
        assert s[i] in w.stack;
      }
    }
  }

  lemma {:induction false} SweepStacked(vt: VarTable, colours: nat, w: Work, v: nat, removed: bool)
    requires Stacked(w) && v <= |w.nodes|
    ensures Stacked(Sweep(vt, colours, w, v, removed).0)
    decreases |w.nodes| - v
  {
    if v < |w.nodes| {
      if Removable(vt, colours, w, v) {
        RemoveStacked(w, v);
        SweepStacked(vt, colours, Work(w.nodes[v := w.nodes[v].(hasColor := false)], w.present[v := false], w.stack + [v]), v + 1, true);
      } else {
        SweepStacked(vt, colours, w, v + 1, removed);
      }
    }
  }

  /** Simplification keeps the stack distinct and exactly the nodes the map lost. */
  lemma {:induction false} SimplifyStacked(vt: VarTable, colours: nat, w: Work)
    requires Stacked(w)
    ensures Stacked(Simplify(vt, colours, w))
    decreases Trues(w.present)
  {
    var s := Sweep(vt, colours, w, 0, false);
    SweepStacked(vt, colours, w, 0, false);
    if s.1 {
      SimplifyStacked(vt, colours, s.0);
    }
  }

  // ---------------------------------------------------------------------
  // The colouring loop's invariant
  // ---------------------------------------------------------------------

  /** Some colour holds the name. */
  predicate Listed(lists: seq<seq<string>>, x: string) {
    exists c :: 0 <= c < |lists| && x in lists[c]
  }

  /** The stack holds distinct nodes, none of which has a colour yet. */
  ghost predicate StackFresh(nodes: seq<Node>, stack: seq<nat>, lists: seq<seq<string>>)
    requires forall i :: 0 <= i < |stack| ==> stack[i] < |nodes|
  {
    (forall i, j :: 0 <= i < j < |stack| ==> stack[i] != stack[j]) &&
    (forall i, c :: 0 <= i < |stack| && 0 <= c < |lists| ==> nodes[stack[i]].id !in lists[c])
  }

  /** A node with a colour has its colour mark. */
  ghost predicate ListsMarked(nodes: seq<Node>, lists: seq<seq<string>>) {
    forall u, c :: 0 <= u < |nodes| && 0 <= c < |lists| && nodes[u].id in lists[c] ==> nodes[u].hasColor
  }

  /** A name in colour `c` is a local the allocator colours, with register `first + c` in the new table. */
  ghost predicate ListsNamed(vt: VarTable, first: int, lists: seq<seq<string>>, table: VarTable) {
    DistinctNames(table) &&
    forall c, x :: 0 <= c < |lists| && x in lists[c] ==>
      Eligible(vt, x) && Lookup(table, x) == Some(Descriptor(Local, first + c, Lookup(vt, x).value.varType))
  }

  /** No colour holds two interfering nodes. */
  ghost predicate NoClash(nodes: seq<Node>, lists: seq<seq<string>>) {
    forall a, b, c :: 0 <= a < |nodes| && 0 <= b < |nodes| && b in nodes[a].edges && 0 <= c < |lists| ==>
      !(nodes[a].id in lists[c] && nodes[b].id in lists[c])
  }

  /** Every node the allocator colours is on the stack or has a colour. */
  ghost predicate AllPlaced(vt: VarTable, nodes: seq<Node>, stack: seq<nat>, lists: seq<seq<string>>) {
    forall v :: 0 <= v < |nodes| && Eligible(vt, nodes[v].id) ==> v in stack || Listed(lists, nodes[v].id)
  }

  ghost predicate Sound(vt: VarTable, first: int, p: Phase) {
    PhaseOk(p) && SimpleGraph(p.nodes) && StackFresh(p.nodes, p.stack, p.lists) && ListsMarked(p.nodes, p.lists) &&
    ListsNamed(vt, first, p.lists, p.table) && NoClash(p.nodes, p.lists) && AllPlaced(vt, p.nodes, p.stack, p.lists)
  }

  /** The nodes on the stack other than `v` are placed: every node the allocator colours but `v` is on the stack or has a colour. */
  ghost predicate PlacedBut(vt: VarTable, nodes: seq<Node>, stack: seq<nat>, lists: seq<seq<string>>, v: nat) {
    forall u :: 0 <= u < |nodes| && Eligible(vt, nodes[u].id) && u != v ==> u in stack || Listed(lists, nodes[u].id)
  }

  /** The invariant once the top node `v` is back in the map and off the stack, which is now `rest`. */
  ghost predicate LiftedOk(vt: VarTable, first: int, nodes: seq<Node>, rest: seq<nat>, lists: seq<seq<string>>, table: VarTable, v: nat) {
    v < |nodes| && (forall i :: 0 <= i < |rest| ==> rest[i] < |nodes|) &&
    SimpleGraph(nodes) && StackFresh(nodes, rest, lists) && ListsMarked(nodes, lists) &&
    ListsNamed(vt, first, lists, table) && NoClash(nodes, lists) &&
    v !in rest && nodes[v].hasColor && !Listed(lists, nodes[v].id) && PlacedBut(vt, nodes, rest, lists, v)
  }

  lemma LiftFresh(nodes: seq<Node>, stack: seq<nat>, lists: seq<seq<string>>)
    requires |stack| > 0 && (forall i :: 0 <= i < |stack| ==> stack[i] < |nodes|) && StackFresh(nodes, stack, lists)
    ensures var v := stack[|stack| - 1]; var rest := stack[..|stack| - 1]; var n := nodes[v := nodes[v].(hasColor := true)];
      StackFresh(n, rest, lists) && v !in rest && !Listed(lists, n[v].id)
  {
    var k := |stack| - 1;
    var v := stack[k];
    var rest := stack[..k];
    var n := nodes[v := nodes[v].(hasColor := true)];
    assert forall u :: 0 <= u < |nodes| ==> n[u].id == nodes[u].id;
    assert forall i :: 0 <= i < |rest| ==> rest[i] == stack[i];
    forall i | 0 <= i < |rest| ensures rest[i] != v {
      assert stack[i] != stack[k];
    }
    assert forall c :: 0 <= c < |lists| ==> nodes[stack[k]].id !in lists[c];
  }

  lemma LiftMarked(nodes: seq<Node>, lists: seq<seq<string>>, v: nat)
    requires v < |nodes| && ListsMarked(nodes, lists)
    ensures ListsMarked(nodes[v := nodes[v].(hasColor := true)], lists)
  {
  }

  lemma LiftNoClash(nodes: seq<Node>, lists: seq<seq<string>>, v: nat)
    requires v < |nodes| && NoClash(nodes, lists)
    ensures NoClash(nodes[v := nodes[v].(hasColor := true)], lists)
  {
    var n := nodes[v := nodes[v].(hasColor := true)];
    assert forall u :: 0 <= u < |nodes| ==> n[u].id == nodes[u].id && n[u].edges == nodes[u].edges;
  }

  lemma LiftPlaced(vt: VarTable, nodes: seq<Node>, stack: seq<nat>, lists: seq<seq<string>>)
    requires |stack| > 0 && stack[|stack| - 1] < |nodes| && AllPlaced(vt, nodes, stack, lists)
    ensures var v := stack[|stack| - 1];
      PlacedBut(vt, nodes[v := nodes[v].(hasColor := true)], stack[..|stack| - 1], lists, v)
  {
    var k := |stack| - 1;
    var v := stack[k];
    var n := nodes[v := nodes[v].(hasColor := true)];
    forall u | 0 <= u < |n| && Eligible(vt, n[u].id) && u != v ensures u in stack[..k] || Listed(lists, n[u].id) {
      assert n[u] == nodes[u];
      if u in stack {
        var i :| 0 <= i < |stack| && stack[i] == u;
        assert i < k && stack[..k][i] == u;
      }
    }
  }

  /** Lifting the top node keeps every part of the invariant except that the node is no longer on the stack. */
  lemma LiftSound(vt: VarTable, first: int, nodes: seq<Node>, present: seq<bool>, stack: seq<nat>, lists: seq<seq<string>>, table: VarTable)
    requires Sound(vt, first, Phase(nodes, present, stack, lists, table)) && |stack| > 0
    ensures var v := stack[|stack| - 1];
      LiftedOk(vt, first, nodes[v := nodes[v].(hasColor := true)], stack[..|stack| - 1], lists, table, v)
  {
    var v := stack[|stack| - 1];
    assert Recoloured(nodes, nodes[v := nodes[v].(hasColor := true)]);
    RecolouredSimple(nodes, nodes[v := nodes[v].(hasColor := true)]);
    LiftFresh(nodes, stack, lists);
    LiftMarked(nodes, lists, v);
    LiftNoClash(nodes, lists, v);
    LiftPlaced(vt, nodes, stack, lists);
  }

  /** A node that is not coloured leaves the stack and changes nothing else. */
  lemma SkipSound(vt: VarTable, first: int, nodes: seq<Node>, present: seq<bool>, rest: seq<nat>, lists: seq<seq<string>>, table: VarTable, v: nat)
    requires LiftedOk(vt, first, nodes, rest, lists, table, v) && |present| == |nodes| && !Eligible(vt, nodes[v].id)
    ensures Sound(vt, first, Phase(nodes, present, rest, lists, table))
  {
    assert PlacedBut(vt, nodes, rest, lists, v);
  }

  /** A node that takes a free colour keeps every part of the invariant. */
  lemma ColourSound(vt: VarTable, first: int, nodes: seq<Node>, present: seq<bool>, rest: seq<nat>, lists: seq<seq<string>>, table: VarTable, v: nat, c: nat)
    requires LiftedOk(vt, first, nodes, rest, lists, table, v) && |present| == |nodes|
    requires Eligible(vt, nodes[v].id) && FreeFrom(nodes, v, lists, 0) == Some(c)
    ensures var id := nodes[v].id;
      Sound(vt, first, Phase(nodes, present, rest, lists[c := lists[c] + [id]], Put(table, id, Descriptor(Local, first + c, Lookup(vt, id).value.varType))))
  {
    var id := nodes[v].id;
    assert c < |lists| && !Blocked(nodes, v, lists[c]);
    ColourFresh(nodes, rest, lists, v, c);
    ColourMarked(nodes, lists, v, c);
    ColourNamed(vt, first, lists, table, id, c);
    ColourNoClash(nodes, lists, v, c);
    ColourPlaced(vt, nodes, rest, lists, v, c);
  }

  lemma ColourPlaced(vt: VarTable, nodes: seq<Node>, stack: seq<nat>, lists: seq<seq<string>>, v: nat, c: nat)
    requires v < |nodes| && c < |lists| && PlacedBut(vt, nodes, stack, lists, v)
    ensures AllPlaced(vt, nodes, stack, lists[c := lists[c] + [nodes[v].id]])
  {
    var l := lists[c := lists[c] + [nodes[v].id]];
    forall u | 0 <= u < |nodes| && Eligible(vt, nodes[u].id) ensures u in stack || Listed(l, nodes[u].id) {
      if u == v {
        assert nodes[v].id in l[c];
      } else if u !in stack {
        var d :| 0 <= d < |lists| && nodes[u].id in lists[d];
        assert nodes[u].id in l[d];
      }
    }
  }

  lemma ColourFresh(nodes: seq<Node>, stack: seq<nat>, lists: seq<seq<string>>, v: nat, c: nat)
    requires SimpleGraph(nodes) && v < |nodes| && c < |lists| && forall i :: 0 <= i < |stack| ==> stack[i] < |nodes|
    requires StackFresh(nodes, stack, lists) && v !in stack
    ensures StackFresh(nodes, stack, lists[c := lists[c] + [nodes[v].id]])
  {
    var l := lists[c := lists[c] + [nodes[v].id]];
    forall i, d | 0 <= i < |stack| && 0 <= d < |l| ensures nodes[stack[i]].id !in l[d] {
      assert stack[i] in stack;
      assert stack[i] != v;
    }
  }

  lemma ColourMarked(nodes: seq<Node>, lists: seq<seq<string>>, v: nat, c: nat)
    requires SimpleGraph(nodes) && v < |nodes| && c < |lists| && ListsMarked(nodes, lists) && nodes[v].hasColor
    ensures ListsMarked(nodes, lists[c := lists[c] + [nodes[v].id]])
  {
    var l := lists[c := lists[c] + [nodes[v].id]];
    forall u, d | 0 <= u < |nodes| && 0 <= d < |l| && nodes[u].id in l[d] ensures nodes[u].hasColor {
      if u != v {
        assert nodes[u].id != nodes[v].id;
        assert nodes[u].id in lists[d];
      }
    }
  }

  lemma ColourNamed(vt: VarTable, first: int, lists: seq<seq<string>>, table: VarTable, id: string, c: nat)
    requires c < |lists| && ListsNamed(vt, first, lists, table) && Eligible(vt, id)
    requires !Listed(lists, id)
    ensures ListsNamed(vt, first, lists[c := lists[c] + [id]], Put(table, id, Descriptor(Local, first + c, Lookup(vt, id).value.varType)))
  {
    var l := lists[c := lists[c] + [id]];
    var t := Put(table, id, Descriptor(Local, first + c, Lookup(vt, id).value.varType));
    PutLookup(table, id, Descriptor(Local, first + c, Lookup(vt, id).value.varType));
    forall d, x | 0 <= d < |l| && x in l[d] ensures Eligible(vt, x) && Lookup(t, x) == Some(Descriptor(Local, first + d, Lookup(vt, x).value.varType)) {
      if x != id {
        assert x in lists[d];
      }
    }
  }

  /** The colour was free: no coloured neighbour has it, and the uncoloured ones have no colour at all. */
  lemma ColourNoClash(nodes: seq<Node>, lists: seq<seq<string>>, v: nat, c: nat)
    requires SimpleGraph(nodes) && v < |nodes| && c < |lists|
    requires NoClash(nodes, lists) && ListsMarked(nodes, lists) && !Blocked(nodes, v, lists[c])
    requires !Listed(lists, nodes[v].id)
    ensures NoClash(nodes, lists[c := lists[c] + [nodes[v].id]])
  {
    var id := nodes[v].id;
    var l := lists[c := lists[c] + [id]];
    forall a, b, d | 0 <= a < |nodes| && 0 <= b < |nodes| && b in nodes[a].edges && 0 <= d < |l|
      ensures !(nodes[a].id in l[d] && nodes[b].id in l[d])
    {
      if d == c {
        assert b != a && a in nodes[b].edges;
        if a == v {
          FreeNeighbour(nodes, lists, v, c, b);
        } else if b == v {
          FreeNeighbour(nodes, lists, v, c, a);
        } else {
          assert nodes[a].id != id && nodes[b].id != id;
          assert !(nodes[a].id in lists[c] && nodes[b].id in lists[c]);
        }
      }
    }
  }

  /** A neighbour of a node that takes a free colour does not have that colour. */
  lemma FreeNeighbour(nodes: seq<Node>, lists: seq<seq<string>>, v: nat, c: nat, u: nat)
    requires SimpleGraph(nodes) && v < |nodes| && c < |lists| && u < |nodes| && u in nodes[v].edges && u != v
    requires ListsMarked(nodes, lists) && !Blocked(nodes, v, lists[c])
    ensures nodes[u].id != nodes[v].id && nodes[u].id !in lists[c]
  {
    assert u in Colored(nodes, nodes[v].edges) <==> nodes[u].hasColor;
  }

  /** With no colour free, minimisation adds an empty colour and pushes the node back. */
  lemma GrowSound(vt: VarTable, first: int, nodes: seq<Node>, present: seq<bool>, rest: seq<nat>, lists: seq<seq<string>>, table: VarTable, v: nat)
    requires LiftedOk(vt, first, nodes, rest, lists, table, v) && |present| == |nodes|
    ensures Sound(vt, first, Phase(nodes, present, rest + [v], lists + [[]], table))
  {
    GrowFresh(nodes, rest, lists, v);
    EmptyColour(vt, first, nodes, lists, table);
    GrowPlaced(vt, nodes, rest, lists, v);
  }

  lemma GrowFresh(nodes: seq<Node>, stack: seq<nat>, lists: seq<seq<string>>, v: nat)
    requires v < |nodes| && (forall i :: 0 <= i < |stack| ==> stack[i] < |nodes|) && StackFresh(nodes, stack, lists)
    requires v !in stack && !Listed(lists, nodes[v].id)
    ensures StackFresh(nodes, stack + [v], lists + [[]])
  {
    var s := stack + [v];
    var l := lists + [[]];
    forall i, j | 0 <= i < j < |s| ensures s[i] != s[j] {
      if j == |s| - 1 {
        assert s[i] in stack;
      }
    }
    forall i, c | 0 <= i < |s| && 0 <= c < |l| ensures nodes[s[i]].id !in l[c] {
      if c < |lists| && i < |stack| {
        assert s[i] == stack[i];
      }
    }
  }

  /** An empty colour added at the end changes nothing of what the colours say. */
  lemma EmptyColour(vt: VarTable, first: int, nodes: seq<Node>, lists: seq<seq<string>>, table: VarTable)
    requires ListsMarked(nodes, lists) && NoClash(nodes, lists) && ListsNamed(vt, first, lists, table)
    ensures ListsMarked(nodes, lists + [[]]) && NoClash(nodes, lists + [[]]) && ListsNamed(vt, first, lists + [[]], table)
  {
    var l := lists + [[]];
    assert forall c :: 0 <= c < |lists| ==> l[c] == lists[c];
  }

  lemma GrowPlaced(vt: VarTable, nodes: seq<Node>, stack: seq<nat>, lists: seq<seq<string>>, v: nat)
    requires PlacedBut(vt, nodes, stack, lists, v)
    ensures AllPlaced(vt, nodes, stack + [v], lists + [[]])
  {
    var l := lists + [[]];
    forall u | 0 <= u < |nodes| && Eligible(vt, nodes[u].id) ensures u in stack + [v] || Listed(l, nodes[u].id) {
      if u != v && u !in stack {
        var d :| 0 <= d < |lists| && nodes[u].id in lists[d];
        assert nodes[u].id in l[d];
      }
    }
  }

  /** A turn whose node the allocator does not colour only lifts the node. */
  lemma PopSkip(vt: VarTable, first: int, minimize: bool, p: Phase)
    requires PhaseOk(p) && |p.stack| > 0
    ensures var v := p.stack[|p.stack| - 1]; var nodes := p.nodes[v := p.nodes[v].(hasColor := true)];
      !Eligible(vt, nodes[v].id) ==>
        Pop(vt, first, minimize, p) == Next(Phase(nodes, p.present[v := true], p.stack[..|p.stack| - 1], p.lists, p.table))
  {
  }

  /** A turn that finds a free colour puts the node's name in it and its register in the table. */
  lemma PopColour(vt: VarTable, first: int, minimize: bool, p: Phase, c: nat)
    requires PhaseOk(p) && |p.stack| > 0
    ensures var v := p.stack[|p.stack| - 1]; var nodes := p.nodes[v := p.nodes[v].(hasColor := true)]; var id := nodes[v].id;
      Eligible(vt, id) && FreeFrom(nodes, v, p.lists, 0) == Some(c) ==>
        Pop(vt, first, minimize, p) ==
          Next(Phase(nodes, p.present[v := true], p.stack[..|p.stack| - 1], p.lists[c := p.lists[c] + [id]],
            Put(p.table, id, Descriptor(Local, first + c, Lookup(vt, id).value.varType))))
  {
  }

  /** A turn that finds no free colour adds one and pushes the node again, or stops. */
  lemma PopFull(vt: VarTable, first: int, minimize: bool, p: Phase)
    requires PhaseOk(p) && |p.stack| > 0
    ensures var v := p.stack[|p.stack| - 1]; var nodes := p.nodes[v := p.nodes[v].(hasColor := true)];
      Eligible(vt, nodes[v].id) && FreeFrom(nodes, v, p.lists, 0).None? ==>
        Pop(vt, first, minimize, p) ==
          if minimize then Next(Phase(nodes, p.present[v := true], p.stack[..|p.stack| - 1] + [v], p.lists + [[]], p.table))
          else Stop(Phase(nodes, p.present[v := true], p.stack[..|p.stack| - 1], p.lists, p.table))
  {
  }

  /** Every turn that goes on keeps the invariant, and changes only colour marks. */
  lemma PopSound(vt: VarTable, first: int, minimize: bool, p: Phase)
    requires Sound(vt, first, p) && |p.stack| > 0
    ensures Recoloured(p.nodes, Pop(vt, first, minimize, p).p.nodes)
    ensures Pop(vt, first, minimize, p).Next? ==> Sound(vt, first, Pop(vt, first, minimize, p).p)
    ensures minimize ==> Pop(vt, first, minimize, p).Next?
  {
    var v := p.stack[|p.stack| - 1];
    var rest := p.stack[..|p.stack| - 1];
    var nodes := p.nodes[v := p.nodes[v].(hasColor := true)];
    var present := p.present[v := true];
    var id := nodes[v].id;
    LiftSound(vt, first, p.nodes, p.present, p.stack, p.lists, p.table);
    assert Recoloured(p.nodes, nodes);
    if !Eligible(vt, id) {
      PopSkip(vt, first, minimize, p);
      SkipSound(vt, first, nodes, present, rest, p.lists, p.table, v);
    } else {
      match FreeFrom(nodes, v, p.lists, 0)
      case Some(c) =>
        PopColour(vt, first, minimize, p, c);
        ColourSound(vt, first, nodes, present, rest, p.lists, p.table, v, c);
      case None =>
        PopFull(vt, first, minimize, p);
        GrowSound(vt, first, nodes, present, rest, p.lists, p.table, v);
    }
  }

  /**
   * The colouring loop keeps the invariant; when it finishes the stack is
   * empty, and with minimisation it always finishes.
   */
  lemma {:induction false} ColorPhaseSound(vt: VarTable, first: int, minimize: bool, p: Phase)
    requires Sound(vt, first, p)
    ensures Recoloured(p.nodes, ColorPhase(vt, first, minimize, p).p.nodes)
    ensures ColorPhase(vt, first, minimize, p).Finished? ==> Sound(vt, first, ColorPhase(vt, first, minimize, p).p) && |ColorPhase(vt, first, minimize, p).p.stack| == 0
    ensures minimize ==> ColorPhase(vt, first, minimize, p).Finished?
    decreases Pending(p)
  {
    if |p.stack| > 0 {
      PopSound(vt, first, minimize, p);
      var t := Pop(vt, first, minimize, p);
      if t.Next? {
        ColorPhaseSound(vt, first, minimize, t.p);
        RecolouredTrans(p.nodes, t.p.nodes, ColorPhase(vt, first, minimize, t.p).p.nodes);
      }
    } else {
      assert Recoloured(p.nodes, p.nodes);
    }
  }

  // ---------------------------------------------------------------------
  // Step 6 and the write-back keep the colours
  // ---------------------------------------------------------------------

  /** What step 6 keeps and adds, from `table` to `t`, over the first `n` entries. */
  ghost predicate Kept(vt: VarTable, n: nat, table: VarTable, t: VarTable)
    requires n <= |vt|
  {
    (DistinctNames(table) ==> DistinctNames(t)) &&
    (forall x :: Lookup(table, x).Some? ==> Lookup(t, x) == Lookup(table, x)) &&
    (forall i :: 0 <= i < n && vt[i].desc.scope == Local && vt[i].name != "this" ==> Lookup(t, vt[i].name).Some?)
  }

  /** Step 6 with minimisation never stops. */
  lemma {:induction false} LeftoversMinimize(vt: VarTable, n: nat, first: int, lists: seq<seq<string>>, table: VarTable)
    requires n <= |vt|
    ensures Leftovers(vt, n, first, true, lists, table).Some?
    decreases n
  {
    if n > 0 {
      LeftoversMinimize(vt, n - 1, first, lists, table);
    }
  }

  /**
   * Step 6 gives a register to every LOCAL entry other than `this` and keeps
   * every name the new table already has.
   */
  lemma {:induction false} LeftoversKeep(vt: VarTable, n: nat, first: int, minimize: bool, lists: seq<seq<string>>, table: VarTable)
    requires n <= |vt|
    ensures Leftovers(vt, n, first, minimize, lists, table).Some? ==> Kept(vt, n, table, Leftovers(vt, n, first, minimize, lists, table).value.1)
    decreases n
  {
    if n > 0 && Leftovers(vt, n, first, minimize, lists, table).Some? {
      var s := Leftovers(vt, n - 1, first, minimize, lists, table).value;
      LeftoversKeep(vt, n - 1, first, minimize, lists, table);
      LeftoverKeeps(first, minimize, vt[n - 1], s.0, s.1);
    }
  }

  /** One entry of step 6 keeps every name the new table has and gives the entry one if it is a LOCAL other than `this`. */
  lemma LeftoverKeeps(first: int, minimize: bool, e: VarEntry, lists: seq<seq<string>>, table: VarTable)
    ensures Leftover(first, minimize, e, lists, table).Some? ==>
      var t := Leftover(first, minimize, e, lists, table).value.1;
      (DistinctNames(table) ==> DistinctNames(t)) &&
      (forall x :: Lookup(table, x).Some? ==> Lookup(t, x) == Lookup(table, x)) &&
      (e.desc.scope == Local && e.name != "this" ==> Lookup(t, e.name).Some?)
  {
    PutLookup(table, e.name, Descriptor(Local, first, e.desc.varType));
    PutLookup(table, e.name, Descriptor(Local, first + |lists|, e.desc.varType));
  }

  /** The write-back: a name of the new table gets its new descriptor, any other name keeps the old one. */
  lemma {:induction false} CommitLookup(vt: VarTable, t: VarTable, x: string)
    requires DistinctNames(t)
    ensures Lookup(Commit(vt, t), x) == if Lookup(t, x).Some? then Lookup(t, x) else Lookup(vt, x)
    decreases |t|
  {
    if |t| > 0 {
      var rest := t[1..];
      assert DistinctNames(rest);
      CommitLookup(Put(vt, t[0].name, t[0].desc), rest, x);
      if x == t[0].name {
        PutLookup(vt, t[0].name, t[0].desc);
        forall i | 0 <= i < |rest| ensures rest[i].name != x {
          assert rest[i] == t[i + 1];
        }
      } else {
        assert Lookup(t, x) == Lookup(rest, x);
      }
    }
  }

  lemma {:induction false} CommitDistinct(vt: VarTable, t: VarTable)
    requires DistinctNames(vt)
    ensures DistinctNames(Commit(vt, t))
    decreases |t|
  {
    if |t| > 0 {
      CommitDistinct(Put(vt, t[0].name, t[0].desc), t[1..]);
    }
  }

  lemma {:induction false} NumberedDistinct(vt: VarTable, scope: VarScope, counts: bool, f: Fixed)
    requires DistinctNames(f.table)
    ensures DistinctNames(Numbered(vt, scope, counts, f).table)
    decreases |vt|
  {
    if |vt| > 0 {
      NumberedDistinct(vt[..|vt| - 1], scope, counts, f);
    }
  }

  /** The table of fixed registers names each variable once. */
  lemma FixedDistinct(vt: VarTable, isStatic: bool)
    ensures DistinctNames(FixedRegisters(vt, isStatic).table)
  {
    var s := FirstStep(vt, isStatic);
    NumberedDistinct(vt, Parameter, true, s);
    NumberedDistinct(vt, Field, false, Numbered(vt, Parameter, true, s));
  }

  // ---------------------------------------------------------------------
  // The allocation an attempt writes
  // ---------------------------------------------------------------------

  /** The register a table gives a name, -1 for none. */
  function RegOf(t: VarTable, x: string): int {
    if Lookup(t, x).Some? then Lookup(t, x).value.reg else -1
  }

  /** Every node the allocator colours has a LOCAL register from `first` on, with its type. */
  ghost predicate Allocated(vt: VarTable, nodes: seq<Node>, first: int, t: VarTable) {
    forall v :: 0 <= v < |nodes| && Eligible(vt, nodes[v].id) ==>
      Lookup(t, nodes[v].id).Some? && Lookup(t, nodes[v].id).value.scope == Local &&
      Lookup(t, nodes[v].id).value.reg >= first && Lookup(t, nodes[v].id).value.varType == Lookup(vt, nodes[v].id).value.varType
  }

  /** Interfering nodes the allocator colours are in different registers. */
  ghost predicate Proper(vt: VarTable, nodes: seq<Node>, t: VarTable) {
    forall a, b :: 0 <= a < |nodes| && 0 <= b < |nodes| && b in nodes[a].edges && Eligible(vt, nodes[a].id) && Eligible(vt, nodes[b].id) ==>
      RegOf(t, nodes[a].id) != RegOf(t, nodes[b].id)
  }

  /** At the end of a finished colouring loop, read through step 6 and the write-back. */
  ghost predicate Ended(vt: VarTable, first: int, q: Phase, t: VarTable, final: VarTable) {
    Sound(vt, first, q) && |q.stack| == 0 && DistinctNames(t) && final == Commit(vt, t) &&
    forall x :: Lookup(q.table, x).Some? ==> Lookup(t, x) == Lookup(q.table, x)
  }

  /** A node the allocator colours ends with the register of its colour. */
  lemma ColourOf(vt: VarTable, first: int, q: Phase, t: VarTable, final: VarTable, v: nat) returns (c: nat)
    requires Ended(vt, first, q, t, final) && v < |q.nodes| && Eligible(vt, q.nodes[v].id)
    ensures c < |q.lists| && q.nodes[v].id in q.lists[c]
    ensures Lookup(final, q.nodes[v].id) == Some(Descriptor(Local, first + c, Lookup(vt, q.nodes[v].id).value.varType))
  {
    var x := q.nodes[v].id;
    assert AllPlaced(vt, q.nodes, q.stack, q.lists);
    c :| 0 <= c < |q.lists| && x in q.lists[c];
    assert ListsNamed(vt, first, q.lists, q.table);
    CommitLookup(vt, t, x);
  }

  /** The new table at the end of a finished colouring loop, read through step 6 and the write-back. */
  lemma FinalTable(vt: VarTable, first: int, q: Phase, t: VarTable, final: VarTable)
    requires Ended(vt, first, q, t, final)
    ensures Allocated(vt, q.nodes, first, final) && Proper(vt, q.nodes, final)
  {
    forall v | 0 <= v < |q.nodes| && Eligible(vt, q.nodes[v].id)
      ensures Lookup(final, q.nodes[v].id).Some? && Lookup(final, q.nodes[v].id).value.scope == Local
      ensures Lookup(final, q.nodes[v].id).value.reg >= first && Lookup(final, q.nodes[v].id).value.varType == Lookup(vt, q.nodes[v].id).value.varType
    {
      var c := ColourOf(vt, first, q, t, final, v);
    }
    forall a, b | 0 <= a < |q.nodes| && 0 <= b < |q.nodes| && b in q.nodes[a].edges && Eligible(vt, q.nodes[a].id) && Eligible(vt, q.nodes[b].id)
      ensures RegOf(final, q.nodes[a].id) != RegOf(final, q.nodes[b].id)
    {
      var ca := ColourOf(vt, first, q, t, final, a);
      var cb := ColourOf(vt, first, q, t, final, b);
      Apart(q.nodes, q.lists, a, b, ca, cb);
    }
  }

  /** Interfering nodes are never in one colour. */
  lemma Apart(nodes: seq<Node>, lists: seq<seq<string>>, a: nat, b: nat, ca: nat, cb: nat)
    requires NoClash(nodes, lists) && a < |nodes| && b < |nodes| && b in nodes[a].edges
    requires ca < |lists| && cb < |lists| && nodes[a].id in lists[ca] && nodes[b].id in lists[cb]
    ensures ca != cb
  {
    assert !(nodes[a].id in lists[ca] && nodes[b].id in lists[ca]);
  }

  /** The colouring loop starts from the simplified graph with every colour empty. */
  lemma StartSound(vt: VarTable, table: VarTable, first: int, colours: nat, w: Work)
    requires Stacked(w) && SimpleGraph(w.nodes) && DistinctNames(table) && !Uncolourable(vt, w.nodes, w.present)
    ensures Sound(vt, first, Phase(w.nodes, w.present, w.stack, seq(colours, _ => []), table))
  {
    var lists: seq<seq<string>> := seq(colours, _ => []);
    assert forall c :: 0 <= c < |lists| ==> lists[c] == [];
    forall v | 0 <= v < |w.nodes| && Eligible(vt, w.nodes[v].id) ensures v in w.stack {
      assert !w.present[v];
    }
  }

  /** The var table an attempt writes: the old one unless the colouring loop and step 6 both finish. */
  lemma FinishTable(vt: VarTable, table: VarTable, first: int, minimize: bool, colours: nat, w: Work)
    requires |w.present| == |w.nodes| && StackIn(w)
    ensures var o := ColorPhase(vt, first, minimize, Phase(w.nodes, w.present, w.stack, seq(colours, _ => []), table));
      var l := Leftovers(vt, |vt|, first, minimize, o.p.lists, o.p.table);
      Finish(vt, table, first, minimize, colours, w).varTable == if o.Finished? && l.Some? then Commit(vt, l.value.1) else vt
  {
  }

  /**
   * An attempt that gets past simplification either leaves the var table
   * alone or gives every coloured local a register no interfering local
   * shares; with minimisation it always does the latter.
   */
  lemma FinishProper(vt: VarTable, table: VarTable, first: int, minimize: bool, colours: nat, w: Work)
    requires Stacked(w) && SimpleGraph(w.nodes) && DistinctNames(table) && !Uncolourable(vt, w.nodes, w.present)
    ensures var a := Finish(vt, table, first, minimize, colours, w);
      (minimize || a.varTable != vt) ==> Allocated(vt, w.nodes, first, a.varTable) && Proper(vt, w.nodes, a.varTable)
  {
    var p := Phase(w.nodes, w.present, w.stack, seq(colours, _ => []), table);
    StartSound(vt, table, first, colours, w);
    ColorPhaseSound(vt, first, minimize, p);
    FinishTable(vt, table, first, minimize, colours, w);
    var o := ColorPhase(vt, first, minimize, p);
    if o.Finished? {
      var q := o.p;
      LeftoversKeep(vt, |vt|, first, minimize, q.lists, q.table);
      if minimize {
        LeftoversMinimize(vt, |vt|, first, q.lists, q.table);
      }
      var l := Leftovers(vt, |vt|, first, minimize, q.lists, q.table);
      if l.Some? {
        var t := l.value.1;
        FinalTable(vt, first, q, t, Commit(vt, t));
        RecolouredPreserves(vt, w.nodes, q.nodes, first, Commit(vt, t));
      }
    }
  }

  lemma RecolouredPreserves(vt: VarTable, a: seq<Node>, b: seq<Node>, first: int, t: VarTable)
    requires Recoloured(a, b) && Allocated(vt, b, first, t) && Proper(vt, b, t)
    ensures Allocated(vt, a, first, t) && Proper(vt, a, t)
  {
    assert forall v :: 0 <= v < |a| ==> b[v].id == a[v].id && b[v].edges == a[v].edges;
  }

  /** The first colour only rises with k. */
  lemma FirstRises(f: Fixed, k: int, k': int)
    requires k <= k'
    ensures First(f, k) <= First(f, k')
  {
  }

  /** Allocation with a non-negative k puts no local below the base: `this` and the parameters keep their registers to themselves. */
  lemma FirstAboveBase(vt: VarTable, isStatic: bool, k: int)
    requires k >= 0
    ensures First(FixedRegisters(vt, isStatic), k) >= FixedRegisters(vt, isStatic).base
  {
    FixedCounts(vt, isStatic);
  }

  /** What `RunProper` promises of an allocation. */
  ghost predicate ProperRun(vt: VarTable, isStatic: bool, nodes: seq<Node>, k: int, minimize: bool, a: Alloc) {
    (minimize || a.varTable != vt) ==>
      Allocated(vt, nodes, First(FixedRegisters(vt, isStatic), k), a.varTable) && Proper(vt, nodes, a.varTable)
  }

  /**
   * `compute` with the retry repaired, from the graph as built: a proper
   * allocation whenever the var table changes, and with minimisation the
   * var table always changes to one.
   */
  lemma {:induction false} RunProper(vt: VarTable, isStatic: bool, nodes: seq<Node>, present: seq<bool>, k: int, minimize: bool)
    requires Fresh(nodes, present)
    ensures ProperRun(vt, isStatic, nodes, k, minimize, Run(Repaired, vt, isStatic, nodes, present, k, minimize))
    decreases Retries(vt, isStatic, EdgeBound(nodes), k)
  {
    var t := Attempt(vt, isStatic, nodes, present, k, minimize);
    if t.Retry? {
      RunRetry(Repaired, vt, isStatic, nodes, present, k, minimize);
      RunProper(vt, isStatic, nodes, present, k + 1, true);
      var f := FixedRegisters(vt, isStatic);
      FirstRises(f, k, k + 1);
      AllocatedLower(vt, nodes, First(f, k), First(f, k + 1), Run(Repaired, vt, isStatic, nodes, present, k + 1, true).varTable);
    } else {
      assert Run(Repaired, vt, isStatic, nodes, present, k, minimize) == t.alloc;
      AttemptProper(vt, isStatic, nodes, present, k, minimize);
    }
  }

  /** An attempt that gets past simplification colours the simplified graph. */
  lemma AttemptFinish(vt: VarTable, isStatic: bool, nodes: seq<Node>, present: seq<bool>, k: int, minimize: bool)
    requires |present| == |nodes|
    ensures var f := FixedRegisters(vt, isStatic); var first := First(f, k);
      var w := Simplify(vt, f.base + k - first, Work(nodes, present, []));
      !Uncolourable(vt, w.nodes, w.present) ==>
        StackIn(w) && Attempt(vt, isStatic, nodes, present, k, minimize) == Done(Finish(vt, f.table, first, minimize, f.base + k - first, w))
  {
    var f := FixedRegisters(vt, isStatic);
    SimplifyStackIn(vt, f.base + k - First(f, k), Work(nodes, present, []));
  }

  /** With minimisation, an attempt that simplification leaves with a node in the map retries on the graph as simplification left it. */
  lemma AttemptRetries(vt: VarTable, isStatic: bool, nodes: seq<Node>, present: seq<bool>, k: int)
    requires |present| == |nodes|
    ensures var f := FixedRegisters(vt, isStatic); var first := First(f, k);
      var w := Simplify(vt, f.base + k - first, Work(nodes, present, []));
      Uncolourable(vt, w.nodes, w.present) ==> Attempt(vt, isStatic, nodes, present, k, true) == Retry(w.nodes, w.present)
  {
  }

  /** An attempt that simplification leaves with a node in the map retries or leaves the var table alone. */
  lemma AttemptStuck(vt: VarTable, isStatic: bool, nodes: seq<Node>, present: seq<bool>, k: int, minimize: bool)
    requires |present| == |nodes|
    ensures var f := FixedRegisters(vt, isStatic); var first := First(f, k);
      var w := Simplify(vt, f.base + k - first, Work(nodes, present, []));
      Uncolourable(vt, w.nodes, w.present) ==>
        Attempt(vt, isStatic, nodes, present, k, minimize).Retry? || Attempt(vt, isStatic, nodes, present, k, minimize).alloc.varTable == vt
  {
  }

  /** One attempt from the graph as built that does not ask for a retry. */
  lemma AttemptProper(vt: VarTable, isStatic: bool, nodes: seq<Node>, present: seq<bool>, k: int, minimize: bool)
    requires Fresh(nodes, present) && Attempt(vt, isStatic, nodes, present, k, minimize).Done?
    ensures ProperRun(vt, isStatic, nodes, k, minimize, Attempt(vt, isStatic, nodes, present, k, minimize).alloc)
  {
    var f := FixedRegisters(vt, isStatic);
    AttemptFinish(vt, isStatic, nodes, present, k, minimize);
    AttemptStuck(vt, isStatic, nodes, present, k, minimize);
    FixedDistinct(vt, isStatic);
    SimplifiedProper(vt, f.table, First(f, k), minimize, f.base + k - First(f, k), nodes, present);
  }

  /** Colouring what simplification leaves of the graph as built gives that graph a proper allocation. */
  lemma SimplifiedProper(vt: VarTable, table: VarTable, first: int, minimize: bool, colours: nat, nodes: seq<Node>, present: seq<bool>)
    requires Fresh(nodes, present) && DistinctNames(table)
    ensures var w := Simplify(vt, colours, Work(nodes, present, [])); !Uncolourable(vt, w.nodes, w.present) ==> StackIn(w)
    ensures var w := Simplify(vt, colours, Work(nodes, present, []));
      !Uncolourable(vt, w.nodes, w.present) ==>
        (var a := Finish(vt, table, first, minimize, colours, w);
         (minimize || a.varTable != vt) ==> Allocated(vt, nodes, first, a.varTable) && Proper(vt, nodes, a.varTable))
  {
    var w0 := Work(nodes, present, []);
    var w := Simplify(vt, colours, w0);
    assert Stacked(w0);
    SimplifyStacked(vt, colours, w0);
    RecolouredSimple(nodes, w.nodes);
    if !Uncolourable(vt, w.nodes, w.present) {
      FinishProper(vt, table, first, minimize, colours, w);
      var a := Finish(vt, table, first, minimize, colours, w);
      if minimize || a.varTable != vt {
        RecolouredPreserves(vt, nodes, w.nodes, first, a.varTable);
      }
    }
  }

  lemma AllocatedLower(vt: VarTable, nodes: seq<Node>, lo: int, first: int, t: VarTable)
    requires lo <= first && Allocated(vt, nodes, first, t)
    ensures Allocated(vt, nodes, lo, t)
  {
  }
}
