/**
 * The retry of a failed minimising attempt, as written and as repaired.
 *
 * As written, `compute(graph, k + 1, true)` runs on the graph the failed
 * attempt left behind: the nodes that attempt simplified are gone from the
 * map and have lost their colour marks. They no longer take part in the
 * colouring, and step 6 then hands them the first colour with no
 * interference check. Here a static method with the locals `a`, `b`, `c`
 * and `d`, where `a`, `b` and `c` interfere pairwise and `d` interferes with
 * `c`, ends with `c` and `d` in the same register. Retrying on the graph the
 * attempt started from, the repaired `Run`, never does this (`RunProper`).
 *
 * The run is followed on any var table and graph of that shape
 * (`Example`); `ExampleHolds` gives one.
 */
module ColoringFindings {
  import opened Wrappers
  import opened Ollir
  import opened Liveness
  import opened Interference
  import opened Coloring
  import opened ColoringFacts

  /**
   * Four locals of a static method, none of them `this`, whose nodes are in
   * table order; all nodes are in the map and marked; `a`, `b` and `c`
   * interfere pairwise and `d` interferes with `c` alone.
   */
  predicate Example(vt: VarTable, nodes: seq<Node>, present: seq<bool>) {
    |vt| == 4 && |nodes| == 4 && |present| == 4 && DistinctNames(vt) &&
    (forall v :: 0 <= v < 4 ==> present[v] && nodes[v].hasColor) &&
    (forall v :: 0 <= v < 4 ==> nodes[v].id == vt[v].name && vt[v].desc.scope == Local && vt[v].name != "this") &&
    nodes[0].edges == [1, 2] && nodes[1].edges == [0, 2] && nodes[2].edges == [0, 1, 3] && nodes[3].edges == [2]
  }

  function Table(): VarTable {
    [VarEntry("a", Descriptor(Local, 0, "i32")), VarEntry("b", Descriptor(Local, 1, "i32")),
     VarEntry("c", Descriptor(Local, 2, "i32")), VarEntry("d", Descriptor(Local, 3, "i32"))]
  }

  /** `a`, `b` and `c` are live together over [0, 3); `c` stays live to 5 and `d` is live over [4, 6). */
  function Graph(): seq<Node> {
    [Node("a", 0, [1, 2], true, [Range(0, 3)]), Node("b", 1, [0, 2], true, [Range(0, 3)]),
     Node("c", 2, [0, 1, 3], true, [Range(0, 5)]), Node("d", 3, [2], true, [Range(4, 6)])]
  }

  function All(): seq<bool> { [true, true, true, true] }

  lemma ExampleHolds()
    ensures Example(Table(), Graph(), All())
  {
    var vt, g := Table(), Graph();
    assert vt[0].name == "a" && vt[1].name == "b" && vt[2].name == "c" && vt[3].name == "d";
    assert "a" != "b" && "a" != "c" && "a" != "d" && "b" != "c" && "b" != "d" && "c" != "d";
  }

  /** In the example every node is eligible and carries the name of its table entry. */
  lemma ExampleNames(vt: VarTable, nodes: seq<Node>, present: seq<bool>)
    requires Example(vt, nodes, present)
    ensures forall v :: 0 <= v < 4 ==> Eligible(vt, nodes[v].id) && Lookup(vt, nodes[v].id) == Some(vt[v].desc)
    ensures forall a, b :: 0 <= a < 4 && 0 <= b < 4 && a != b ==> nodes[a].id != nodes[b].id
  {
    forall v | 0 <= v < 4 ensures Lookup(vt, nodes[v].id) == Some(vt[v].desc) {
      LookupAt(vt, v);
    }
  }

  /** The example's graph is one that the construction builds. */
  lemma ExampleFresh(vt: VarTable, nodes: seq<Node>, present: seq<bool>)
    requires Example(vt, nodes, present)
    ensures Fresh(nodes, present)
  {
    ExampleNames(vt, nodes, present);
    ExampleEdges(nodes);
  }

  lemma ExampleEdges(nodes: seq<Node>)
    requires |nodes| == 4 && nodes[0].edges == [1, 2] && nodes[1].edges == [0, 2] && nodes[2].edges == [0, 1, 3] && nodes[3].edges == [2]
    ensures forall v, j :: 0 <= v < |nodes| && 0 <= j < |nodes[v].edges| ==> nodes[v].edges[j] < |nodes|
    ensures forall a, b :: 0 <= a < |nodes| && 0 <= b < |nodes| && b in nodes[a].edges ==> a != b && a in nodes[b].edges
  {
    forall a, b | 0 <= a < |nodes| && 0 <= b < |nodes| && b in nodes[a].edges ensures a != b && a in nodes[b].edges {
      if a == 0 {
        assert b == 1 || b == 2;
      } else if a == 1 {
        assert b == 0 || b == 2;
      } else if a == 2 {
        assert b == 0 || b == 1 || b == 3;
      } else {
        assert b == 2;
      }
    }
  }

  /** Numbering a scope no entry has changes nothing. */
  lemma {:induction false} NumberedNone(vt: VarTable, scope: VarScope, counts: bool, f: Fixed)
    requires forall i :: 0 <= i < |vt| ==> vt[i].desc.scope != scope
    ensures Numbered(vt, scope, counts, f) == f
    decreases |vt|
  {
    if |vt| > 0 {
      NumberedNone(vt[..|vt| - 1], scope, counts, f);
    }
  }

  /** A static method with only locals has no fixed registers and hands out colours from register 0. */
  lemma NoFixed(vt: VarTable)
    requires forall i :: 0 <= i < |vt| ==> vt[i].desc.scope == Local
    ensures FixedRegisters(vt, true) == Fixed([], 0, 0)
  {
    NumberedNone(vt, Parameter, true, Fixed([], 0, 0));
    NumberedNone(vt, Field, false, Fixed([], 0, 0));
  }

  // ---- degrees ----

  lemma OneMarked(nodes: seq<Node>, v: nat, x: nat)
    requires v < |nodes| && x < |nodes| && x in nodes[v].edges && nodes[x].hasColor
    ensures Degree(nodes, v) >= 1
  {
    assert x in Colored(nodes, nodes[v].edges);
  }

  lemma TwoMarked(nodes: seq<Node>, v: nat, x: nat, y: nat)
    requires v < |nodes| && x < |nodes| && y < |nodes| && x != y
    requires x in nodes[v].edges && y in nodes[v].edges && nodes[x].hasColor && nodes[y].hasColor
    ensures Degree(nodes, v) >= 2
  {
    var r := Colored(nodes, nodes[v].edges);
    assert x in r && y in r;
  }

  lemma {:induction false} NoneMarked(nodes: seq<Node>, es: seq<nat>)
    requires forall j :: 0 <= j < |es| ==> es[j] < |nodes| && !nodes[es[j]].hasColor
    ensures Colored(nodes, es) == []
    decreases |es|
  {
    if |es| > 0 {
      NoneMarked(nodes, es[..|es| - 1]);
    }
  }

  // ---- simplification ----

  /** A sweep over nodes none of which is removable changes nothing. */
  lemma {:induction false} SweepNone(vt: VarTable, colours: nat, w: Work, v: nat, removed: bool)
    requires |w.present| == |w.nodes| && v <= |w.nodes|
    requires forall u :: v <= u < |w.nodes| ==> !Removable(vt, colours, w, u)
    ensures Sweep(vt, colours, w, v, removed) == (w, removed)
    decreases |w.nodes| - v
  {
    if v < |w.nodes| {
      SweepNone(vt, colours, w, v + 1, removed);
    }
  }

  /** Simplification stops at once when no node is removable. */
  lemma SimplifyNone(vt: VarTable, colours: nat, w: Work)
    requires |w.present| == |w.nodes|
    requires forall u :: 0 <= u < |w.nodes| ==> !Removable(vt, colours, w, u)
    ensures Simplify(vt, colours, w) == w
  {
    SweepNone(vt, colours, w, 0, false);
  }

  /** Simplification with one sweep that removes something and one that does not. */
  lemma SimplifyOnce(vt: VarTable, colours: nat, w: Work, w2: Work)
    requires |w.present| == |w.nodes| && |w2.present| == |w2.nodes|
    requires Sweep(vt, colours, w, 0, false) == (w2, true)
    requires forall u :: 0 <= u < |w2.nodes| ==> !Removable(vt, colours, w2, u)
    ensures Simplify(vt, colours, w) == w2
  {
    SimplifyNone(vt, colours, w2);
  }

  /** Simplification with equal colour counts gives the same graph. */
  lemma SameColours(vt: VarTable, a: nat, b: int, w0: Work, w: Work)
    requires |w0.present| == |w0.nodes| && a == b && Simplify(vt, a, w0) == w
    ensures b >= 0 && Simplify(vt, b, w0) == w
  {
  }

  /** With no fixed registers, an attempt whose simplification gets stuck retries on what it left. */
  lemma StuckRetry(vt: VarTable, isStatic: bool, nodes: seq<Node>, present: seq<bool>, k: nat, w: Work)
    requires |present| == |nodes| && FixedRegisters(vt, isStatic) == Fixed([], 0, 0)
    requires Simplify(vt, k, Work(nodes, present, [])) == w && Uncolourable(vt, w.nodes, w.present)
    ensures Attempt(vt, isStatic, nodes, present, k, true) == Retry(w.nodes, w.present)
  {
    var f := FixedRegisters(vt, isStatic);
    SameColours(vt, k, f.base + k - First(f, k), Work(nodes, present, []), w);
    AttemptRetries(vt, isStatic, nodes, present, k);
  }

  // ---- the attempts ----

  /** With fewer than two colours no node of the example is removable, and `a` stays in the map. */
  lemma NoneRemovable(vt: VarTable, nodes: seq<Node>, present: seq<bool>, k: nat)
    requires Example(vt, nodes, present) && k <= 1
    ensures forall u :: 0 <= u < |nodes| ==> !Removable(vt, k, Work(nodes, present, []), u)
    ensures Uncolourable(vt, nodes, present)
  {
    ExampleNames(vt, nodes, present);
    OneMarked(nodes, 0, 1);
    OneMarked(nodes, 1, 0);
    OneMarked(nodes, 2, 0);
    OneMarked(nodes, 3, 2);
  }

  /** With k = 0 there are no colours, and with k = 1 every node has a coloured neighbour: nothing is removed and the attempt retries on the same graph. */
  lemma AttemptsStuck(vt: VarTable, nodes: seq<Node>, present: seq<bool>, k: nat)
    requires Example(vt, nodes, present) && k <= 1
    ensures Attempt(vt, true, nodes, present, k, true) == Retry(nodes, present)
  {
    NoFixed(vt);
    NoneRemovable(vt, nodes, present, k);
    SimplifyNone(vt, k, Work(nodes, present, []));
    StuckRetry(vt, true, nodes, present, k, Work(nodes, present, []));
  }

  /** With two colours the first sweep removes `d` alone. */
  lemma SweepTwo(vt: VarTable, nodes: seq<Node>, present: seq<bool>)
    requires Example(vt, nodes, present)
    ensures Sweep(vt, 2, Work(nodes, present, []), 0, false) ==
      (Work(nodes[3 := nodes[3].(hasColor := false)], present[3 := false], [3]), true)
  {
    var w := Work(nodes, present, []);
    ExampleNames(vt, nodes, present);
    TwoMarked(nodes, 0, 1, 2);
    TwoMarked(nodes, 1, 0, 2);
    TwoMarked(nodes, 2, 0, 1);
    SweepAt(vt, 2, w, 0, false);
    SweepAt(vt, 2, w, 1, false);
    SweepAt(vt, 2, w, 2, false);
    SweepAt(vt, 2, w, 3, false);
    assert Degree(nodes, 3) <= 1;
    assert Removable(vt, 2, w, 3);
    assert w.stack + [3] == [3];
  }

  /** Without `d`, `a`, `b` and `c` each keep two coloured neighbours: the second sweep with two colours removes nothing, and `a` stays in the map. */
  lemma LeftStuck(vt: VarTable, nodes: seq<Node>, present: seq<bool>)
    requires Example(vt, nodes, present)
    ensures var left := Work(nodes[3 := nodes[3].(hasColor := false)], present[3 := false], [3]);
      (forall u :: 0 <= u < |left.nodes| ==> !Removable(vt, 2, left, u)) && Uncolourable(vt, left.nodes, left.present)
  {
    var left := Work(nodes[3 := nodes[3].(hasColor := false)], present[3 := false], [3]);
    ExampleNames(vt, nodes, present);
    TwoMarked(left.nodes, 0, 1, 2);
    TwoMarked(left.nodes, 1, 0, 2);
    TwoMarked(left.nodes, 2, 0, 1);
  }

  /** With k = 2 simplification removes `d` and gets stuck: the retry gets the graph without `d`. */
  lemma AttemptTwoColours(vt: VarTable, nodes: seq<Node>, present: seq<bool>)
    requires Example(vt, nodes, present)
    ensures Attempt(vt, true, nodes, present, 2, true) == Retry(nodes[3 := nodes[3].(hasColor := false)], present[3 := false])
  {
    var left := Work(nodes[3 := nodes[3].(hasColor := false)], present[3 := false], [3]);
    NoFixed(vt);
    SweepTwo(vt, nodes, present);
    LeftStuck(vt, nodes, present);
    SimplifyOnce(vt, 2, Work(nodes, present, []), left);
    StuckRetry(vt, true, nodes, present, 2, left);
  }

  // ---- the attempt with k = 3 on the graph without `d` ----

  /** Nodes that keep the example's names and edges but have all lost their colour marks and left the map. */
  predicate Emptied(nodes: seq<Node>, w: Work) {
    |w.nodes| == 4 && |w.present| == 4 && |nodes| == 4 &&
    forall v :: 0 <= v < 4 ==> !w.present[v] && !w.nodes[v].hasColor && w.nodes[v].id == nodes[v].id && w.nodes[v].edges == nodes[v].edges
  }

  /** A sweep's step that takes node `v` off the map. */
  function Unmark(w: Work, v: nat): Work
    requires v < |w.nodes| && |w.present| == |w.nodes|
  {
    Work(w.nodes[v := w.nodes[v].(hasColor := false)], w.present[v := false], w.stack + [v])
  }

  /** With three colours `a` goes first, `b` second and `c` last. */
  lemma RemovableThree(vt: VarTable, nodes: seq<Node>, present: seq<bool>)
    requires Example(vt, nodes, present)
    ensures var w0 := Work(nodes[3 := nodes[3].(hasColor := false)], present[3 := false], []);
      Removable(vt, 3, w0, 0) && Removable(vt, 3, Unmark(w0, 0), 1) && Removable(vt, 3, Unmark(Unmark(w0, 0), 1), 2)
  {
    ExampleNames(vt, nodes, present);
    var w0 := Work(nodes[3 := nodes[3].(hasColor := false)], present[3 := false], []);
    var w2 := Unmark(Unmark(w0, 0), 1);
    NoneMarked(w2.nodes, w2.nodes[2].edges);
  }

  /** With three colours one sweep removes `a`, `b` and `c` in that order. */
  lemma SweepThree(vt: VarTable, nodes: seq<Node>, present: seq<bool>)
    requires Example(vt, nodes, present)
    ensures var w0 := Work(nodes[3 := nodes[3].(hasColor := false)], present[3 := false], []);
      Sweep(vt, 3, w0, 0, false) == (Unmark(Unmark(Unmark(w0, 0), 1), 2), true)
  {
    var w0 := Work(nodes[3 := nodes[3].(hasColor := false)], present[3 := false], []);
    var w3 := Unmark(Unmark(Unmark(w0, 0), 1), 2);
    RemovableThree(vt, nodes, present);
    SweepAt(vt, 3, w0, 0, false);
    SweepAt(vt, 3, Unmark(w0, 0), 1, true);
    SweepAt(vt, 3, Unmark(Unmark(w0, 0), 1), 2, true);
    SweepAt(vt, 3, w3, 3, true);
  }

  /** The sweep leaves every node off the map and unmarked, with `c` on top of the stack. */
  lemma ThreeEmptied(vt: VarTable, nodes: seq<Node>, present: seq<bool>)
    requires Example(vt, nodes, present)
    ensures var w3 := Unmark(Unmark(Unmark(Work(nodes[3 := nodes[3].(hasColor := false)], present[3 := false], []), 0), 1), 2);
      w3.stack == [0, 1, 2] && Emptied(nodes, w3)
  {
  }

  /** With no fixed registers, an attempt whose simplification empties the map goes on to colouring from register 0. */
  lemma DoneAttempt(vt: VarTable, isStatic: bool, nodes: seq<Node>, present: seq<bool>, k: nat, minimize: bool, w: Work)
    requires |present| == |nodes| && FixedRegisters(vt, isStatic) == Fixed([], 0, 0)
    requires Simplify(vt, k, Work(nodes, present, [])) == w && !Uncolourable(vt, w.nodes, w.present)
    ensures StackIn(w) && Attempt(vt, isStatic, nodes, present, k, minimize) == Done(Finish(vt, [], 0, minimize, k, w))
  {
    AttemptFinish(vt, isStatic, nodes, present, k, minimize);
  }

  /** An emptied map has no node left to remove or to complain about. */
  lemma EmptiedDone(vt: VarTable, nodes: seq<Node>, w: Work)
    requires Emptied(nodes, w)
    ensures (forall u :: 0 <= u < |w.nodes| ==> !Removable(vt, 3, w, u)) && !Uncolourable(vt, w.nodes, w.present)
  {
  }

  /** With k = 3 the attempt on the graph without `d` gets past simplification with `c` on top of the stack. */
  lemma AttemptThree(vt: VarTable, nodes: seq<Node>, present: seq<bool>) returns (w: Work)
    requires Example(vt, nodes, present)
    ensures w.stack == [0, 1, 2] && Emptied(nodes, w) && StackIn(w)
    ensures Attempt(vt, true, nodes[3 := nodes[3].(hasColor := false)], present[3 := false], 3, true) == Done(Finish(vt, [], 0, true, 3, w))
  {
    var n, p := nodes[3 := nodes[3].(hasColor := false)], present[3 := false];
    w := Unmark(Unmark(Unmark(Work(n, p, []), 0), 1), 2);
    NoFixed(vt);
    SweepThree(vt, nodes, present);
    ThreeEmptied(vt, nodes, present);
    EmptiedDone(vt, nodes, w);
    SimplifyOnce(vt, 3, Work(n, p, []), w);
    DoneAttempt(vt, true, n, p, 3, true, w);
  }

  // ---- colouring, step 6 and the write-back ----

  /** One turn of the colouring loop that goes on. */
  lemma ColorStep(vt: VarTable, first: int, minimize: bool, p: Phase, q: Phase)
    requires PhaseOk(p) && |p.stack| > 0 && Pop(vt, first, minimize, p) == Next(q)
    ensures ColorPhase(vt, first, minimize, p) == ColorPhase(vt, first, minimize, q)
  {
  }

  /** `c`, popped first, takes colour 0. */
  lemma PopC(vt: VarTable, p: Phase)
    requires PhaseOk(p) && |p.nodes| == 4 && p.stack == [0, 1, 2] && p.lists == [[], [], []] && Eligible(vt, p.nodes[2].id)
    ensures var id := p.nodes[2].id;
      Pop(vt, 0, true, p) == Next(Phase(p.nodes[2 := p.nodes[2].(hasColor := true)], p.present[2 := true], [0, 1], [[id], [], []],
        Put(p.table, id, Descriptor(Local, 0, Lookup(vt, id).value.varType))))
  {
    var n := p.nodes[2 := p.nodes[2].(hasColor := true)];
    assert !Blocked(n, 2, p.lists[0]);
    assert FreeFrom(n, 2, p.lists, 0) == Some(0);
    assert p.lists[0] + [n[2].id] == [n[2].id];
    assert p.lists[0 := [n[2].id]] == [[n[2].id], [], []];
    PopColour(vt, 0, true, p, 0);
  }

  /** `b`, popped second, finds `c` in colour 0 and takes colour 1. */
  lemma PopB(vt: VarTable, p: Phase, x: string)
    requires PhaseOk(p) && |p.nodes| == 4 && p.stack == [0, 1] && p.lists == [[x], [], []] && Eligible(vt, p.nodes[1].id)
    requires p.nodes[1].edges == [0, 2] && p.nodes[2].hasColor && p.nodes[2].id == x
    ensures var id := p.nodes[1].id;
      Pop(vt, 0, true, p) == Next(Phase(p.nodes[1 := p.nodes[1].(hasColor := true)], p.present[1 := true], [0], [[x], [id], []],
        Put(p.table, id, Descriptor(Local, 1, Lookup(vt, id).value.varType))))
  {
    var n := p.nodes[1 := p.nodes[1].(hasColor := true)];
    assert 2 in Colored(n, n[1].edges);
    assert Blocked(n, 1, p.lists[0]) && !Blocked(n, 1, p.lists[1]);
    assert FreeFrom(n, 1, p.lists, 1) == Some(1);
    assert FreeFrom(n, 1, p.lists, 0) == Some(1);
    assert p.lists[1] + [n[1].id] == [n[1].id];
    assert p.lists[1 := [n[1].id]] == [[x], [n[1].id], []];
    PopColour(vt, 0, true, p, 1);
  }

  /** `a`, popped last, finds `c` in colour 0 and `b` in colour 1 and takes colour 2. */
  lemma PopA(vt: VarTable, p: Phase, x: string, y: string)
    requires PhaseOk(p) && |p.nodes| == 4 && p.stack == [0] && p.lists == [[x], [y], []] && Eligible(vt, p.nodes[0].id)
    requires p.nodes[0].edges == [1, 2] && p.nodes[1].hasColor && p.nodes[1].id == y && p.nodes[2].hasColor && p.nodes[2].id == x
    ensures var id := p.nodes[0].id;
      Pop(vt, 0, true, p) == Next(Phase(p.nodes[0 := p.nodes[0].(hasColor := true)], p.present[0 := true], [], [[x], [y], [id]],
        Put(p.table, id, Descriptor(Local, 2, Lookup(vt, id).value.varType))))
  {
    var n := p.nodes[0 := p.nodes[0].(hasColor := true)];
    assert 2 in Colored(n, n[0].edges) && 1 in Colored(n, n[0].edges);
    assert Blocked(n, 0, p.lists[0]) && Blocked(n, 0, p.lists[1]) && !Blocked(n, 0, p.lists[2]);
    assert FreeFrom(n, 0, p.lists, 2) == Some(2);
    assert FreeFrom(n, 0, p.lists, 1) == Some(2);
    assert FreeFrom(n, 0, p.lists, 0) == Some(2);
    assert p.lists[2] + [n[0].id] == [n[0].id];
    assert p.lists[2 := [n[0].id]] == [[x], [y], [n[0].id]];
    PopColour(vt, 0, true, p, 2);
  }

  /** The type the var table gives a name. */
  function TypeOf(vt: VarTable, x: string): string {
    if Lookup(vt, x).Some? then Lookup(vt, x).value.varType else ""
  }

  /** The table colouring builds: `c` in register 0, `b` in 1 and `a` in 2. */
  function Coloured(vt: VarTable, nodes: seq<Node>): VarTable
    requires |nodes| == 4
  {
    var a, b, c := nodes[0].id, nodes[1].id, nodes[2].id;
    Put(Put(Put([], c, Descriptor(Local, 0, TypeOf(vt, c))), b, Descriptor(Local, 1, TypeOf(vt, b))), a, Descriptor(Local, 2, TypeOf(vt, a)))
  }

  /** The colouring loop pops `c`, `b` and `a` and gives them colours 0, 1 and 2. */
  lemma ColorThree(vt: VarTable, nodes: seq<Node>, present: seq<bool>, w: Work)
    requires Example(vt, nodes, present) && Emptied(nodes, w) && w.stack == [0, 1, 2]
    ensures var o := ColorPhase(vt, 0, true, Phase(w.nodes, w.present, w.stack, seq(3, _ => []), []));
      o.Finished? && o.p.lists == [[nodes[2].id], [nodes[1].id], [nodes[0].id]] && o.p.table == Coloured(vt, nodes)
  {
    ExampleNames(vt, nodes, present);
    var lists: seq<seq<string>> := seq(3, _ => []);
    assert lists == [[], [], []];
    var p0 := Phase(w.nodes, w.present, w.stack, lists, []);
    PopC(vt, p0);
    var p1 := Pop(vt, 0, true, p0).p;
    ColorStep(vt, 0, true, p0, p1);
    PopB(vt, p1, nodes[2].id);
    var p2 := Pop(vt, 0, true, p1).p;
    ColorStep(vt, 0, true, p1, p2);
    PopA(vt, p2, nodes[2].id, nodes[1].id);
    var p3 := Pop(vt, 0, true, p2).p;
    ColorStep(vt, 0, true, p2, p3);
  }

  /** After colouring, `a`, `b` and `c` have registers, `c` register 0, and `d` none. */
  lemma ColouredLookups(vt: VarTable, nodes: seq<Node>, present: seq<bool>)
    requires Example(vt, nodes, present)
    ensures var t := Coloured(vt, nodes);
      DistinctNames(t) && Lookup(t, nodes[0].id).Some? && Lookup(t, nodes[1].id).Some? &&
      Lookup(t, nodes[2].id) == Some(Descriptor(Local, 0, TypeOf(vt, nodes[2].id))) && Lookup(t, nodes[3].id).None?
  {
    ExampleNames(vt, nodes, present);
    var a, b, c := nodes[0].id, nodes[1].id, nodes[2].id;
    var t1 := Put([], c, Descriptor(Local, 0, TypeOf(vt, c)));
    var t2 := Put(t1, b, Descriptor(Local, 1, TypeOf(vt, b)));
    PutLookup([], c, Descriptor(Local, 0, TypeOf(vt, c)));
    PutLookup(t1, b, Descriptor(Local, 1, TypeOf(vt, b)));
    PutLookup(t2, a, Descriptor(Local, 2, TypeOf(vt, a)));
  }

  /** Step 6 finds `d` without a register and hands it colour 0, the register of `c`. */
  lemma StepSix(vt: VarTable, nodes: seq<Node>, present: seq<bool>, lists: seq<seq<string>>)
    requires Example(vt, nodes, present) && |lists| > 0
    ensures var t := Coloured(vt, nodes); var l := Leftovers(vt, 4, 0, true, lists, t);
      l.Some? && l.value.1 == Put(t, nodes[3].id, Descriptor(Local, 0, vt[3].desc.varType))
  {
    ColouredLookups(vt, nodes, present);
    var t := Coloured(vt, nodes);
    assert Leftovers(vt, 1, 0, true, lists, t) == Some((lists, t));
    assert Leftovers(vt, 2, 0, true, lists, t) == Some((lists, t));
    assert Leftovers(vt, 3, 0, true, lists, t) == Some((lists, t));
  }

  /** The write-back leaves `c` and `d` both in register 0. */
  lemma SharedRegister(vt: VarTable, nodes: seq<Node>, present: seq<bool>)
    requires Example(vt, nodes, present)
    ensures var t := Put(Coloured(vt, nodes), nodes[3].id, Descriptor(Local, 0, vt[3].desc.varType));
      RegOf(Commit(vt, t), nodes[2].id) == 0 && RegOf(Commit(vt, t), nodes[3].id) == 0
  {
    ColouredLookups(vt, nodes, present);
    var t0 := Coloured(vt, nodes);
    var t := Put(t0, nodes[3].id, Descriptor(Local, 0, vt[3].desc.varType));
    PutLookup(t0, nodes[3].id, Descriptor(Local, 0, vt[3].desc.varType));
    CommitLookup(vt, t, nodes[2].id);
    CommitLookup(vt, t, nodes[3].id);
  }

  /** The attempt with k = 3 on the graph without `d` writes back `c` and `d` in register 0. */
  lemma LastAttempt(vt: VarTable, nodes: seq<Node>, present: seq<bool>)
    requires Example(vt, nodes, present)
    ensures Run(AsWritten, vt, true, nodes[3 := nodes[3].(hasColor := false)], present[3 := false], 3, true).varTable ==
      Commit(vt, Put(Coloured(vt, nodes), nodes[3].id, Descriptor(Local, 0, vt[3].desc.varType)))
  {
    var w := AttemptThree(vt, nodes, present);
    ColorThree(vt, nodes, present, w);
    StepSix(vt, nodes, present, [[nodes[2].id], [nodes[1].id], [nodes[0].id]]);
    FinishTable(vt, [], 0, true, 3, w);
  }

  /** As written, the attempts with k = 0, 1 and 2 fail and the last one runs on the graph the attempt with k = 2 left. */
  lemma AsWrittenRetries(vt: VarTable, nodes: seq<Node>, present: seq<bool>)
    requires Example(vt, nodes, present)
    ensures Run(AsWritten, vt, true, nodes, present, 0, true) ==
      Run(AsWritten, vt, true, nodes[3 := nodes[3].(hasColor := false)], present[3 := false], 3, true)
  {
    AttemptsStuck(vt, nodes, present, 0);
    RunRetry(AsWritten, vt, true, nodes, present, 0, true);
    RunsFromOne(vt, nodes, present);
  }

  /** From `k` = 1 on, the run as written is the run with `k` = 3 on the graph without `d`. */
  lemma RunsFromOne(vt: VarTable, nodes: seq<Node>, present: seq<bool>)
    requires Example(vt, nodes, present)
    ensures Run(AsWritten, vt, true, nodes, present, 1, true) ==
      Run(AsWritten, vt, true, nodes[3 := nodes[3].(hasColor := false)], present[3 := false], 3, true)
  {
    StuckRuns(vt, nodes, present, 1);
    TwoColoursRun(vt, nodes, present);
  }

  /** With `k` = 0 or 1 the run goes on, as written, to the next `k` on the unchanged graph. */
  lemma StuckRuns(vt: VarTable, nodes: seq<Node>, present: seq<bool>, k: nat)
    requires Example(vt, nodes, present) && k <= 1
    ensures Run(AsWritten, vt, true, nodes, present, k, true) == Run(AsWritten, vt, true, nodes, present, k + 1, true)
  {
    AttemptsStuck(vt, nodes, present, k);
    RunRetry(AsWritten, vt, true, nodes, present, k, true);
  }

  /** With `k` = 2 the run goes on, as written, on the graph without `d`. */
  lemma TwoColoursRun(vt: VarTable, nodes: seq<Node>, present: seq<bool>)
    requires Example(vt, nodes, present)
    ensures Run(AsWritten, vt, true, nodes, present, 2, true) ==
      Run(AsWritten, vt, true, nodes[3 := nodes[3].(hasColor := false)], present[3 := false], 3, true)
  {
    AttemptTwoColours(vt, nodes, present);
    RunRetry(AsWritten, vt, true, nodes, present, 2, true);
  }

  /** As written, minimising allocation puts the interfering `c` and `d` in the same register. */
  lemma AsWrittenClash(vt: VarTable, nodes: seq<Node>, present: seq<bool>)
    requires Example(vt, nodes, present)
    ensures var a := Run(AsWritten, vt, true, nodes, present, 0, true);
      3 in nodes[2].edges && RegOf(a.varTable, nodes[2].id) == RegOf(a.varTable, nodes[3].id) && !ProperRun(vt, true, nodes, 0, true, a)
  {
    ExampleNames(vt, nodes, present);
    AsWrittenRetries(vt, nodes, present);
    LastAttempt(vt, nodes, present);
    SharedRegister(vt, nodes, present);
    assert 3 in nodes[2].edges;
  }

  /** Retrying on the graph the attempt started from, the same method gets a proper allocation. */
  lemma RepairedProper(vt: VarTable, nodes: seq<Node>, present: seq<bool>)
    requires Example(vt, nodes, present)
    ensures ProperRun(vt, true, nodes, 0, true, Run(Repaired, vt, true, nodes, present, 0, true))
  {
    ExampleFresh(vt, nodes, present);
    RunProper(vt, true, nodes, present, 0, true);
  }
}
