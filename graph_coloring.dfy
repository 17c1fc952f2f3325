/**
 * Register allocation by graph colouring over the interference graph of
 * one method: fixed registers for `this`, the parameters and the field
 * entries, then Chaitin-style simplification onto a stack, colouring as the
 * stack is popped, a register for every local without a node, and the new
 * descriptors written into the method's var table. With minimisation on, a
 * failed attempt is retried with one more register.
 *
 * The hash maps are modelled as sequences in their iteration order: the
 * node map in node order, the colours in ascending register order.
 */
module Coloring {
  import opened Wrappers
  import opened Ollir
  import opened Liveness
  import opened Interference

  // ---------------------------------------------------------------------
  // Steps 1 to 3: the fixed registers
  // ---------------------------------------------------------------------

  /** The new var table being built, the base register count and the next register to hand out. */
  datatype Fixed = Fixed(table: VarTable, base: int, next: int)

  /** Step 1: an instance method reserves register 0, for `this` when the table has it. */
  function FirstStep(vt: VarTable, isStatic: bool): Fixed {
    if isStatic then Fixed([], 0, 0)
    else if Lookup(vt, "this").Some? then Fixed([VarEntry("this", Descriptor(Local, 0, Lookup(vt, "this").value.varType))], 1, 1)
    else Fixed([], 1, 1)
  }

  /**
   * Steps 2 and 3: the entries of one scope, in table order, get consecutive
   * registers from `f.next`; parameters also count towards the base.
   */
  function Numbered(vt: VarTable, scope: VarScope, counts: bool, f: Fixed): Fixed
    decreases |vt|
  {
    if |vt| == 0 then f
    else
      var g := Numbered(vt[..|vt| - 1], scope, counts, f);
      var e := vt[|vt| - 1];
      if e.desc.scope == scope then
        Fixed(Put(g.table, e.name, Descriptor(scope, g.next, e.desc.varType)), if counts then g.base + 1 else g.base, g.next + 1)
      else g
  }

  function FixedRegisters(vt: VarTable, isStatic: bool): Fixed {
    Numbered(vt, Field, false, Numbered(vt, Parameter, true, FirstStep(vt, isStatic)))
  }

  /** The number of entries of a scope. */
  function Count(vt: VarTable, scope: VarScope): nat
    decreases |vt|
  {
    if |vt| == 0 then 0
    else Count(vt[..|vt| - 1], scope) + (if vt[|vt| - 1].desc.scope == scope then 1 else 0)
  }

  /** No entry of the table carries that name with that scope. */
  predicate NotOf(vt: VarTable, scope: VarScope, n: string) {
    forall i :: 0 <= i < |vt| && vt[i].name == n ==> vt[i].desc.scope != scope
  }

  /** Numbering a scope moves the next register on by the entries of that scope, and the base too for parameters. */
  lemma {:induction false} NumberedCounts(vt: VarTable, scope: VarScope, counts: bool, f: Fixed)
    ensures Numbered(vt, scope, counts, f).next == f.next + Count(vt, scope)
    ensures Numbered(vt, scope, counts, f).base == f.base + (if counts then Count(vt, scope) else 0)
    decreases |vt|
  {
    if |vt| > 0 {
      NumberedCounts(vt[..|vt| - 1], scope, counts, f);
    }
  }

  /** A name no entry of the scope carries keeps what it had in the new table. */
  lemma {:induction false} NumberedKeeps(vt: VarTable, scope: VarScope, counts: bool, f: Fixed, n: string)
    requires NotOf(vt, scope, n)
    ensures Lookup(Numbered(vt, scope, counts, f).table, n) == Lookup(f.table, n)
    decreases |vt|
  {
    if |vt| > 0 {
      var front := vt[..|vt| - 1];
      assert forall i :: 0 <= i < |front| ==> front[i] == vt[i];
      NumberedKeeps(front, scope, counts, f, n);
    }
  }

  /**
   * After numbering a scope, the i-th entry of that scope carries the
   * register `f.next` plus the number of entries of the scope before it.
   */
  lemma {:induction false} NumberedAt(vt: VarTable, scope: VarScope, counts: bool, f: Fixed, i: nat)
    requires DistinctNames(vt) && i < |vt| && vt[i].desc.scope == scope
    ensures Lookup(Numbered(vt, scope, counts, f).table, vt[i].name) == Some(Descriptor(scope, f.next + Count(vt[..i], scope), vt[i].desc.varType))
    decreases |vt|
  {
    if i == |vt| - 1 {
      NumberedAtLast(vt, scope, counts, f);
    } else {
      var front := vt[..|vt| - 1];
      DistinctFront(vt);
      assert front[..i] == vt[..i];
      NumberedAt(front, scope, counts, f, i);
      NumberedLastKeeps(vt, scope, counts, f, vt[i].name);
    }
  }

  /** The last entry, when of the scope, gets the register after those of the entries before it. */
  lemma NumberedAtLast(vt: VarTable, scope: VarScope, counts: bool, f: Fixed)
    requires |vt| > 0 && vt[|vt| - 1].desc.scope == scope
    ensures var e := vt[|vt| - 1];
      Lookup(Numbered(vt, scope, counts, f).table, e.name) == Some(Descriptor(scope, f.next + Count(vt[..|vt| - 1], scope), e.desc.varType))
  {
    var front, e := vt[..|vt| - 1], vt[|vt| - 1];
    var g := Numbered(front, scope, counts, f);
    NumberedLastPut(vt, scope, counts, f);
    NumberedCounts(front, scope, counts, f);
    PutLookup(g.table, e.name, Descriptor(scope, g.next, e.desc.varType));
  }

  /** A last entry of the scope is put into the table numbered so far, with the next register. */
  lemma NumberedLastPut(vt: VarTable, scope: VarScope, counts: bool, f: Fixed)
    requires |vt| > 0 && vt[|vt| - 1].desc.scope == scope
    ensures var g, e := Numbered(vt[..|vt| - 1], scope, counts, f), vt[|vt| - 1];
      Numbered(vt, scope, counts, f).table == Put(g.table, e.name, Descriptor(scope, g.next, e.desc.varType))
  {
  }

  /** Dropping the last entry of a table with distinct names leaves distinct names, none of them the last one's. */
  lemma DistinctFront(vt: VarTable)
    requires DistinctNames(vt) && |vt| > 0
    ensures DistinctNames(vt[..|vt| - 1])
    ensures forall i :: 0 <= i < |vt| - 1 ==> vt[i].name != vt[|vt| - 1].name
  {
  }

  /** Numbering the last entry changes nothing under the other names. */
  lemma NumberedLastKeeps(vt: VarTable, scope: VarScope, counts: bool, f: Fixed, n: string)
    requires |vt| > 0 && n != vt[|vt| - 1].name
    ensures Lookup(Numbered(vt, scope, counts, f).table, n) == Lookup(Numbered(vt[..|vt| - 1], scope, counts, f).table, n)
  {
  }

  /**
   * The fixed registers, counted: the base covers `this` (in an instance
   * method) and the parameters but not the field entries, which follow the
   * parameters.
   */
  lemma FixedCounts(vt: VarTable, isStatic: bool)
    ensures FixedRegisters(vt, isStatic).base == (if isStatic then 0 else 1) + Count(vt, Parameter)
    ensures FixedRegisters(vt, isStatic).next == FixedRegisters(vt, isStatic).base + Count(vt, Field)
  {
    var s := FirstStep(vt, isStatic);
    NumberedCounts(vt, Parameter, true, s);
    NumberedCounts(vt, Field, false, Numbered(vt, Parameter, true, s));
  }

  /** The parameters get consecutive registers in table order, from 0 in a static method and from 1 otherwise. */
  lemma FixedParameter(vt: VarTable, isStatic: bool, i: nat)
    requires DistinctNames(vt) && i < |vt| && vt[i].desc.scope == Parameter
    ensures var s := FirstStep(vt, isStatic);
      Lookup(FixedRegisters(vt, isStatic).table, vt[i].name) == Some(Descriptor(Parameter, s.next + Count(vt[..i], Parameter), vt[i].desc.varType))
  {
    var s := FirstStep(vt, isStatic);
    var p := Numbered(vt, Parameter, true, s);
    NumberedAt(vt, Parameter, true, s, i);
    forall j | 0 <= j < |vt| && vt[j].name == vt[i].name ensures vt[j].desc.scope != Field {
      assert j == i;
    }
    NumberedKeeps(vt, Field, false, p, vt[i].name);
  }

  /** The field entries get consecutive registers in table order, right after the parameters. */
  lemma FixedField(vt: VarTable, isStatic: bool, i: nat)
    requires DistinctNames(vt) && i < |vt| && vt[i].desc.scope == Field
    ensures Lookup(FixedRegisters(vt, isStatic).table, vt[i].name) == Some(Descriptor(Field, FixedRegisters(vt, isStatic).base + Count(vt[..i], Field), vt[i].desc.varType))
  {
    var p := Numbered(vt, Parameter, true, FirstStep(vt, isStatic));
    var f := Numbered(vt, Field, false, p);
    assert FixedRegisters(vt, isStatic) == f;
    NumberedCounts(vt, Parameter, true, FirstStep(vt, isStatic));
    NumberedCounts(vt, Field, false, p);
    NumberedAt(vt, Field, false, p, i);
    assert f.base == p.base == p.next;
  }

  /** In an instance method whose table has a local `this`, `this` is in register 0. */
  lemma FixedThis(vt: VarTable)
    requires DistinctNames(vt) && Lookup(vt, "this").Some? && Lookup(vt, "this").value.scope == Local
    ensures Lookup(FixedRegisters(vt, false).table, "this") == Some(Descriptor(Local, 0, Lookup(vt, "this").value.varType))
  {
    var s := FirstStep(vt, false);
    var p := Numbered(vt, Parameter, true, s);
    var i :| 0 <= i < |vt| && vt[i].name == "this" && vt[i].desc == Lookup(vt, "this").value;
    forall j | 0 <= j < |vt| && vt[j].name == "this" ensures vt[j].desc.scope == Local {
      assert j == i;
    }
    NumberedKeeps(vt, Parameter, true, s, "this");
    NumberedKeeps(vt, Field, false, p, "this");
  }

  /** Nothing but `this`, the parameters and the field entries enters the table before colouring. */
  lemma FixedOnly(vt: VarTable, isStatic: bool, n: string)
    requires DistinctNames(vt) && Lookup(FixedRegisters(vt, isStatic).table, n).Some? && n != "this"
    ensures Lookup(vt, n).Some? && Lookup(vt, n).value.scope != Local
  {
    var s := FirstStep(vt, isStatic);
    var p := Numbered(vt, Parameter, true, s);
    assert Lookup(s.table, n).None?;
    if NotOf(vt, Field, n) && NotOf(vt, Parameter, n) {
      NumberedKeeps(vt, Parameter, true, s, n);
      NumberedKeeps(vt, Field, false, p, n);
    } else if !NotOf(vt, Field, n) {
      var i :| 0 <= i < |vt| && vt[i].name == n && vt[i].desc.scope == Field;
      LookupAt(vt, i);
    } else {
      var i :| 0 <= i < |vt| && vt[i].name == n && vt[i].desc.scope == Parameter;
      LookupAt(vt, i);
    }
  }

  /** Steps 1 to 3 as the source runs them, three loops over the var table. */
  method AssignFixed(vt: VarTable, isStatic: bool) returns (f: Fixed)
    ensures f == FixedRegisters(vt, isStatic)
  {
    f := Fixed([], 0, 0);
    if !isStatic {
      var i := 0;
      var found := false;
      while i < |vt| && !found
        invariant 0 <= i <= |vt|
        invariant !found ==> f == Fixed([], 0, 0) && forall j :: 0 <= j < i ==> vt[j].name != "this"
        invariant found ==> Lookup(vt, "this").Some? && f == Fixed([VarEntry("this", Descriptor(Local, 0, Lookup(vt, "this").value.varType))], 0, 0)
      {
        if vt[i].name == "this" {
          f := Fixed([VarEntry("this", Descriptor(Local, 0, Lookup(vt, "this").value.varType))], 0, 0);
          found := true;
        }
        i := i + 1;
      }
      f := f.(base := f.base + 1);
    }
    f := f.(next := if isStatic then 0 else 1);
    assert f == FirstStep(vt, isStatic);
    f := NumberScope(vt, Parameter, true, f);
    f := NumberScope(vt, Field, false, f);
  }

  /** One of the loops of steps 2 and 3. */
  method NumberScope(vt: VarTable, scope: VarScope, counts: bool, start: Fixed) returns (f: Fixed)
    ensures f == Numbered(vt, scope, counts, start)
  {
    f := start;
    var i := 0;
    while i < |vt|
      invariant 0 <= i <= |vt| && f == Numbered(vt[..i], scope, counts, start)
    {
      assert vt[..i + 1][..i] == vt[..i];
      var e := vt[i];
      if e.desc.scope == scope {
        f := Fixed(Put(f.table, e.name, Descriptor(scope, f.next, e.desc.varType)), if counts then f.base + 1 else f.base, f.next + 1);
      }
      i := i + 1;
    }
    assert vt[..i] == vt;
  }

  // ---------------------------------------------------------------------
  // Step 5, first half: simplification
  // ---------------------------------------------------------------------

  /** A node the allocator colours: its name is a LOCAL entry of the var table other than `this`. */
  predicate Eligible(vt: VarTable, id: string) {
    Lookup(vt, id).Some? && Lookup(vt, id).value.scope == Local && id != "this"
  }

  /** `node.getColoredNeighbours().size()`. */
  function Degree(nodes: seq<Node>, v: nat): nat
    requires v < |nodes|
  {
    |Colored(nodes, nodes[v].edges)|
  }

  /** The graph's changing part: the nodes with their colour marks, which of them the map holds, and the stack. */
  datatype Work = Work(nodes: seq<Node>, present: seq<bool>, stack: seq<nat>)

  /** The stack holds positions of nodes. */
  predicate StackIn(w: Work) {
    forall i :: 0 <= i < |w.stack| ==> w.stack[i] < |w.nodes|
  }

  /** Only the colour marks differ. */
  ghost predicate Recoloured(a: seq<Node>, b: seq<Node>) {
    |a| == |b| && forall v :: 0 <= v < |a| ==> b[v] == a[v].(hasColor := b[v].hasColor)
  }

  /** The test of one turn of the inner simplification loop. */
  predicate Removable(vt: VarTable, colours: nat, w: Work, v: nat)
    requires v < |w.nodes| && |w.present| == |w.nodes|
  {
    w.present[v] && Eligible(vt, w.nodes[v].id) && Degree(w.nodes, v) < colours
  }

  /** The number of nodes the map holds. */
  function Trues(s: seq<bool>): nat
    decreases |s|
  {
    if |s| == 0 then 0 else Trues(s[..|s| - 1]) + (if s[|s| - 1] then 1 else 0)
  }

  lemma {:induction false} TruesDrop(s: seq<bool>, v: nat)
    requires v < |s| && s[v]
    ensures Trues(s[v := false]) + 1 == Trues(s)
    decreases |s|
  {
    var t := s[v := false];
    if v == |s| - 1 {
      assert t[..|t| - 1] == s[..|s| - 1];
    } else {
      assert t[..|t| - 1] == s[..|s| - 1][v := false];
      TruesDrop(s[..|s| - 1], v);
    }
  }

  /**
   * One sweep of the simplification loop over the map from position `v`:
   * every node it holds whose name is eligible and which has fewer coloured
   * neighbours than there are colours loses its colour mark, goes on the
   * stack and leaves the map; the flag says whether any node did.
   */
  function Sweep(vt: VarTable, colours: nat, w: Work, v: nat, removed: bool): (r: (Work, bool))
    requires |w.present| == |w.nodes| && v <= |w.nodes|
    ensures |r.0.present| == |r.0.nodes| && Recoloured(w.nodes, r.0.nodes)
    ensures |r.0.stack| >= |w.stack| && (r.1 <==> removed || |r.0.stack| > |w.stack|)
    ensures |r.0.stack| == |w.stack| ==> r.0 == w
    ensures Trues(r.0.present) + |r.0.stack| == Trues(w.present) + |w.stack|
    decreases |w.nodes| - v
  {
    if v == |w.nodes| then (w, removed)
    else if Removable(vt, colours, w, v) then
      TruesDrop(w.present, v);
      Sweep(vt, colours, Work(w.nodes[v := w.nodes[v].(hasColor := false)], w.present[v := false], w.stack + [v]), v + 1, true)
    else Sweep(vt, colours, w, v + 1, removed)
  }

  /** One turn of a sweep. */
  lemma SweepAt(vt: VarTable, colours: nat, w: Work, v: nat, removed: bool)
    requires |w.present| == |w.nodes| && v < |w.nodes|
    ensures Sweep(vt, colours, w, v, removed) ==
      if Removable(vt, colours, w, v)
      then Sweep(vt, colours, Work(w.nodes[v := w.nodes[v].(hasColor := false)], w.present[v := false], w.stack + [v]), v + 1, true)
      else Sweep(vt, colours, w, v + 1, removed)
  {
  }

  /** The do-while loop: sweeps until one removes nothing. */
  function Simplify(vt: VarTable, colours: nat, w: Work): (r: Work)
    requires |w.present| == |w.nodes|
    ensures |r.present| == |r.nodes| && Recoloured(w.nodes, r.nodes)
    decreases Trues(w.present)
  {
    var s := Sweep(vt, colours, w, 0, false);
    if s.1 then Simplify(vt, colours, s.0) else s.0
  }

  /** The stack holds positions of nodes after a sweep. */
  lemma {:induction false} SweepStackIn(vt: VarTable, colours: nat, w: Work, v: nat, removed: bool)
    requires |w.present| == |w.nodes| && v <= |w.nodes| && StackIn(w)
    ensures StackIn(Sweep(vt, colours, w, v, removed).0)
    decreases |w.nodes| - v
  {
    if v < |w.nodes| {
      if Removable(vt, colours, w, v) {
        SweepStackIn(vt, colours, Work(w.nodes[v := w.nodes[v].(hasColor := false)], w.present[v := false], w.stack + [v]), v + 1, true);
      } else {
        SweepStackIn(vt, colours, w, v + 1, removed);
      }
    }
  }

  /** The stack holds positions of nodes after simplification. */
  lemma {:induction false} SimplifyStackIn(vt: VarTable, colours: nat, w: Work)
    requires |w.present| == |w.nodes| && StackIn(w)
    ensures StackIn(Simplify(vt, colours, w))
    decreases Trues(w.present)
  {
    var s := Sweep(vt, colours, w, 0, false);
    SweepStackIn(vt, colours, w, 0, false);
    if s.1 {
      SimplifyStackIn(vt, colours, s.0);
    }
  }

  /** A sweep that removes nothing found no removable node. */
  lemma {:induction false} SweepQuiet(vt: VarTable, colours: nat, w: Work, v: nat)
    requires |w.present| == |w.nodes| && v <= |w.nodes| && !Sweep(vt, colours, w, v, false).1
    ensures forall u :: v <= u < |w.nodes| ==> !Removable(vt, colours, w, u)
    decreases |w.nodes| - v
  {
    if v < |w.nodes| {
      SweepQuiet(vt, colours, w, v + 1);
    }
  }

  ghost predicate Settled(vt: VarTable, colours: nat, w: Work)
    requires |w.present| == |w.nodes|
  {
    forall v :: 0 <= v < |w.nodes| && w.present[v] && Eligible(vt, w.nodes[v].id) ==> Degree(w.nodes, v) >= colours
  }

  /**
   * When simplification stops, every node the map still holds that the
   * allocator colours has at least as many coloured neighbours as there are
   * colours.
   */
  lemma {:induction false} SimplifyStops(vt: VarTable, colours: nat, w: Work)
    requires |w.present| == |w.nodes|
    ensures Settled(vt, colours, Simplify(vt, colours, w))
    decreases Trues(w.present)
  {
    var s := Sweep(vt, colours, w, 0, false);
    if s.1 {
      assert Simplify(vt, colours, w) == Simplify(vt, colours, s.0);
      SimplifyStops(vt, colours, s.0);
    } else {
      assert Simplify(vt, colours, w) == w;
      SweepQuiet(vt, colours, w, 0);
      forall v | 0 <= v < |w.nodes| && w.present[v] && Eligible(vt, w.nodes[v].id) ensures Degree(w.nodes, v) >= colours {
        assert !Removable(vt, colours, w, v);
      }
      assert Settled(vt, colours, w);
    }
  }

  /** The check after simplification: the map still holds a node the allocator colours. */
  predicate Uncolourable(vt: VarTable, nodes: seq<Node>, present: seq<bool>)
    requires |present| == |nodes|
  {
    exists v :: 0 <= v < |nodes| && present[v] && Eligible(vt, nodes[v].id)
  }

  /** Edge lists increase strictly and point inside the graph. */
  ghost predicate EdgesBounded(nodes: seq<Node>) {
    forall v :: 0 <= v < |nodes| ==>
      (forall p, q :: 0 <= p < q < |nodes[v].edges| ==> nodes[v].edges[p] < nodes[v].edges[q]) &&
      (forall p :: 0 <= p < |nodes[v].edges| ==> nodes[v].edges[p] < |nodes|)
  }

  lemma {:induction false} AscendingBound(es: seq<nat>, b: nat)
    requires forall p, q :: 0 <= p < q < |es| ==> es[p] < es[q]
    requires forall p :: 0 <= p < |es| ==> es[p] < b
    ensures |es| <= b
    decreases |es|
  {
    if |es| > 0 {
      var last := es[|es| - 1];
      AscendingBound(es[..|es| - 1], last);
    }
  }

  /** The longest edge list. */
  function EdgeBound(nodes: seq<Node>): nat
    decreases |nodes|
  {
    if |nodes| == 0 then 0
    else
      var b := EdgeBound(nodes[..|nodes| - 1]);
      if |nodes[|nodes| - 1].edges| > b then |nodes[|nodes| - 1].edges| else b
  }

  lemma {:induction false} EdgeBoundAt(nodes: seq<Node>, v: nat)
    requires v < |nodes|
    ensures |nodes[v].edges| <= EdgeBound(nodes)
    decreases |nodes|
  {
    if v < |nodes| - 1 {
      assert nodes[..|nodes| - 1][v] == nodes[v];
      EdgeBoundAt(nodes[..|nodes| - 1], v);
    }
  }

  lemma {:induction false} RecolouredEdgeBound(a: seq<Node>, b: seq<Node>)
    requires Recoloured(a, b)
    ensures EdgeBound(a) == EdgeBound(b)
    decreases |a|
  {
    if |a| > 0 {
      var a', b' := a[..|a| - 1], b[..|b| - 1];
      assert Recoloured(a', b') by {
        forall v | 0 <= v < |a'| ensures b'[v] == a'[v].(hasColor := b'[v].hasColor) {
          assert a'[v] == a[v] && b'[v] == b[v];
        }
      }
      RecolouredEdgeBound(a', b');
      assert b[|b| - 1] == a[|a| - 1].(hasColor := b[|b| - 1].hasColor);
    }
  }

  /** No edge list of a graph whose edges are increasing positions in it is longer than the graph. */
  lemma EdgeBoundNodes(nodes: seq<Node>)
    requires EdgesBounded(nodes)
    ensures EdgeBound(nodes) <= |nodes|
  {
    if |nodes| > 0 {
      var v := EdgeWitness(nodes);
      var es := nodes[v].edges;
      assert forall p, q :: 0 <= p < q < |es| ==> es[p] < es[q];
      assert forall p :: 0 <= p < |es| ==> es[p] < |nodes|;
      AscendingBound(es, |nodes|);
    }
  }

  /** A node whose edge list is the longest one. */
  lemma {:induction false} EdgeWitness(nodes: seq<Node>) returns (v: nat)
    requires |nodes| > 0
    ensures v < |nodes| && |nodes[v].edges| == EdgeBound(nodes)
    decreases |nodes|
  {
    var front := nodes[..|nodes| - 1];
    if |front| > 0 && EdgeBound(front) >= |nodes[|nodes| - 1].edges| {
      v := EdgeWitness(front);
      assert front[v] == nodes[v];
    } else {
      v := |nodes| - 1;
    }
  }

  /**
   * A failed attempt had no more colours than the longest edge list, which
   * bounds the retries of minimisation: with more colours than that every
   * node the allocator colours is simplified.
   */
  lemma StuckBound(vt: VarTable, colours: nat, w: Work)
    requires |w.present| == |w.nodes|
    requires Uncolourable(vt, Simplify(vt, colours, w).nodes, Simplify(vt, colours, w).present)
    ensures colours <= EdgeBound(w.nodes)
  {
    var r := Simplify(vt, colours, w);
    SimplifyStops(vt, colours, w);
    assert Settled(vt, colours, r);
    var v :| 0 <= v < |r.nodes| && r.present[v] && Eligible(vt, r.nodes[v].id);
    assert r.nodes[v].edges == w.nodes[v].edges;
    assert Degree(r.nodes, v) <= |w.nodes[v].edges|;
    EdgeBoundAt(w.nodes, v);
  }

  /** One sweep, as the source's iterator loop over the node map; the marks it sets are written back to the graph as the sweep ends. */
  method SweepGraph(g: InterferenceGraph, vt: VarTable, colours: nat, stack0: seq<nat>) returns (stack: seq<nat>, removal: bool)
    requires |g.present| == |g.nodes|
    modifies g`nodes, g`present
    ensures (Work(g.nodes, g.present, stack), removal) == Sweep(vt, colours, Work(old(g.nodes), old(g.present), stack0), 0, false)
  {
    ghost var goal := Sweep(vt, colours, Work(g.nodes, g.present, stack0), 0, false);
    var nodes, present := g.nodes, g.present;
    stack := stack0;
    removal := false;
    var v: nat := 0;
    while v < |nodes|
      invariant v <= |nodes| && |present| == |nodes|
      invariant Sweep(vt, colours, Work(nodes, present, stack), v, removal) == goal
    {
      SweepAt(vt, colours, Work(nodes, present, stack), v, removal);
      if present[v] && Eligible(vt, nodes[v].id) {
        var neighbours := ColoredNeighbours(nodes, v);
        if |neighbours| < colours {
          nodes := nodes[v := nodes[v].(hasColor := false)];
          stack := stack + [v];
          present := present[v := false];
          removal := true;
        }
      }
      v := v + 1;
    }
    g.nodes, g.present := nodes, present;
  }

  /** The simplification do-while loop. */
  method SimplifyGraph(g: InterferenceGraph, vt: VarTable, colours: nat) returns (stack: seq<nat>)
    requires |g.present| == |g.nodes|
    modifies g`nodes, g`present
    ensures Work(g.nodes, g.present, stack) == Simplify(vt, colours, Work(old(g.nodes), old(g.present), []))
  {
    ghost var goal := Simplify(vt, colours, Work(g.nodes, g.present, []));
    var removal;
    stack, removal := SweepGraph(g, vt, colours, []);
    while removal
      invariant |g.present| == |g.nodes|
      invariant goal == if removal then Simplify(vt, colours, Work(g.nodes, g.present, stack)) else Work(g.nodes, g.present, stack)
      decreases Trues(g.present) + (if removal then 1 else 0)
    {
      stack, removal := SweepGraph(g, vt, colours, stack);
    }
  }

  /** The loop that looks for a node left in the map. */
  method FindUncolourable(g: InterferenceGraph, vt: VarTable) returns (found: bool)
    requires |g.present| == |g.nodes|
    ensures found == Uncolourable(vt, g.nodes, g.present)
  {
    found := false;
    var v := 0;
    while v < |g.nodes|
      invariant v <= |g.nodes|
      invariant found <==> exists u :: 0 <= u < v && g.present[u] && Eligible(vt, g.nodes[u].id)
    {
      if g.present[v] && Eligible(vt, g.nodes[v].id) {
        found := true;
      }
      v := v + 1;
    }
  }

  // ---------------------------------------------------------------------
  // Step 5, second half: colouring as the stack is popped
  // ---------------------------------------------------------------------

  /** A colour is taken for `v` when its list holds the name of a coloured neighbour of `v`. */
  predicate Blocked(nodes: seq<Node>, v: nat, list: seq<string>)
    requires v < |nodes|
  {
    exists u :: u in Colored(nodes, nodes[v].edges) && nodes[u].id in list
  }

  /** The first colour from `c` on that is not taken for `v`. */
  function FreeFrom(nodes: seq<Node>, v: nat, lists: seq<seq<string>>, c: nat): (r: Option<nat>)
    requires v < |nodes| && c <= |lists|
    ensures r.Some? ==> c <= r.value < |lists| && !Blocked(nodes, v, lists[r.value])
    ensures r.Some? ==> forall d :: c <= d < r.value ==> Blocked(nodes, v, lists[d])
    ensures r.None? ==> forall d :: c <= d < |lists| ==> Blocked(nodes, v, lists[d])
    decreases |lists| - c
  {
    if c == |lists| then None
    else if !Blocked(nodes, v, lists[c]) then Some(c)
    else FreeFrom(nodes, v, lists, c + 1)
  }

  /**
   * The colouring loop's state: the nodes, the map, the stack, the names in
   * each colour (colour `c` is register `first + c`) and the new var table.
   */
  datatype Phase = Phase(nodes: seq<Node>, present: seq<bool>, stack: seq<nat>, lists: seq<seq<string>>, table: VarTable)

  predicate PhaseOk(p: Phase) {
    |p.present| == |p.nodes| && forall i :: 0 <= i < |p.stack| ==> p.stack[i] < |p.nodes|
  }

  /** The work left: two per node on the stack, one less while the last colour is a fresh empty one. */
  function Pending(p: Phase): nat {
    2 * |p.stack| + (if |p.lists| > 0 && p.lists[|p.lists| - 1] == [] then 0 else 1)
  }

  datatype Turn = Next(p: Phase) | Stop(p: Phase)

  /**
   * One turn of the colouring loop: the top node gets its colour mark back
   * and returns to the map; if the allocator colours it, it takes the first
   * colour none of its coloured neighbours has. With none free, minimisation
   * adds a register and pushes the node again; otherwise allocation stops.
   */
  function Pop(vt: VarTable, first: int, minimize: bool, p: Phase): (r: Turn)
    requires PhaseOk(p) && |p.stack| > 0
    ensures PhaseOk(r.p) && (r.Next? ==> Pending(r.p) < Pending(p))
  {
    var v := p.stack[|p.stack| - 1];
    var rest := p.stack[..|p.stack| - 1];
    var nodes := p.nodes[v := p.nodes[v].(hasColor := true)];
    var present := p.present[v := true];
    var id := nodes[v].id;
    if !Eligible(vt, id) then Next(Phase(nodes, present, rest, p.lists, p.table))
    else match FreeFrom(nodes, v, p.lists, 0)
      case Some(c) =>
        Next(Phase(nodes, present, rest, p.lists[c := p.lists[c] + [id]], Put(p.table, id, Descriptor(Local, first + c, Lookup(vt, id).value.varType))))
      case None =>
        assert |p.lists| > 0 ==> Blocked(nodes, v, p.lists[|p.lists| - 1]);
        if minimize then Next(Phase(nodes, present, rest + [v], p.lists + [[]], p.table))
        else Stop(Phase(nodes, present, rest, p.lists, p.table))
  }

  datatype Outcome = Finished(p: Phase) | Stuck(p: Phase)

  /** The colouring loop, until the stack is empty or allocation stops. */
  function ColorPhase(vt: VarTable, first: int, minimize: bool, p: Phase): (r: Outcome)
    requires PhaseOk(p)
    ensures PhaseOk(r.p)
    decreases Pending(p)
  {
    if |p.stack| == 0 then Finished(p)
    else match Pop(vt, first, minimize, p)
      case Next(q) => ColorPhase(vt, first, minimize, q)
      case Stop(q) => Stuck(q)
  }

  /** The loop over the coloured neighbours for one colour. */
  method IsBlocked(nodes: seq<Node>, v: nat, list: seq<string>) returns (b: bool)
    requires v < |nodes|
    ensures b == Blocked(nodes, v, list)
  {
    var neighbours := ColoredNeighbours(nodes, v);
    assert forall j :: 0 <= j < |neighbours| ==> neighbours[j] in neighbours;
    b := false;
    var i := 0;
    while i < |neighbours| && !b
      invariant 0 <= i <= |neighbours|
      invariant forall j :: 0 <= j < |neighbours| ==> neighbours[j] < |nodes|
      invariant b <==> exists j :: 0 <= j < i && nodes[neighbours[j]].id in list
    {
      if nodes[neighbours[i]].id in list {
        b := true;
      }
      i := i + 1;
    }
    if b {
      var j :| 0 <= j < i && nodes[neighbours[j]].id in list;
      assert neighbours[j] in neighbours;
    } else {
      forall u | u in neighbours ensures nodes[u].id !in list {
        var j :| 0 <= j < |neighbours| && neighbours[j] == u;
      }
    }
  }

  /** The loop over the colours in ascending register order. */
  method FreeColour(nodes: seq<Node>, v: nat, lists: seq<seq<string>>) returns (r: Option<nat>)
    requires v < |nodes|
    ensures r == FreeFrom(nodes, v, lists, 0)
  {
    var c := 0;
    while c < |lists|
      invariant 0 <= c <= |lists| && FreeFrom(nodes, v, lists, c) == FreeFrom(nodes, v, lists, 0)
    {
      var b := IsBlocked(nodes, v, lists[c]);
      if !b {
        return Some(c);
      }
      c := c + 1;
    }
    return None;
  }

  /** The colouring loop over the graph; `ok` is false where the source returns. */
  method ColorNodes(g: InterferenceGraph, vt: VarTable, first: int, minimize: bool, stack0: seq<nat>, lists0: seq<seq<string>>, table0: VarTable)
    returns (ok: bool, lists: seq<seq<string>>, table: VarTable)
    requires PhaseOk(Phase(g.nodes, g.present, stack0, lists0, table0))
    modifies g`nodes, g`present
    ensures var o := ColorPhase(vt, first, minimize, Phase(old(g.nodes), old(g.present), stack0, lists0, table0));
      ok == o.Finished? && g.nodes == o.p.nodes && g.present == o.p.present && (ok ==> lists == o.p.lists && table == o.p.table)
  {
    ghost var goal := ColorPhase(vt, first, minimize, Phase(g.nodes, g.present, stack0, lists0, table0));
    var stack := stack0;
    lists, table := lists0, table0;
    while |stack| > 0
      invariant PhaseOk(Phase(g.nodes, g.present, stack, lists, table))
      invariant ColorPhase(vt, first, minimize, Phase(g.nodes, g.present, stack, lists, table)) == goal
      decreases Pending(Phase(g.nodes, g.present, stack, lists, table))
    {
      var next;
      next, stack, lists, table := PopNode(g, vt, first, minimize, stack, lists, table);
      if !next {
        return false, lists, table;
      }
    }
    return true, lists, table;
  }

  /** One turn of the colouring loop; `next` is false where the source returns. */
  method PopNode(g: InterferenceGraph, vt: VarTable, first: int, minimize: bool, stack0: seq<nat>, lists0: seq<seq<string>>, table0: VarTable)
    returns (next: bool, stack: seq<nat>, lists: seq<seq<string>>, table: VarTable)
    requires PhaseOk(Phase(g.nodes, g.present, stack0, lists0, table0)) && |stack0| > 0
    modifies g`nodes, g`present
    ensures var t := Pop(vt, first, minimize, Phase(old(g.nodes), old(g.present), stack0, lists0, table0));
      next == t.Next? && Phase(g.nodes, g.present, stack, lists, table) == t.p
  {
    stack, lists, table := stack0, lists0, table0;
    var v := stack[|stack| - 1];
    stack := stack[..|stack| - 1];
    g.nodes := g.nodes[v := g.nodes[v].(hasColor := true)];
    g.present := g.present[v := true];
    var id := g.nodes[v].id;
    next := true;
    if Eligible(vt, id) {
      var c := FreeColour(g.nodes, v, lists);
      if c.Some? {
        lists := lists[c.value := lists[c.value] + [id]];
        table := Put(table, id, Descriptor(Local, first + c.value, Lookup(vt, id).value.varType));
      } else if minimize {
        lists := lists + [[]];
        stack := stack + [v];
      } else {
        next := false;
      }
    }
  }

  // ---------------------------------------------------------------------
  // Step 6 and the write-back
  // ---------------------------------------------------------------------

  /**
   * Step 6 for one var table entry: a LOCAL other than `this` that colouring
   * left without a register gets the lowest colour, unchecked; with no
   * colour at all, minimisation adds the register after the last one and
   * otherwise allocation stops.
   */
  function Leftover(first: int, minimize: bool, e: VarEntry, lists: seq<seq<string>>, table: VarTable): Option<(seq<seq<string>>, VarTable)> {
    if e.desc.scope == Local && Lookup(table, e.name).None? && e.name != "this" then
      if |lists| > 0 then Some((lists[0 := lists[0] + [e.name]], Put(table, e.name, Descriptor(Local, first, e.desc.varType))))
      else if minimize then Some((lists + [[e.name]], Put(table, e.name, Descriptor(Local, first + |lists|, e.desc.varType))))
      else None
    else Some((lists, table))
  }

  /** Step 6 over the first `n` entries in table order. */
  function Leftovers(vt: VarTable, n: nat, first: int, minimize: bool, lists: seq<seq<string>>, table: VarTable): Option<(seq<seq<string>>, VarTable)>
    requires n <= |vt|
  {
    if n == 0 then Some((lists, table))
    else match Leftovers(vt, n - 1, first, minimize, lists, table)
      case None => None
      case Some(s) => Leftover(first, minimize, vt[n - 1], s.0, s.1)
  }

  method AssignLeftovers(vt: VarTable, first: int, minimize: bool, lists0: seq<seq<string>>, table0: VarTable)
    returns (ok: bool, lists: seq<seq<string>>, table: VarTable)
    ensures ok == Leftovers(vt, |vt|, first, minimize, lists0, table0).Some?
    ensures ok ==> Leftovers(vt, |vt|, first, minimize, lists0, table0) == Some((lists, table))
  {
    lists, table := lists0, table0;
    var i := 0;
    while i < |vt|
      invariant 0 <= i <= |vt| && Leftovers(vt, i, first, minimize, lists0, table0) == Some((lists, table))
    {
      var e := vt[i];
      if e.desc.scope == Local && Lookup(table, e.name).None? && e.name != "this" {
        if |lists| > 0 {
          lists := lists[0 := lists[0] + [e.name]];
          table := Put(table, e.name, Descriptor(Local, first, e.desc.varType));
        } else if minimize {
          var reg := first + |lists|;
          lists := lists + [[e.name]];
          table := Put(table, e.name, Descriptor(Local, reg, e.desc.varType));
        } else {
          assert Leftovers(vt, i + 1, first, minimize, lists0, table0).None?;
          LeftoversFail(vt, i + 1, |vt|, first, minimize, lists0, table0);
          return false, lists, table;
        }
      }
      i := i + 1;
    }
    return true, lists, table;
  }

  /** Once step 6 stops, it stays stopped. */
  lemma {:induction false} LeftoversFail(vt: VarTable, n: nat, m: nat, first: int, minimize: bool, lists: seq<seq<string>>, table: VarTable)
    requires n <= m <= |vt| && Leftovers(vt, n, first, minimize, lists, table).None?
    ensures Leftovers(vt, m, first, minimize, lists, table).None?
    decreases m
  {
    if m > n {
      LeftoversFail(vt, n, m - 1, first, minimize, lists, table);
    }
  }

  /** The write-back: every entry of the new table put into the var table, in its order. */
  function Commit(vt: VarTable, t: VarTable): VarTable
    decreases |t|
  {
    if |t| == 0 then vt else Commit(Put(vt, t[0].name, t[0].desc), t[1..])
  }

  method CommitTable(g: InterferenceGraph, t: VarTable)
    modifies g`varTable
    ensures g.varTable == Commit(old(g.varTable), t)
  {
    ghost var goal := Commit(g.varTable, t);
    var i := 0;
    while i < |t|
      invariant 0 <= i <= |t| && Commit(g.varTable, t[i..]) == goal
    {
      assert t[i..][1..] == t[i + 1..];
      g.varTable := Put(g.varTable, t[i].name, t[i].desc);
      i := i + 1;
    }
  }

  // ---------------------------------------------------------------------
  // The whole allocation
  // ---------------------------------------------------------------------

  /** What allocation leaves behind: the method's var table and the graph's map. */
  datatype Alloc = Alloc(varTable: VarTable, nodes: seq<Node>, present: seq<bool>)

  /** The retries left before the colours outnumber the longest edge list `b`. */
  function Retries(vt: VarTable, isStatic: bool, b: nat, k: int): int {
    b + FixedRegisters(vt, isStatic).next - FixedRegisters(vt, isStatic).base - k
  }

  /** One attempt ends with an allocation (or a var table left alone), or asks for a retry and leaves the graph as it is. */
  datatype Try = Done(alloc: Alloc) | Retry(nodes: seq<Node>, present: seq<bool>)

  /**
   * The first colour. The colours are the registers from the one after the
   * fixed ones up to base + k; when base + k is below that, there are none
   * and the registers minimisation adds start at base + k.
   */
  function First(f: Fixed, k: int): int {
    if f.next <= f.base + k then f.next else f.base + k
  }

  /** An attempt once simplification has left no node uncoloured: colouring, step 6 and the write-back. */
  function Finish(vt: VarTable, table: VarTable, first: int, minimize: bool, colours: nat, w: Work): Alloc
    requires |w.present| == |w.nodes| && StackIn(w)
  {
    match ColorPhase(vt, first, minimize, Phase(w.nodes, w.present, w.stack, seq(colours, _ => []), table))
    case Stuck(q) => Alloc(vt, q.nodes, q.present)
    case Finished(q) =>
      match Leftovers(vt, |vt|, first, minimize, q.lists, q.table)
      case None => Alloc(vt, q.nodes, q.present)
      case Some(s) => Alloc(Commit(vt, s.1), q.nodes, q.present)
  }

  /** One attempt of `compute(graph, k, minimize)`. */
  function Attempt(vt: VarTable, isStatic: bool, nodes: seq<Node>, present: seq<bool>, k: int, minimize: bool): (r: Try)
    requires |present| == |nodes|
    ensures r.Retry? ==> minimize && |r.present| == |r.nodes| && EdgeBound(r.nodes) == EdgeBound(nodes) && Retries(vt, isStatic, EdgeBound(nodes), k) >= 0
  {
    var f := FixedRegisters(vt, isStatic);
    var first := First(f, k);
    var w := Simplify(vt, f.base + k - first, Work(nodes, present, []));
    if Uncolourable(vt, w.nodes, w.present) then
      if minimize then
        StuckBound(vt, f.base + k - first, Work(nodes, present, []));
        RecolouredEdgeBound(nodes, w.nodes);
        Retry(w.nodes, w.present)
      else Done(Alloc(vt, w.nodes, w.present))
    else
      SimplifyStackIn(vt, f.base + k - first, Work(nodes, present, []));
      Done(Finish(vt, f.table, first, minimize, f.base + k - first, w))
  }

  /**
   * `compute(graph, k, minimize)`: a failed attempt with minimisation is
   * retried with k + 1, as written on the graph the failed simplification
   * left behind, repaired on the graph the attempt started from.
   */
  function Run(mode: Mode, vt: VarTable, isStatic: bool, nodes: seq<Node>, present: seq<bool>, k: int, minimize: bool): Alloc
    requires |present| == |nodes|
    decreases Retries(vt, isStatic, EdgeBound(nodes), k)
  {
    match Attempt(vt, isStatic, nodes, present, k, minimize)
    case Done(a) => a
    case Retry(n, p) =>
      if mode.AsWritten? then Run(mode, vt, isStatic, n, p, k + 1, true)
      else Run(mode, vt, isStatic, nodes, present, k + 1, true)
  }

  lemma RunRetry(mode: Mode, vt: VarTable, isStatic: bool, nodes: seq<Node>, present: seq<bool>, k: int, minimize: bool)
    requires |present| == |nodes|
    requires Attempt(vt, isStatic, nodes, present, k, minimize).Retry?
    ensures var t := Attempt(vt, isStatic, nodes, present, k, minimize);
      if mode.AsWritten? then Run(mode, vt, isStatic, nodes, present, k, minimize) == Run(mode, vt, isStatic, t.nodes, t.present, k + 1, true)
      else Run(mode, vt, isStatic, nodes, present, k, minimize) == Run(mode, vt, isStatic, nodes, present, k + 1, true)
  {
  }

  /** The attempt from `nodes0` failed and left the graph `nodes`. */
  predicate Retried(vt: VarTable, isStatic: bool, nodes0: seq<Node>, present0: seq<bool>, k: int, minimize: bool, nodes: seq<Node>, present: seq<bool>) {
    |present0| == |nodes0| &&
    var t := Attempt(vt, isStatic, nodes0, present0, k, minimize);
    t.Retry? && nodes == t.nodes && present == t.present
  }

  /** The graph a retry starts from has fewer retries left. */
  lemma RetryBound(mode: Mode, vt: VarTable, isStatic: bool, nodes0: seq<Node>, present0: seq<bool>, k: int, minimize: bool, nodes: seq<Node>, present: seq<bool>)
    requires |present0| == |nodes0|
    requires Attempt(vt, isStatic, nodes0, present0, k, minimize).Retry?
    requires if mode.AsWritten? then Retried(vt, isStatic, nodes0, present0, k, minimize, nodes, present) else nodes == nodes0 && present == present0
    ensures |present| == |nodes|
    ensures EdgeBound(nodes) == EdgeBound(nodes0) && Retries(vt, isStatic, EdgeBound(nodes0), k) >= 0
  {
  }

  /** The allocation of a retry is the failed attempt's. */
  lemma RetryStep(mode: Mode, vt: VarTable, isStatic: bool, nodes0: seq<Node>, present0: seq<bool>, k: int, minimize: bool, nodes: seq<Node>, present: seq<bool>)
    requires |present0| == |nodes0| && |present| == |nodes|
    requires Attempt(vt, isStatic, nodes0, present0, k, minimize).Retry?
    requires if mode.AsWritten? then Retried(vt, isStatic, nodes0, present0, k, minimize, nodes, present) else nodes == nodes0 && present == present0
    ensures Run(mode, vt, isStatic, nodes0, present0, k, minimize) == Run(mode, vt, isStatic, nodes, present, k + 1, true)
  {
    RunRetry(mode, vt, isStatic, nodes0, present0, k, minimize);
  }

  /** `GraphColoringAlgorithm.compute` over the graph object. */
  method Compute(mode: Mode, g: InterferenceGraph, k: int, minimize: bool)
    requires |g.present| == |g.nodes|
    modifies g
    ensures Alloc(g.varTable, g.nodes, g.present) == Run(mode, old(g.varTable), old(g.isStaticMethod), old(g.nodes), old(g.present), k, minimize)
    ensures g.isStaticMethod == old(g.isStaticMethod)
    decreases Retries(g.varTable, g.isStaticMethod, EdgeBound(g.nodes), k), 1
  {
    var nodes0, present0 := g.nodes, g.present;
    ghost var vt, isStatic := g.varTable, g.isStaticMethod;
    var retry := AttemptOnce(g, k, minimize);
    if retry {
      RetryCompute(mode, g, vt, isStatic, nodes0, present0, k, minimize);
    }
  }

  /** The recursive call of a failed attempt, on the graph it left behind or, repaired, on the one it started from. */
  method RetryCompute(mode: Mode, g: InterferenceGraph, ghost vt: VarTable, ghost isStatic: bool, nodes0: seq<Node>, present0: seq<bool>, k: int, minimize: bool)
    requires |present0| == |nodes0|
    requires Retried(vt, isStatic, nodes0, present0, k, minimize, g.nodes, g.present)
    requires g.varTable == vt && g.isStaticMethod == isStatic
    modifies g
    ensures Alloc(g.varTable, g.nodes, g.present) == Run(mode, vt, isStatic, nodes0, present0, k, minimize)
    ensures g.isStaticMethod == isStatic
    decreases Retries(vt, isStatic, EdgeBound(nodes0), k), 0
  {
    if mode.Repaired? {
      g.nodes, g.present := nodes0, present0;
    }
    ghost var nodes, present := g.nodes, g.present;
    RetryBound(mode, vt, isStatic, nodes0, present0, k, minimize, nodes, present);
    Compute(mode, g, k + 1, true);
    RetryStep(mode, vt, isStatic, nodes0, present0, k, minimize, nodes, present);
  }

  /** The graph object is in the state an attempt ends in. */
  predicate Reached(t: Try, vt: VarTable, retry: bool, a: Alloc) {
    retry == t.Retry? && if retry then a == Alloc(vt, t.nodes, t.present) else a == t.alloc
  }

  /** The body of `compute` up to the recursive call; `retry` is true where the source makes it. */
  method AttemptOnce(g: InterferenceGraph, k: int, minimize: bool) returns (retry: bool)
    requires |g.present| == |g.nodes|
    modifies g
    ensures g.isStaticMethod == old(g.isStaticMethod)
    ensures Reached(Attempt(old(g.varTable), old(g.isStaticMethod), old(g.nodes), old(g.present), k, minimize), old(g.varTable), retry, Alloc(g.varTable, g.nodes, g.present))
  {
    var vt := g.varTable;
    ghost var nodes0, present0 := g.nodes, g.present;
    var f := AssignFixed(vt, g.isStaticMethod);
    var first, lists := SetUpColours(f, k);
    var stack := SimplifyGraph(g, vt, |lists|);
    ghost var w := Work(g.nodes, g.present, stack);
    ghost var t := Attempt(vt, g.isStaticMethod, nodes0, present0, k, minimize);
    assert w == Simplify(vt, f.base + k - first, Work(nodes0, present0, []));
    var stuck := FindUncolourable(g, vt);
    if stuck {
      assert t == if minimize then Retry(w.nodes, w.present) else Done(Alloc(vt, w.nodes, w.present));
      return minimize;
    }
    SimplifyStackIn(vt, |lists|, Work(nodes0, present0, []));
    assert t == Done(Finish(vt, f.table, first, minimize, |lists|, w));
    FinishGraph(g, vt, f.table, first, minimize, stack, lists);
    return false;
  }

  /** Step 4 and the loop that fills the colour map. */
  method SetUpColours(f: Fixed, k: int) returns (first: int, lists: seq<seq<string>>)
    ensures first == First(f, k) && lists == seq(f.base + k - first, _ => [])
  {
    var total := f.base + k;
    first := if f.next <= total then f.next else total;
    lists := [];
    var r := first;
    while r < total
      invariant first <= r <= total && lists == seq(r - first, _ => [])
    {
      lists := lists + [[]];
      r := r + 1;
    }
  }

  /** Colouring, step 6 and the write-back over the graph object. */
  method FinishGraph(g: InterferenceGraph, vt: VarTable, table0: VarTable, first: int, minimize: bool, stack: seq<nat>, lists0: seq<seq<string>>)
    requires g.varTable == vt && |g.present| == |g.nodes| && StackIn(Work(g.nodes, g.present, stack)) && lists0 == seq(|lists0|, _ => [])
    modifies g
    ensures g.isStaticMethod == old(g.isStaticMethod)
    ensures Alloc(g.varTable, g.nodes, g.present) == Finish(vt, table0, first, minimize, |lists0|, Work(old(g.nodes), old(g.present), stack))
  {
    var ok, lists, table := ColorNodes(g, vt, first, minimize, stack, lists0, table0);
    if !ok {
      return;
    }
    ok, lists, table := AssignLeftovers(vt, first, minimize, lists, table);
    if !ok {
      return;
    }
    CommitTable(g, table);
  }
}
