/**
 * The interference graph the register allocator colours: one node per local
 * variable of a method, the half-open ranges of instruction ids over which
 * the variable is live, and an edge each way between two nodes whose ranges
 * overlap.
 *
 * A `Node` object is referenced by the edges of other nodes and by the
 * graph's map; here the nodes are a list in the map's iteration order and an
 * edge holds the position of its destination in that list. Whether a node
 * is still in the map is a flag of the graph, `present`.
 */
module Interference {
  import opened Wrappers
  import opened Ollir
  import opened Liveness

  /** A liveness range `[start, end)` of instruction ids. */
  datatype Range = Range(start: int, end: int)

  /** Two ranges overlap unless one ends at or before the other starts. */
  predicate Overlap(r1: Range, r2: Range) {
    !(r1.end <= r2.start || r1.start >= r2.end)
  }

  /** Some range of `a` overlaps some range of `b`. */
  predicate Intersects(a: seq<Range>, b: seq<Range>) {
    exists i, j :: 0 <= i < |a| && 0 <= j < |b| && Overlap(a[i], b[j])
  }

  /** Intersection does not depend on which node asks. */
  lemma IntersectsSymmetric(a: seq<Range>, b: seq<Range>)
    ensures Intersects(a, b) == Intersects(b, a)
  {
    if Intersects(a, b) {
      var i, j :| 0 <= i < |a| && 0 <= j < |b| && Overlap(a[i], b[j]);
      assert Overlap(b[j], a[i]);
    }
    if Intersects(b, a) {
      var j, i :| 0 <= j < |b| && 0 <= i < |a| && Overlap(b[j], a[i]);
      assert Overlap(a[i], b[j]);
    }
  }

  /** Ranges that only touch do not overlap, and a variable with no range interferes with nothing. */
  lemma TouchingAndEmpty(s: int, m: int, e: int, a: seq<Range>)
    requires s <= m <= e
    ensures !Overlap(Range(s, m), Range(m, e)) && !Overlap(Range(m, e), Range(s, m))
    ensures !Intersects([], a) && !Intersects(a, [])
  {
  }

  /** A range covers the id `k`. */
  predicate Covers(r: Range, k: int) {
    r.start <= k < r.end
  }

  /** Two ranges covering the same id overlap. */
  lemma CoverOverlap(r1: Range, r2: Range, k: int)
    requires Covers(r1, k) && Covers(r2, k)
    ensures Overlap(r1, r2)
  {
  }

  // ---- nodes ----

  /**
   * A node: the variable's name, its register before allocation, its edges
   * (positions of the destination nodes, in the order they were added),
   * whether it still counts as coloured, and its liveness ranges.
   */
  datatype Node = Node(id: string, virtualReg: int, edges: seq<nat>, hasColor: bool, ranges: seq<Range>)

  /** The destinations, in edge order, of the edges `es` whose node currently has a colour. */
  function Colored(nodes: seq<Node>, es: seq<nat>): (r: seq<nat>)
    ensures |r| <= |es|
    ensures forall k :: k in r <==> k in es && k < |nodes| && nodes[k].hasColor
  {
    if |es| == 0 then []
    else
      var rest := Colored(nodes, es[..|es| - 1]);
      var e := es[|es| - 1];
      assert es == es[..|es| - 1] + [e];
      if e < |nodes| && nodes[e].hasColor then rest + [e] else rest
  }

  /** Removing edges to uncoloured nodes keeps the rest in order and without repetition. */
  lemma {:induction false} ColoredDistinct(nodes: seq<Node>, es: seq<nat>)
    requires forall i, j :: 0 <= i < j < |es| ==> es[i] < es[j]
    ensures forall i, j :: 0 <= i < j < |Colored(nodes, es)| ==> Colored(nodes, es)[i] < Colored(nodes, es)[j]
    decreases |es|
  {
    if |es| > 0 {
      var front := es[..|es| - 1];
      ColoredDistinct(nodes, front);
      var rest := Colored(nodes, front);
      var e := es[|es| - 1];
      assert front == es[..|es| - 1];
      forall k | k in rest ensures k < e {
        var i :| 0 <= i < |front| && front[i] == k;
      }
      assert forall i :: 0 <= i < |rest| ==> rest[i] in rest;
      if e < |nodes| && nodes[e].hasColor {
        assert Colored(nodes, es) == rest + [e];
      } else {
        assert Colored(nodes, es) == rest;
      }
    }
  }

  /** `getColoredNeighbours`: the loop over the node's edges, keeping those whose destination has a colour. */
  method ColoredNeighbours(nodes: seq<Node>, v: nat) returns (r: seq<nat>)
    requires v < |nodes|
    ensures r == Colored(nodes, nodes[v].edges)
  {
    var es := nodes[v].edges;
    r := [];
    var i := 0;
    while i < |es|
      invariant 0 <= i <= |es|
      invariant r == Colored(nodes, es[..i])
    {
      assert es[..i + 1][..i] == es[..i];
      var e := es[i];
      if e < |nodes| && nodes[e].hasColor {
        r := r + [e];
      }
      i := i + 1;
    }
    assert es[..i] == es;
  }

  /** `intersectsLivelinessRange`: the nested loops over both range lists, leaving at the first overlap. */
  method IntersectsRanges(a: seq<Range>, b: seq<Range>) returns (r: bool)
    ensures r == Intersects(a, b)
  {
    var i := 0;
    while i < |a|
      invariant 0 <= i <= |a|
      invariant forall p, q :: 0 <= p < i && 0 <= q < |b| ==> !Overlap(a[p], b[q])
    {
      var j := 0;
      while j < |b|
        invariant 0 <= j <= |b|
        invariant forall q :: 0 <= q < j ==> !Overlap(a[i], b[q])
      {
        if !(a[i].end <= b[j].start || a[i].start >= b[j].end) {
          return true;
        }
        j := j + 1;
      }
      i := i + 1;
    }
    return false;
  }

  // ---- liveness ranges ----

  /**
   * Whether `x` is live at the end of instruction `id`: it is listed in
   * OUT(id). The corrected rule also counts the instruction that defines
   * `x`, so that a value written and never read still occupies its register
   * where it is written.
   */
  predicate LiveAtEnd(mode: Mode, defs: Defs, out: OutSets, id: int, x: string) {
    (id in out && x in out[id]) || (mode.Repaired? && DefOf(defs, id) == Some(x))
  }

  /**
   * The ranges the scan produces from position `i` of the ids `keys`, with
   * `open` the start of the range open so far, or -1 when none is
   * open. A range opens at an id where the variable is live at the end,
   * closes at the next id where it is not, and one still open after the last
   * id closes at `total`, the number of ids.
   */
  function RangesFrom(mode: Mode, defs: Defs, out: OutSets, x: string, keys: seq<int>, total: int, i: nat, open: int): seq<Range>
    decreases |keys| - i
  {
    if i >= |keys| then (if open != -1 then [Range(open, total)] else [])
    else
      var live := LiveAtEnd(mode, defs, out, keys[i], x);
      if open == -1 then RangesFrom(mode, defs, out, x, keys, total, i + 1, if live then keys[i] else -1)
      else if !live then [Range(open, keys[i])] + RangesFrom(mode, defs, out, x, keys, total, i + 1, -1)
      else RangesFrom(mode, defs, out, x, keys, total, i + 1, open)
  }

  /** The liveness ranges of `x`, scanning the ids in `keys`, the key order of the IN map. */
  function RangesOf(mode: Mode, defs: Defs, out: OutSets, x: string, keys: seq<int>): seq<Range> {
    RangesFrom(mode, defs, out, x, keys, |keys|, 0, -1)
  }

  /** The ids strictly increase and are not negative, so none is mistaken for the -1 of "no range open". */
  ghost predicate GoodKeys(keys: seq<int>) {
    (forall i, j :: 0 <= i < j < |keys| ==> keys[i] < keys[j]) &&
    (forall i :: 0 <= i < |keys| ==> 0 <= keys[i])
  }

  /**
   * A range still open after the last id closes at the id count, so it
   * covers the last id only when that id is below the count. OLLIR numbers
   * instructions from 1, so the last id is the count itself; a method ends
   * with a return, at whose end nothing is live.
   */
  predicate QuietEnd(mode: Mode, defs: Defs, out: OutSets, x: string, keys: seq<int>) {
    |keys| > 0 && LiveAtEnd(mode, defs, out, keys[|keys| - 1], x) ==> keys[|keys| - 1] < |keys|
  }

  /** Every range from position `i` on starts at `lo` or later. */
  lemma {:induction false} RangesStartAfter(mode: Mode, defs: Defs, out: OutSets, x: string, keys: seq<int>, total: int, i: nat, open: int, lo: int)
    requires forall q :: i <= q < |keys| ==> lo <= keys[q]
    requires open != -1 ==> lo <= open
    ensures forall r :: r in RangesFrom(mode, defs, out, x, keys, total, i, open) ==> lo <= r.start
    decreases |keys| - i
  {
    if i < |keys| {
      var live := LiveAtEnd(mode, defs, out, keys[i], x);
      RangesStartAfter(mode, defs, out, x, keys, total, i + 1, if open == -1 then (if live then keys[i] else -1) else if !live then -1 else open, lo);
    }
  }

  /** All ids from position `i` on have the variable live at their end. */
  ghost predicate LiveToEnd(mode: Mode, defs: Defs, out: OutSets, x: string, keys: seq<int>, i: nat) {
    forall q :: i <= q < |keys| ==> LiveAtEnd(mode, defs, out, keys[q], x)
  }

  /** With a range open, the first range produced starts there and ends after `bound`. */
  lemma {:induction false} FirstRange(mode: Mode, defs: Defs, out: OutSets, x: string, keys: seq<int>, total: int, i: nat, open: int, bound: int)
    requires open != -1
    requires forall q :: i <= q < |keys| ==> bound < keys[q]
    requires LiveToEnd(mode, defs, out, x, keys, i) ==> bound < total
    ensures |RangesFrom(mode, defs, out, x, keys, total, i, open)| > 0
    ensures RangesFrom(mode, defs, out, x, keys, total, i, open)[0].start == open
    ensures RangesFrom(mode, defs, out, x, keys, total, i, open)[0].end > bound
    decreases |keys| - i
  {
    if i < |keys| && LiveAtEnd(mode, defs, out, keys[i], x) {
      FirstRange(mode, defs, out, x, keys, total, i + 1, open, bound);
    }
  }

  /** Some range of `rs` covers `k`. */
  predicate Covered(rs: seq<Range>, k: int) {
    exists r :: r in rs && Covers(r, k)
  }

  /** A range opened at position `i` does not close at the id count before covering `keys[i]`. */
  lemma OpenReachesEnd(mode: Mode, defs: Defs, out: OutSets, x: string, keys: seq<int>, i: nat)
    requires GoodKeys(keys) && QuietEnd(mode, defs, out, x, keys)
    requires i < |keys| && LiveAtEnd(mode, defs, out, keys[i], x)
    ensures LiveToEnd(mode, defs, out, x, keys, i + 1) ==> keys[i] < |keys|
  {
    if LiveToEnd(mode, defs, out, x, keys, i + 1) && i + 1 < |keys| {
      assert LiveAtEnd(mode, defs, out, keys[|keys| - 1], x);
    }
  }

  /** From position `i` on, an id is covered by a range exactly when the variable is live at its end. */
  lemma {:induction false} CoverFrom(mode: Mode, defs: Defs, out: OutSets, x: string, keys: seq<int>, i: nat, open: int, p: nat)
    requires GoodKeys(keys) && QuietEnd(mode, defs, out, x, keys) && i <= p < |keys|
    requires open != -1 ==> open <= keys[i]
    ensures Covered(RangesFrom(mode, defs, out, x, keys, |keys|, i, open), keys[p]) <==> LiveAtEnd(mode, defs, out, keys[p], x)
    decreases |keys| - i
  {
    var total := |keys|;
    var live := LiveAtEnd(mode, defs, out, keys[i], x);
    var rs := RangesFrom(mode, defs, out, x, keys, total, i, open);
    if i < p {
      var next := if open == -1 then (if live then keys[i] else -1) else if !live then -1 else open;
      CoverFrom(mode, defs, out, x, keys, i + 1, next, p);
      if open != -1 && !live {
        assert rs == [Range(open, keys[i])] + RangesFrom(mode, defs, out, x, keys, total, i + 1, -1);
        assert !Covers(Range(open, keys[i]), keys[p]);
      }
    } else if live {
      var o := if open == -1 then keys[i] else open;
      OpenReachesEnd(mode, defs, out, x, keys, i);
      FirstRange(mode, defs, out, x, keys, total, i + 1, o, keys[i]);
      assert Covers(rs[0], keys[p]);
    } else {
      RangesStartAfter(mode, defs, out, x, keys, total, i + 1, -1, keys[i] + 1);
      if open != -1 {
        assert rs == [Range(open, keys[i])] + RangesFrom(mode, defs, out, x, keys, total, i + 1, -1);
      }
    }
  }

  /** An id is covered by one of the variable's ranges exactly when the variable is live at its end. */
  lemma Coverage(mode: Mode, defs: Defs, out: OutSets, x: string, keys: seq<int>, p: nat)
    requires GoodKeys(keys) && QuietEnd(mode, defs, out, x, keys) && p < |keys|
    ensures Covered(RangesOf(mode, defs, out, x, keys), keys[p]) <==> LiveAtEnd(mode, defs, out, keys[p], x)
  {
    CoverFrom(mode, defs, out, x, keys, 0, -1, p);
  }

  /** Two variables live at the end of the same instruction have intersecting ranges. */
  lemma LiveTogetherIntersect(mode: Mode, defs: Defs, out: OutSets, x: string, y: string, keys: seq<int>, p: nat)
    requires GoodKeys(keys) && QuietEnd(mode, defs, out, x, keys) && QuietEnd(mode, defs, out, y, keys) && p < |keys|
    requires LiveAtEnd(mode, defs, out, keys[p], x) && LiveAtEnd(mode, defs, out, keys[p], y)
    ensures Intersects(RangesOf(mode, defs, out, x, keys), RangesOf(mode, defs, out, y, keys))
  {
    var a := RangesOf(mode, defs, out, x, keys);
    var b := RangesOf(mode, defs, out, y, keys);
    Coverage(mode, defs, out, x, keys, p);
    Coverage(mode, defs, out, y, keys, p);
    var r1 :| r1 in a && Covers(r1, keys[p]);
    var r2 :| r2 in b && Covers(r2, keys[p]);
    CoverOverlap(r1, r2, keys[p]);
    var i :| 0 <= i < |a| && a[i] == r1;
    var j :| 0 <= j < |b| && b[j] == r2;
  }

  /** The ranges are non-empty, each ends before the next starts, and all start at `lo` or later. */
  ghost predicate OrderedFrom(rs: seq<Range>, lo: int) {
    (forall a :: 0 <= a < |rs| ==> lo <= rs[a].start < rs[a].end) &&
    (forall a, b :: 0 <= a < b < |rs| ==> rs[a].end < rs[b].start)
  }

  /** The ranges from position `i` are ordered; `open`, if any, was opened before `keys[i]`. */
  lemma {:induction false} RangesOrderedFrom(mode: Mode, defs: Defs, out: OutSets, x: string, keys: seq<int>, i: nat, open: int, lo: int)
    requires GoodKeys(keys) && QuietEnd(mode, defs, out, x, keys) && i <= |keys|
    requires open != -1 ==> lo <= open && (i < |keys| ==> open < keys[i]) && (i == |keys| ==> open < |keys|)
    requires open == -1 && i < |keys| ==> lo <= keys[i]
    ensures OrderedFrom(RangesFrom(mode, defs, out, x, keys, |keys|, i, open), lo)
    decreases |keys| - i
  {
    if i < |keys| {
      var live := LiveAtEnd(mode, defs, out, keys[i], x);
      if open != -1 && !live {
        var tail := RangesFrom(mode, defs, out, x, keys, |keys|, i + 1, -1);
        RangesOrderedFrom(mode, defs, out, x, keys, i + 1, -1, keys[i] + 1);
        var rs := RangesFrom(mode, defs, out, x, keys, |keys|, i, open);
        assert rs == [Range(open, keys[i])] + tail;
        assert forall b :: 0 < b < |rs| ==> rs[b] == tail[b - 1];
      } else {
        var rest := if open == -1 then (if live then keys[i] else -1) else open;
        if live && i + 1 == |keys| {
          assert keys[i] < |keys|;
        }
        RangesOrderedFrom(mode, defs, out, x, keys, i + 1, rest, lo);
      }
    }
  }

  /** For increasing ids a variable's ranges are non-empty, ordered and disjoint. */
  lemma RangesOrdered(mode: Mode, defs: Defs, out: OutSets, x: string, keys: seq<int>)
    requires GoodKeys(keys) && QuietEnd(mode, defs, out, x, keys)
    ensures var rs := RangesOf(mode, defs, out, x, keys);
      (forall a :: 0 <= a < |rs| ==> rs[a].start < rs[a].end) &&
      (forall a, b :: 0 <= a < b < |rs| ==> rs[a].end < rs[b].start)
  {
    if |keys| > 0 {
      RangesOrderedFrom(mode, defs, out, x, keys, 0, -1, keys[0]);
    } else {
      assert RangesOf(mode, defs, out, x, keys) == [];
    }
  }

  /** `getNodesLivelinessRange`: the scan over the ids with `currentRangeStart`, closing a still open range at the id count. */
  method LivenessRanges(mode: Mode, defs: Defs, out: OutSets, x: string, keys: seq<int>) returns (r: seq<Range>)
    ensures r == RangesOf(mode, defs, out, x, keys)
  {
    r := [];
    var currentRangeStart := -1;
    var i := 0;
    while i < |keys|
      invariant 0 <= i <= |keys|
      invariant r + RangesFrom(mode, defs, out, x, keys, |keys|, i, currentRangeStart) == RangesOf(mode, defs, out, x, keys)
    {
      var id := keys[i];
      var live := (id in out && x in out[id]) || (mode.Repaired? && DefOf(defs, id) == Some(x));
      if currentRangeStart == -1 {
        if live {
          currentRangeStart := id;
        }
      } else if !live {
        r := r + [Range(currentRangeStart, id)];
        currentRangeStart := -1;
      }
      i := i + 1;
    }
    if currentRangeStart != -1 {
      r := r + [Range(currentRangeStart, |keys|)];
    }
  }

  // ---- the node map ----

  /** `nodes.put(reg, n)`: replaces the node with the same register in place, or appends. */
  function PutNode(nodes: seq<Node>, n: Node): (r: seq<Node>)
    requires DistinctRegs(nodes)
    ensures |r| >= |nodes| && DistinctRegs(r)
    ensures forall i :: 0 <= i < |nodes| ==> (if nodes[i].virtualReg == n.virtualReg then r[i] == n else r[i] == nodes[i])
    ensures |r| == |nodes| || (r == nodes + [n] && forall i :: 0 <= i < |nodes| ==> nodes[i].virtualReg != n.virtualReg)
    ensures |r| == |nodes| ==> exists i :: 0 <= i < |nodes| && nodes[i].virtualReg == n.virtualReg
  {
    if |nodes| == 0 then [n]
    else if nodes[0].virtualReg == n.virtualReg then [n] + nodes[1..]
    else
      var rest := PutNode(nodes[1..], n);
      assert forall i :: 1 <= i < |nodes| ==> nodes[i] == nodes[1..][i - 1];
      [nodes[0]] + rest
  }

  /** The nodes no two of which share a register. */
  ghost predicate DistinctRegs(nodes: seq<Node>) {
    forall i, j :: 0 <= i < j < |nodes| ==> nodes[i].virtualReg != nodes[j].virtualReg
  }

  /**
   * The node map after the loop over the first entries of the var table: a
   * node, without edges and coloured, for every LOCAL entry, keyed by its
   * register, so that a later entry with the same register replaces an earlier one.
   */
  function NodesOf(mode: Mode, defs: Defs, out: OutSets, keys: seq<int>, vt: VarTable): (r: seq<Node>)
    ensures DistinctRegs(r)
    ensures forall v :: 0 <= v < |r| ==> r[v].edges == [] && r[v].hasColor && r[v].ranges == RangesOf(mode, defs, out, r[v].id, keys)
  {
    if |vt| == 0 then []
    else
      var rest := NodesOf(mode, defs, out, keys, vt[..|vt| - 1]);
      var e := vt[|vt| - 1];
      if e.desc.scope != Local then rest
      else PutNode(rest, Node(e.name, e.desc.reg, [], true, RangesOf(mode, defs, out, e.name, keys)))
  }

  /** Some node has this name and register. */
  predicate NodeFor(ns: seq<Node>, name: string, reg: int) {
    exists v :: 0 <= v < |ns| && ns[v].id == name && ns[v].virtualReg == reg
  }

  /** The entry at some position of the var table is LOCAL with this name and register. */
  predicate LocalEntry(vt: VarTable, name: string, reg: int) {
    exists i :: 0 <= i < |vt| && vt[i].desc.scope == Local && vt[i].name == name && vt[i].desc.reg == reg
  }

  /** Putting a node keeps the nodes of other registers. */
  lemma PutKeeps(ns: seq<Node>, n: Node, name: string, reg: int)
    requires DistinctRegs(ns) && NodeFor(ns, name, reg) && reg != n.virtualReg
    ensures NodeFor(PutNode(ns, n), name, reg)
  {
    var v :| 0 <= v < |ns| && ns[v].id == name && ns[v].virtualReg == reg;
    assert PutNode(ns, n)[v] == ns[v];
  }

  /** After putting a node it is in the map. */
  lemma PutHas(ns: seq<Node>, n: Node)
    requires DistinctRegs(ns)
    ensures NodeFor(PutNode(ns, n), n.id, n.virtualReg)
  {
    var r := PutNode(ns, n);
    if |r| == |ns| {
      var v :| 0 <= v < |ns| && ns[v].virtualReg == n.virtualReg;
      assert r[v] == n;
    } else {
      assert r[|ns|] == n;
    }
  }

  /** Every node in the map after putting `n` is `n` or was there before. */
  lemma PutFrom(ns: seq<Node>, n: Node, v: nat)
    requires DistinctRegs(ns) && v < |PutNode(ns, n)|
    ensures PutNode(ns, n)[v] == n || (v < |ns| && PutNode(ns, n)[v] == ns[v])
  {
  }

  /** Every node carries the name and register of a LOCAL entry of the var table. */
  lemma {:induction false} NodesFromTable(mode: Mode, defs: Defs, out: OutSets, keys: seq<int>, vt: VarTable, v: nat)
    requires v < |NodesOf(mode, defs, out, keys, vt)|
    ensures LocalEntry(vt, NodesOf(mode, defs, out, keys, vt)[v].id, NodesOf(mode, defs, out, keys, vt)[v].virtualReg)
    decreases |vt|
  {
    var front := vt[..|vt| - 1];
    var rest := NodesOf(mode, defs, out, keys, front);
    var e := vt[|vt| - 1];
    var ns := NodesOf(mode, defs, out, keys, vt);
    if e.desc.scope == Local {
      var n := Node(e.name, e.desc.reg, [], true, RangesOf(mode, defs, out, e.name, keys));
      PutFrom(rest, n, v);
      if ns[v] != n {
        NodesFromTable(mode, defs, out, keys, front, v);
        var i :| 0 <= i < |front| && front[i].desc.scope == Local && front[i].name == rest[v].id && front[i].desc.reg == rest[v].virtualReg;
        assert vt[i] == front[i];
      }
    } else {
      NodesFromTable(mode, defs, out, keys, front, v);
      var i :| 0 <= i < |front| && front[i].desc.scope == Local && front[i].name == rest[v].id && front[i].desc.reg == rest[v].virtualReg;
      assert vt[i] == front[i];
    }
  }

  /** No LOCAL entry after position `i` has the register of entry `i`. */
  predicate LastWithReg(vt: VarTable, i: nat)
    requires i < |vt|
  {
    forall j :: i < j < |vt| && vt[j].desc.scope == Local ==> vt[j].desc.reg != vt[i].desc.reg
  }

  /** Every LOCAL entry has a node, unless a later LOCAL entry has its register. */
  lemma {:induction false} NodesComplete(mode: Mode, defs: Defs, out: OutSets, keys: seq<int>, vt: VarTable, i: nat)
    requires i < |vt| && vt[i].desc.scope == Local && LastWithReg(vt, i)
    ensures NodeFor(NodesOf(mode, defs, out, keys, vt), vt[i].name, vt[i].desc.reg)
    decreases |vt|
  {
    var front := vt[..|vt| - 1];
    var rest := NodesOf(mode, defs, out, keys, front);
    var e := vt[|vt| - 1];
    var n := Node(e.name, e.desc.reg, [], true, RangesOf(mode, defs, out, e.name, keys));
    if i == |vt| - 1 {
      PutHas(rest, n);
    } else {
      assert vt[i] == front[i];
      assert LastWithReg(front, i) by {
        forall j | i < j < |front| && front[j].desc.scope == Local ensures front[j].desc.reg != front[i].desc.reg {
          assert vt[j] == front[j];
        }
      }
      NodesComplete(mode, defs, out, keys, front, i);
      if e.desc.scope == Local {
        PutKeeps(rest, n, vt[i].name, vt[i].desc.reg);
      }
    }
  }

  /** The LOCAL entries of the var table list their registers in increasing order. */
  ghost predicate AscendingLocals(vt: VarTable) {
    forall i, j :: 0 <= i < j < |vt| && vt[i].desc.scope == Local && vt[j].desc.scope == Local ==> vt[i].desc.reg < vt[j].desc.reg
  }

  /**
   * The model keeps the nodes in the order their registers first appear in
   * the var table, while a Java `HashMap<Integer, Node>` with small register
   * keys walks them by increasing register. When the var table lists its
   * LOCAL registers in increasing order the two orders are the same: the
   * nodes come out by increasing register.
   */
  lemma {:induction false} NodesAscending(mode: Mode, defs: Defs, out: OutSets, keys: seq<int>, vt: VarTable)
    requires AscendingLocals(vt)
    ensures var ns := NodesOf(mode, defs, out, keys, vt);
      forall u, v :: 0 <= u < v < |ns| ==> ns[u].virtualReg < ns[v].virtualReg
    decreases |vt|
  {
    if |vt| > 0 {
      var front := vt[..|vt| - 1];
      var rest := NodesOf(mode, defs, out, keys, front);
      var e := vt[|vt| - 1];
      assert AscendingLocals(front) by {
        forall i, j | 0 <= i < j < |front| && front[i].desc.scope == Local && front[j].desc.scope == Local
          ensures front[i].desc.reg < front[j].desc.reg
        {
          assert front[i] == vt[i] && front[j] == vt[j];
        }
      }
      NodesAscending(mode, defs, out, keys, front);
      if e.desc.scope == Local {
        var n := Node(e.name, e.desc.reg, [], true, RangesOf(mode, defs, out, e.name, keys));
        forall u | 0 <= u < |rest| ensures rest[u].virtualReg < e.desc.reg {
          NodesFromTable(mode, defs, out, keys, front, u);
          var i :| 0 <= i < |front| && front[i].desc.scope == Local && front[i].name == rest[u].id && front[i].desc.reg == rest[u].virtualReg;
          assert front[i] == vt[i];
        }
        assert PutNode(rest, n) == rest + [n];
      }
    }
  }

  /**
   * The interference graph of one method. `nodes` is the node map in its
   * iteration order, `present` says which of them the map still holds, and
   * the var table is the method's own, which allocation writes through.
   */
  class InterferenceGraph {
    var varTable: VarTable
    var isStaticMethod: bool
    var nodes: seq<Node>
    var present: seq<bool>

    /** The edges of every node are positions of other nodes of the graph. */
    ghost predicate Valid()
      reads this
    {
      |present| == |nodes| &&
      forall v :: 0 <= v < |nodes| ==> forall k :: 0 <= k < |nodes[v].edges| ==> nodes[v].edges[k] < |nodes|
    }

    /**
     * The constructor: the nodes from the var table and the liveness ranges
     * over the ids `keys`, all in the map, then the edges.
     */
    constructor (mode: Mode, defs: Defs, out: OutSets, keys: seq<int>, m: OllirMethod)
      ensures varTable == m.varTable && isStaticMethod == m.isStatic
      ensures nodes == WithEdges(NodesOf(mode, defs, out, keys, m.varTable))
      ensures present == seq(|nodes|, _ => true)
      ensures Valid()
    {
      varTable := m.varTable;
      isStaticMethod := m.isStatic;
      var ns := GraphNodes(mode, defs, out, keys, m.varTable);
      nodes := ns;
      present := seq(|ns|, _ => true);
      new;
      ComputeEdges();
      NeighboursInRange(ns);
    }

    /** `computeEdges`: for every pair i < j of nodes whose ranges intersect, an edge from i to j and one from j to i. */
    method ComputeEdges()
      requires forall v :: 0 <= v < |nodes| ==> nodes[v].edges == []
      modifies this`nodes
      ensures nodes == WithEdges(old(nodes))
    {
      ghost var orig := nodes;
      assert nodes == Done(orig, 0);
      var i := 0;
      while i < |nodes|
        invariant 0 <= i <= |orig| && nodes == Done(orig, i)
      {
        EdgesFrom(orig, i);
        i := i + 1;
      }
      assert Done(orig, i) == WithEdges(orig);
    }

    /** One turn of the outer loop: the pairs (i, j) for every j above `i`. */
    method EdgesFrom(ghost orig: seq<Node>, i: nat)
      requires i < |orig| && nodes == Done(orig, i)
      modifies this`nodes
      ensures nodes == Done(orig, i + 1)
    {
      StartRow(orig, i);
      var j := i + 1;
      while j < |nodes|
        invariant i < j <= |orig| && nodes == Midway(orig, i, j)
      {
        var hit := IntersectsRanges(nodes[i].ranges, nodes[j].ranges);
        EdgeStep(orig, i, j);
        if hit {
          nodes := nodes[i := nodes[i].(edges := nodes[i].edges + [j])];
          nodes := nodes[j := nodes[j].(edges := nodes[j].edges + [i])];
        }
        j := j + 1;
      }
      EndRow(orig, i);
    }
  }

  /** `graph.getNodes()` filled by the constructor's loop over the var table. */
  method GraphNodes(mode: Mode, defs: Defs, out: OutSets, keys: seq<int>, vt: VarTable) returns (nodes: seq<Node>)
    ensures nodes == NodesOf(mode, defs, out, keys, vt)
  {
    nodes := [];
    var i := 0;
    while i < |vt|
      invariant 0 <= i <= |vt|
      invariant nodes == NodesOf(mode, defs, out, keys, vt[..i])
    {
      assert vt[..i + 1][..i] == vt[..i];
      var e := vt[i];
      if e.desc.scope == Local {
        var ranges := LivenessRanges(mode, defs, out, e.name, keys);
        nodes := PutNode(nodes, Node(e.name, e.desc.reg, [], true, ranges));
      }
      i := i + 1;
    }
    assert vt[..i] == vt;
  }

  // ---- the edges ----

  /** Nodes `u` and `v` interfere: they are two nodes whose ranges intersect. */
  predicate Adj(nodes: seq<Node>, u: nat, v: nat)
    requires u < |nodes| && v < |nodes|
  {
    u != v && Intersects(nodes[u].ranges, nodes[v].ranges)
  }

  /** The nodes among positions `[a, b)` that interfere with `v`, in increasing order. */
  function Up(nodes: seq<Node>, v: nat, a: nat, b: nat): seq<nat>
    requires v < |nodes| && b <= |nodes|
    decreases b
  {
    if b <= a then [] else Up(nodes, v, a, b - 1) + (if Adj(nodes, b - 1, v) then [b - 1] else [])
  }

  /** All nodes that interfere with `v`, in increasing order. */
  function Neighbours(nodes: seq<Node>, v: nat): seq<nat>
    requires v < |nodes|
  {
    Up(nodes, v, 0, |nodes|)
  }

  /** Every node with its edge list set to its neighbours. */
  function WithEdges(nodes: seq<Node>): (r: seq<Node>)
    ensures |r| == |nodes|
  {
    seq(|nodes|, v requires 0 <= v < |nodes| => nodes[v].(edges := Neighbours(nodes, v)))
  }

  /** The edge list of `v` once the pairs (i', j) of every row i' below `i` have been examined. */
  function RowsDone(nodes: seq<Node>, v: nat, i: nat): seq<nat>
    requires v < |nodes| && i <= |nodes|
  {
    if v < i then Up(nodes, v, 0, |nodes|) else Up(nodes, v, 0, i)
  }

  /**
   * The edge list of `v` once the pairs of every row below `i` and the
   * pairs (i, j') with j' < j have been examined.
   */
  function EdgesAt(nodes: seq<Node>, v: nat, i: nat, j: nat): seq<nat>
    requires v < |nodes| && i < j <= |nodes|
  {
    if v < i then Up(nodes, v, 0, |nodes|)
    else if v == i then Up(nodes, v, 0, j)
    else if v < j then Up(nodes, v, 0, i + 1)
    else Up(nodes, v, 0, i)
  }

  /** The nodes once every row below `i` is done. */
  function Done(nodes: seq<Node>, i: nat): (r: seq<Node>)
    requires i <= |nodes|
    ensures |r| == |nodes|
  {
    seq(|nodes|, v requires 0 <= v < |nodes| => nodes[v].(edges := RowsDone(nodes, v, i)))
  }

  /** The nodes once every row below `i` and the pairs (i, j') with j' < j are done. */
  function Midway(nodes: seq<Node>, i: nat, j: nat): (r: seq<Node>)
    requires i < j <= |nodes|
    ensures |r| == |nodes|
  {
    seq(|nodes|, v requires 0 <= v < |nodes| => nodes[v].(edges := EdgesAt(nodes, v, i, j)))
  }

  lemma StartRow(nodes: seq<Node>, i: nat)
    requires i < |nodes|
    ensures Midway(nodes, i, i + 1) == Done(nodes, i)
  {
    forall v | 0 <= v < |nodes| ensures EdgesAt(nodes, v, i, i + 1) == RowsDone(nodes, v, i) {
    }
  }

  lemma EdgeStep(nodes: seq<Node>, i: nat, j: nat)
    requires i < j < |nodes|
    ensures var m := Midway(nodes, i, j);
      Midway(nodes, i, j + 1) ==
        if Intersects(nodes[i].ranges, nodes[j].ranges)
        then m[i := m[i].(edges := m[i].edges + [j])][j := m[j].(edges := m[j].edges + [i])]
        else m
  {
    IntersectsSymmetric(nodes[i].ranges, nodes[j].ranges);
    var m, m' := Midway(nodes, i, j), Midway(nodes, i, j + 1);
    var b := Intersects(nodes[i].ranges, nodes[j].ranges);
    var r := if b then m[i := m[i].(edges := m[i].edges + [j])][j := m[j].(edges := m[j].edges + [i])] else m;
    forall v | 0 <= v < |nodes| ensures m'[v] == r[v] {
      if v == i {
        assert EdgesAt(nodes, i, i, j + 1) == EdgesAt(nodes, i, i, j) + (if b then [j] else []);
      } else if v == j {
        assert EdgesAt(nodes, j, i, j + 1) == EdgesAt(nodes, j, i, j) + (if b then [i] else []);
      } else {
        assert EdgesAt(nodes, v, i, j + 1) == EdgesAt(nodes, v, i, j);
      }
    }
    assert m' == r;
  }

  lemma EndRow(nodes: seq<Node>, i: nat)
    requires i < |nodes|
    ensures Midway(nodes, i, |nodes|) == Done(nodes, i + 1)
  {
    forall v | 0 <= v < |nodes| ensures EdgesAt(nodes, v, i, |nodes|) == RowsDone(nodes, v, i + 1) {
    }
  }

  /** The edge lists point inside the graph. */
  lemma NeighboursInRange(nodes: seq<Node>)
    ensures forall v :: 0 <= v < |nodes| ==> forall k :: 0 <= k < |Neighbours(nodes, v)| ==> Neighbours(nodes, v)[k] < |nodes|
  {
    forall v | 0 <= v < |nodes| ensures forall k :: 0 <= k < |Neighbours(nodes, v)| ==> Neighbours(nodes, v)[k] < |nodes| {
      UpFacts(nodes, v, 0, |nodes|);
      var es := Neighbours(nodes, v);
      assert forall k :: 0 <= k < |es| ==> es[k] in es;
    }
  }

  /** `u` is in the list exactly when it is in `[a, b)` and interferes with `v`; the list increases strictly. */
  lemma {:induction false} UpFacts(nodes: seq<Node>, v: nat, a: nat, b: nat)
    requires v < |nodes| && b <= |nodes|
    ensures forall u :: u in Up(nodes, v, a, b) <==> a <= u < b && Adj(nodes, u, v)
    ensures forall p, q :: 0 <= p < q < |Up(nodes, v, a, b)| ==> Up(nodes, v, a, b)[p] < Up(nodes, v, a, b)[q]
    decreases b
  {
    if a < b {
      UpFacts(nodes, v, a, b - 1);
      var front := Up(nodes, v, a, b - 1);
      assert forall p :: 0 <= p < |front| ==> front[p] in front;
    }
  }

  /**
   * The edges: each node's list is, in increasing order and without
   * repetition, the other nodes whose ranges intersect its own; so no node
   * has an edge to itself and every edge has its reverse.
   */
  lemma EdgesExact(nodes: seq<Node>, u: nat, v: nat)
    requires u < |nodes| && v < |nodes|
    ensures u in WithEdges(nodes)[v].edges <==> u != v && Intersects(nodes[u].ranges, nodes[v].ranges)
    ensures u in WithEdges(nodes)[v].edges <==> v in WithEdges(nodes)[u].edges
    ensures var es := WithEdges(nodes)[v].edges; forall p, q :: 0 <= p < q < |es| ==> es[p] < es[q]
  {
    UpFacts(nodes, v, 0, |nodes|);
    UpFacts(nodes, u, 0, |nodes|);
    IntersectsSymmetric(nodes[u].ranges, nodes[v].ranges);
  }
}
