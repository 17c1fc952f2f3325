/**
 * The register allocation pass over a class: for every method in order,
 * liveness analysis, the interference graph built from that liveness, and
 * graph colouring with the requested number of registers, minimising when
 * that number is 0. The graph holds the method's own var table, so the
 * colouring's write-back is the method's new var table.
 *
 * One liveness analyser serves every method; it resets its maps on each
 * call, so what one method leaves in it has no effect on the next. An
 * analysis that fails (an LDC instruction) is an exception that leaves the
 * pass: the methods before it keep their new tables, the rest are untouched.
 */
module RegisterAllocation {
  import opened Wrappers
  import opened Ollir
  import opened Liveness
  import opened Interference
  import opened Coloring
  import opened ColoringFacts

  /** The graph the constructor builds: a node per LOCAL entry, with the ranges over `keys`, and the interference edges. */
  function BuiltGraph(mode: Mode, defs: Defs, out: OutSets, keys: seq<int>, vt: VarTable): (r: seq<Node>) {
    WithEdges(NodesOf(mode, defs, out, keys, vt))
  }

  /** Every node of a fresh graph is in the map. */
  function AllIn(nodes: seq<Node>): (r: seq<bool>)
    ensures |r| == |nodes| && forall v :: 0 <= v < |r| ==> r[v]
  {
    seq(|nodes|, _ => true)
  }

  /**
   * The method as allocation leaves it, with the var table the colouring
   * wrote back, or the error its liveness analysis ends with; `keys` is the
   * iteration order of the IN map, and `n` the requested register count.
   */
  function AllocateMethod(mode: Mode, m: OllirMethod, keys: seq<int>, n: int): (r: Result<OllirMethod, LivenessError>)
    ensures r.Success? ==> r.value.name == m.name && r.value.isStatic == m.isStatic && r.value.instrs == m.instrs
  {
    match DefUse(AsWritten, m.varTable, m.instrs)
    case Failure(e) => Failure(e)
    case Success(du) =>
      var out := PassDown(m.instrs, du.0, du.1, Initial(m.instrs), 0).outM;
      var nodes := BuiltGraph(mode, du.0, out, keys, m.varTable);
      Success(m.(varTable := Run(mode, m.varTable, m.isStatic, nodes, AllIn(nodes), n, n == 0).varTable))
  }

  /** The outcome of allocation for each method on its own. */
  function Outcomes(mode: Mode, ms: seq<OllirMethod>, keys: seq<seq<int>>, n: int): (r: seq<Result<OllirMethod, LivenessError>>)
    requires |keys| == |ms|
    ensures |r| == |ms|
    decreases |ms|
  {
    if |ms| == 0 then [] else Outcomes(mode, ms[..|ms| - 1], keys[..|ms| - 1], n) + [AllocateMethod(mode, ms[|ms| - 1], keys[|ms| - 1], n)]
  }

  /** The outcome for the method at `i` is allocation of that method alone. */
  lemma {:induction false} OutcomeAt(mode: Mode, ms: seq<OllirMethod>, keys: seq<seq<int>>, n: int, i: nat)
    requires |keys| == |ms| && i < |ms|
    ensures Outcomes(mode, ms, keys, n)[i] == AllocateMethod(mode, ms[i], keys[i], n)
    decreases |ms|
  {
    if i < |ms| - 1 {
      OutcomeAt(mode, ms[..|ms| - 1], keys[..|ms| - 1], n, i);
    }
  }

  /**
   * The elements after a loop has gone over them with outcomes `rs`: each
   * is replaced by its outcome, up to the first failure, which ends the loop
   * with that error and leaves the elements from there on as they were.
   */
  function Apply<M, E>(ms: seq<M>, rs: seq<Result<M, E>>): (r: (seq<M>, Option<E>))
    requires |rs| == |ms|
    ensures |r.0| == |ms|
    decreases |ms|
  {
    if |ms| == 0 then ([], None)
    else
      var front := Apply(ms[..|ms| - 1], rs[..|ms| - 1]);
      var m := ms[|ms| - 1];
      if front.1.Some? then (front.0 + [m], front.1)
      else match rs[|ms| - 1]
        case Failure(e) => (front.0 + [m], Some(e))
        case Success(m') => (front.0 + [m'], None)
  }

  /** The class's methods after `allocateReg`, and the error it ends with, if any. */
  function AllocateAll(mode: Mode, ms: seq<OllirMethod>, keys: seq<seq<int>>, n: int): (r: (seq<OllirMethod>, Option<LivenessError>))
    requires |keys| == |ms|
    ensures |r.0| == |ms|
  {
    Apply(ms, Outcomes(mode, ms, keys, n))
  }

  /** The state of the loop before turn `i`: the elements so far replaced by their outcomes, none of which failed. */
  ghost predicate LoopAt<M, E>(ms: seq<M>, rs: seq<Result<M, E>>, i: nat, current: seq<M>)
    requires |rs| == |ms| && i <= |ms|
  {
    Apply(ms[..i], rs[..i]).1.None? && current == Apply(ms[..i], rs[..i]).0 + ms[i..]
  }

  /** The loop before its first turn. */
  lemma LoopStart<M, E>(ms: seq<M>, rs: seq<Result<M, E>>)
    requires |rs| == |ms|
    ensures LoopAt(ms, rs, 0, ms)
  {
    assert ms[..0] == [] && rs[..0] == [] && ms[0..] == ms;
  }

  /** Before turn `i` the element at `i` is still the input's. */
  lemma LoopAtElement<M, E>(ms: seq<M>, rs: seq<Result<M, E>>, i: nat, current: seq<M>)
    requires |rs| == |ms| && i < |ms| && LoopAt(ms, rs, i, current)
    ensures |current| == |ms| && current[i] == ms[i]
  {
  }

  /** The loop after its last turn. */
  lemma AllDone<M, E>(ms: seq<M>, rs: seq<Result<M, E>>, current: seq<M>)
    requires |rs| == |ms| && LoopAt(ms, rs, |ms|, current)
    ensures Apply(ms, rs) == (current, None)
  {
    assert ms[..|ms|] == ms && rs[..|ms|] == rs;
    var a := Apply(ms, rs);
    assert ms[|ms|..] == [] && a.0 + [] == a.0;
  }

  /** One more turn of the loop, after a prefix with no failure or one with. */
  lemma ApplyStep<M, E>(ms: seq<M>, rs: seq<Result<M, E>>, i: nat)
    requires |rs| == |ms| && i < |ms|
    ensures var front := Apply(ms[..i], rs[..i]);
      Apply(ms[..i + 1], rs[..i + 1]) ==
        if front.1.Some? then (front.0 + [ms[i]], front.1)
        else if rs[i].Failure? then (front.0 + [ms[i]], Some(rs[i].error))
        else (front.0 + [rs[i].value], None)
  {
    var ms', rs' := ms[..i + 1], rs[..i + 1];
    assert |ms'| - 1 == i && ms'[i] == ms[i] && rs'[i] == rs[i];
    assert ms'[..i] == ms[..i] && rs'[..i] == rs[..i];
  }

  /** No outcome before `j` failed. */
  predicate SucceededBefore<M, E>(rs: seq<Result<M, E>>, j: int)
  {
    forall k :: 0 <= k < j && k < |rs| ==> rs[k].Success?
  }

  /** The element at `j` after the loop: its outcome exactly when it and every element before it succeeded. */
  function AfterLoop<M, E>(ms: seq<M>, rs: seq<Result<M, E>>, j: int): (r: M)
    requires |rs| == |ms| && 0 <= j < |ms|
  {
    if SucceededBefore(rs, j + 1) then rs[j].value else ms[j]
  }

  /**
   * What the loop leaves: each element as `AfterLoop` says; the loop ends
   * with an error exactly when some outcome failed, and then with the first
   * failure's.
   */
  lemma {:induction false} ApplyShape<M, E>(ms: seq<M>, rs: seq<Result<M, E>>)
    requires |rs| == |ms|
    ensures forall j :: 0 <= j < |ms| ==> Apply(ms, rs).0[j] == AfterLoop(ms, rs, j)
    ensures Apply(ms, rs).1.None? <==> SucceededBefore(rs, |rs|)
    ensures forall f :: 0 <= f < |rs| && SucceededBefore(rs, f) && rs[f].Failure? ==> Apply(ms, rs).1 == Some(rs[f].error)
    decreases |ms|
  {
    if |ms| > 0 {
      var l := |ms| - 1;
      var ms', rs' := ms[..l], rs[..l];
      ApplyShape(ms', rs');
      ApplyStep(ms, rs, l);
      assert ms[..l + 1] == ms && rs[..l + 1] == rs;
      SucceededFront(rs, l);
      AfterLoopFront(ms, rs, l);
    }
  }

  /** Up to position `l`, whether the outcomes succeeded is decided by those before `l`. */
  lemma SucceededFront<M, E>(rs: seq<Result<M, E>>, l: nat)
    requires l < |rs|
    ensures forall j :: 0 <= j <= l ==> SucceededBefore(rs, j) == SucceededBefore(rs[..l], j)
    ensures SucceededBefore(rs, l + 1) <==> SucceededBefore(rs[..l], l) && rs[l].Success?
  {
    forall j | 0 <= j <= l ensures SucceededBefore(rs, j) == SucceededBefore(rs[..l], j) {
      assert forall k :: 0 <= k < j ==> rs[k] == rs[..l][k];
    }
  }

  /** Below position `l`, the elements after the loop are decided by the elements before `l`. */
  lemma AfterLoopFront<M, E>(ms: seq<M>, rs: seq<Result<M, E>>, l: nat)
    requires |rs| == |ms| && l < |ms|
    ensures forall j :: 0 <= j < l ==> AfterLoop(ms, rs, j) == AfterLoop(ms[..l], rs[..l], j)
  {
    SucceededFront(rs, l);
    forall j | 0 <= j < l ensures AfterLoop(ms, rs, j) == AfterLoop(ms[..l], rs[..l], j) {
      assert ms[j] == ms[..l][j] && rs[j] == rs[..l][j];
    }
  }

  /** A turn of the loop that succeeded: the element takes its outcome, and the loop goes on. */
  lemma SuccessMoves<M, E>(ms: seq<M>, rs: seq<Result<M, E>>, i: nat, current: seq<M>)
    requires |rs| == |ms| && i < |ms| && LoopAt(ms, rs, i, current) && rs[i].Success?
    ensures LoopAt(ms, rs, i + 1, current[i := rs[i].value])
  {
    ApplyStep(ms, rs, i);
    Replace(Apply(ms[..i], rs[..i]).0, ms, i, rs[i].value);
  }

  /** Replacing the first element past a prefix of length `i`. */
  lemma Replace<M>(front: seq<M>, ms: seq<M>, i: nat, x: M)
    requires |front| == i < |ms|
    ensures (front + ms[i..])[i := x] == front + [x] + ms[i + 1..]
    ensures front + [ms[i]] + ms[i + 1..] == front + ms[i..]
  {
    assert ms[i..] == [ms[i]] + ms[i + 1..];
  }

  /** Once a prefix of the loop has failed, the whole loop ends with that prefix's failure and leaves the rest alone. */
  lemma {:induction false} PrefixStop<M, E>(ms: seq<M>, rs: seq<Result<M, E>>, i: nat)
    requires |rs| == |ms| && i <= |ms| && Apply(ms[..i], rs[..i]).1.Some?
    ensures Apply(ms, rs) == (Apply(ms[..i], rs[..i]).0 + ms[i..], Apply(ms[..i], rs[..i]).1)
    decreases |ms| - i
  {
    if i == |ms| {
      assert ms[..i] == ms && rs[..i] == rs;
      assert Apply(ms, rs).0 + ms[i..] == Apply(ms, rs).0;
    } else {
      ApplyStep(ms, rs, i);
      PrefixStop(ms, rs, i + 1);
      Replace(Apply(ms[..i], rs[..i]).0, ms, i, ms[i]);
    }
  }

  /** A turn of the loop that failed: the elements as they stand are those of the whole loop, which ends with that error. */
  lemma FailureStops<M, E>(ms: seq<M>, rs: seq<Result<M, E>>, i: nat, current: seq<M>)
    requires |rs| == |ms| && i < |ms| && LoopAt(ms, rs, i, current) && rs[i].Failure?
    ensures Apply(ms, rs) == (current, Some(rs[i].error))
  {
    ApplyStep(ms, rs, i);
    PrefixStop(ms, rs, i + 1);
    Replace(Apply(ms[..i], rs[..i]).0, ms, i, ms[i]);
  }

  /**
   * The pass changes nothing but var tables: each method keeps its name,
   * its staticness and its instructions, and takes the table allocation of
   * it alone gives exactly when it and every method before it were analysed.
   */
  lemma AllocateAllKeeps(mode: Mode, ms: seq<OllirMethod>, keys: seq<seq<int>>, n: int)
    requires |keys| == |ms|
    ensures forall j :: 0 <= j < |ms| ==> Outcomes(mode, ms, keys, n)[j] == AllocateMethod(mode, ms[j], keys[j], n)
    ensures forall j :: 0 <= j < |ms| ==> var m := AllocateAll(mode, ms, keys, n).0[j];
      m.name == ms[j].name && m.isStatic == ms[j].isStatic && m.instrs == ms[j].instrs &&
      m == (if SucceededBefore(Outcomes(mode, ms, keys, n), j + 1) then AllocateMethod(mode, ms[j], keys[j], n).value else ms[j])
  {
    var rs := Outcomes(mode, ms, keys, n);
    ApplyShape(ms, rs);
    forall j | 0 <= j < |ms| ensures rs[j] == AllocateMethod(mode, ms[j], keys[j], n) {
      OutcomeAt(mode, ms, keys, n, j);
    }
  }

  /** The graph built from a var table with distinct names is one colouring can work on: simple, all nodes in the map and marked. */
  lemma BuiltFresh(mode: Mode, defs: Defs, out: OutSets, keys: seq<int>, vt: VarTable)
    requires DistinctNames(vt)
    ensures var g := BuiltGraph(mode, defs, out, keys, vt); Fresh(g, AllIn(g))
  {
    var ns := NodesOf(mode, defs, out, keys, vt);
    var g := BuiltGraph(mode, defs, out, keys, vt);
    NeighboursInRange(ns);
    forall a, b | 0 <= a < |g| && 0 <= b < |g| && g[a].id == g[b].id ensures a == b {
      NodesFromTable(mode, defs, out, keys, vt, a);
      NodesFromTable(mode, defs, out, keys, vt, b);
      var i :| 0 <= i < |vt| && vt[i].desc.scope == Local && vt[i].name == ns[a].id && vt[i].desc.reg == ns[a].virtualReg;
      var j :| 0 <= j < |vt| && vt[j].desc.scope == Local && vt[j].name == ns[b].id && vt[j].desc.reg == ns[b].virtualReg;
      assert i == j;
    }
    forall a, b | 0 <= a < |g| && 0 <= b < |g| && b in g[a].edges ensures a != b && a in g[b].edges {
      EdgesExact(ns, b, a);
    }
  }

  /**
   * With the retry repaired, allocation of a method whose var table names
   * are distinct gives every local that has a node a LOCAL register at or
   * above the first free one, and interfering locals different registers;
   * without minimisation it may instead leave the table as it was.
   */
  lemma AllocateProper(m: OllirMethod, keys: seq<int>, n: int)
    requires DistinctNames(m.varTable) && DefUse(AsWritten, m.varTable, m.instrs).Success?
    ensures var du := DefUse(AsWritten, m.varTable, m.instrs).value;
      var nodes := BuiltGraph(Repaired, du.0, PassDown(m.instrs, du.0, du.1, Initial(m.instrs), 0).outM, keys, m.varTable);
      AllocateMethod(Repaired, m, keys, n).Success? &&
      ProperRun(m.varTable, m.isStatic, nodes, n, n == 0, Alloc(AllocateMethod(Repaired, m, keys, n).value.varTable, [], []))
  {
    var du := DefUse(AsWritten, m.varTable, m.instrs).value;
    var out := PassDown(m.instrs, du.0, du.1, Initial(m.instrs), 0).outM;
    var nodes := BuiltGraph(Repaired, du.0, out, keys, m.varTable);
    BuiltFresh(Repaired, du.0, out, keys, m.varTable);
    RunProper(m.varTable, m.isStatic, nodes, AllIn(nodes), n, n == 0);
  }

  /** The pass with one analyser for all methods; `methods` are the class's methods, with var tables built. */
  class RegisterAllocator {
    var methods: seq<OllirMethod>
    var analyser: LivenessAnalyser

    constructor (ms: seq<OllirMethod>)
      ensures methods == ms && fresh(analyser)
    {
      methods := ms;
      analyser := new LivenessAnalyser();
    }

    /** `allocateReg(nRegisters)`, with the IN map's key order of each method given by `keys`; the var tables each turn writes are stored in `methods` as the loop ends. */
    method AllocateReg(mode: Mode, n: int, keys: seq<seq<int>>) returns (err: Option<LivenessError>)
      requires |keys| == |methods| && forall i :: 0 <= i < |methods| ==> DistinctIds(methods[i].instrs)
      modifies this, analyser
      ensures (methods, err) == AllocateAll(mode, old(methods), keys, n)
    {
      ghost var ms := methods;
      ghost var rs := Outcomes(mode, ms, keys, n);
      LoopStart(ms, rs);
      var current := methods;
      var i := 0;
      err := None;
      while i < |current|
        invariant i <= |current| == |ms| && LoopAt(ms, rs, i, current)
        modifies analyser
      {
        LoopAtElement(ms, rs, i, current);
        var step := AllocateOne(mode, current[i], keys[i], n, ms, keys, i);
        if step.Failure? {
          FailureStops(ms, rs, i, current);
          err := Some(step.error);
          break;
        }
        SuccessMoves(ms, rs, i, current);
        current := current[i := step.value];
        i := i + 1;
      }
      if err.None? {
        AllDone(ms, rs, current);
      }
      methods := current;
    }

    /** One turn of the loop: analysis, the graph, and its colouring, with the graph's var table written back into the method. */
    method AllocateOne(mode: Mode, m: OllirMethod, keys: seq<int>, n: int, ghost ms: seq<OllirMethod>, ghost ks: seq<seq<int>>, ghost i: nat)
      returns (r: Result<OllirMethod, LivenessError>)
      requires DistinctIds(m.instrs) && |ks| == |ms| && i < |ms| && ms[i] == m && ks[i] == keys
      modifies analyser
      ensures r == Outcomes(mode, ms, ks, n)[i]
    {
      OutcomeAt(mode, ms, ks, n, i);
      var live := analyser.ComputeAnalysis(m);
      if live.Failure? {
        return Failure(live.error);
      }
      var g := new InterferenceGraph(mode, analyser.defs, live.value.1, keys, m);
      Compute(mode, g, n, n == 0);
      return Success(m.(varTable := g.varTable));
    }
  }
}
