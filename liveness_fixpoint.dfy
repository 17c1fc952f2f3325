/**
 * The liveness analysis as its do-while loop evidently intends it: the
 * corrected def/use rules, a change test that reports a change whenever an
 * instruction's IN differs from its previous value, and backward passes
 * repeated until a pass changes nothing.
 *
 * The passes only ever add names, every name is a local variable of the
 * method, and so the loop stops; when it stops, IN and OUT are the least
 * solution of the liveness equations.
 */
module LivenessFixpoint {
  import opened Wrappers
  import opened Ollir
  import opened Liveness
  import opened LivenessFacts

  /** Every IN list of `a` is contained in the IN list of the same id in `b`. */
  ghost predicate InLe(a: InSets, b: InSets) {
    forall id :: InOf(a, id) <= InOf(b, id)
  }

  // ---- a pass is monotone in the IN lists it starts from ----

  lemma {:induction false} SuccInMono(a: InSets, b: InSets, succs: seq<int>)
    requires InLe(a, b)
    ensures SuccIn(a, succs) <= SuccIn(b, succs)
    decreases |succs|
  {
    if |succs| > 0 {
      SuccInMono(a, b, succs[..|succs| - 1]);
      assert InOf(a, succs[|succs| - 1]) <= InOf(b, succs[|succs| - 1]);
    }
  }

  lemma LiveInMono(use: seq<string>, def: Option<string>, o1: multiset<string>, o2: multiset<string>)
    requires o1 <= o2
    ensures LiveIn(use, def, o1) <= LiveIn(use, def, o2)
  {
    if def.Some? {
      assert o1 - multiset{def.value} <= o2 - multiset{def.value};
    }
  }

  lemma StepMono(ins: Instruction, defs: Defs, uses: Uses, s: PassState, t: PassState)
    requires InLe(s.inM, t.inM)
    ensures InLe(Step(ins, defs, uses, s).inM, Step(ins, defs, uses, t).inM)
  {
    SuccInMono(s.inM, t.inM, ins.succs);
    LiveInMono(UseOf(uses, ins.id), DefOf(defs, ins.id), SuccIn(s.inM, ins.succs), SuccIn(t.inM, ins.succs));
    var a := Step(ins, defs, uses, s).inM;
    var b := Step(ins, defs, uses, t).inM;
    forall id ensures InOf(a, id) <= InOf(b, id) {
      if id != ins.id {
        assert InOf(s.inM, id) <= InOf(t.inM, id);
      }
    }
  }

  lemma {:induction false} PassDownMono(instrs: seq<Instruction>, defs: Defs, uses: Uses, s: PassState, t: PassState, i: nat)
    requires i <= |instrs| && InLe(s.inM, t.inM)
    ensures InLe(PassDown(instrs, defs, uses, s, i).inM, PassDown(instrs, defs, uses, t, i).inM)
    decreases |instrs| - i
  {
    if i < |instrs| {
      PassDownMono(instrs, defs, uses, s, t, i + 1);
      PassDownAt(instrs, defs, uses, s, i);
      PassDownAt(instrs, defs, uses, t, i);
      StepMono(instrs[i], defs, uses, PassDown(instrs, defs, uses, s, i + 1), PassDown(instrs, defs, uses, t, i + 1));
    } else {
      assert i == |instrs|;
    }
  }

  // ---- the corrected change test ----

  /** A step whose corrected test reports no change leaves every IN list as it was. */
  lemma QuietStep(ins: Instruction, defs: Defs, uses: Uses, s: PassState)
    requires !StepChanges(Repaired, ins, defs, uses, s)
    ensures forall id :: InOf(Step(ins, defs, uses, s).inM, id) == InOf(s.inM, id)
  {
    var o := SuccIn(s.inM, ins.succs);
    assert LiveIn(UseOf(uses, ins.id), DefOf(defs, ins.id), o) == InOf(s.inM, ins.id);
  }

  /** Along a pass whose corrected test has reported nothing yet, every IN list is as the pass found it. */
  lemma {:induction false} TraceQuiet(instrs: seq<Instruction>, defs: Defs, uses: Uses, start: PassState,
                                      states: seq<PassState>, flags: seq<bool>, i: nat, id: int)
    requires IsTrace(Repaired, instrs, defs, uses, start, states, flags)
    requires i <= |instrs| && !flags[i]
    ensures InOf(states[i].inM, id) == InOf(start.inM, id)
    decreases |instrs| - i
  {
    if i < |instrs| {
      assert instrs[i] == instrs[i];
      TraceQuiet(instrs, defs, uses, start, states, flags, i + 1, id);
      QuietStep(instrs[i], defs, uses, states[i + 1]);
    }
  }

  /** A pass whose corrected test reports no change leaves every IN list as it was. */
  lemma NoChangeKeepsIn(instrs: seq<Instruction>, defs: Defs, uses: Uses, start: PassState)
    requires !PassChanged(Repaired, instrs, defs, uses, start, 0)
    ensures forall id :: InOf(PassDown(instrs, defs, uses, start, 0).inM, id) == InOf(start.inM, id)
  {
    var states, flags := PassTrace(Repaired, instrs, defs, uses, start);
    forall id ensures InOf(PassDown(instrs, defs, uses, start, 0).inM, id) == InOf(start.inM, id) {
      TraceQuiet(instrs, defs, uses, start, states, flags, 0, id);
    }
  }

  /** When the corrected test reports a change, some step reported it. */
  lemma {:induction false} ChangeAtSomeStep(instrs: seq<Instruction>, defs: Defs, uses: Uses, start: PassState, i: nat)
    requires i <= |instrs|
    requires PassChanged(Repaired, instrs, defs, uses, start, i)
    ensures exists k :: i <= k < |instrs| && StepChanges(Repaired, instrs[k], defs, uses, PassDown(instrs, defs, uses, start, k + 1))
    decreases |instrs| - i
  {
    if !StepChanges(Repaired, instrs[i], defs, uses, PassDown(instrs, defs, uses, start, i + 1)) {
      ChangeAtSomeStep(instrs, defs, uses, start, i + 1);
    }
  }

  /** A step reporting a change leaves its instruction with an IN list other than the one the pass started with. */
  lemma ChangedEntry(instrs: seq<Instruction>, defs: Defs, uses: Uses, start: PassState, k: nat)
    requires DistinctIds(instrs) && k < |instrs|
    requires StepChanges(Repaired, instrs[k], defs, uses, PassDown(instrs, defs, uses, start, k + 1))
    ensures InOf(PassDown(instrs, defs, uses, start, 0).inM, instrs[k].id) != InOf(start.inM, instrs[k].id)
  {
    Untouched(instrs, defs, uses, start, k + 1, instrs[k].id);
    PassDownAt(instrs, defs, uses, start, k);
    Stable(instrs, defs, uses, start, 0, k);
  }

  /** The corrected test reports a change exactly when the pass changes some instruction's IN list. */
  lemma ChangedIff(instrs: seq<Instruction>, defs: Defs, uses: Uses, start: PassState)
    requires DistinctIds(instrs)
    ensures PassChanged(Repaired, instrs, defs, uses, start, 0) <==>
      exists k :: 0 <= k < |instrs| && InOf(PassDown(instrs, defs, uses, start, 0).inM, instrs[k].id) != InOf(start.inM, instrs[k].id)
  {
    if PassChanged(Repaired, instrs, defs, uses, start, 0) {
      ChangeAtSomeStep(instrs, defs, uses, start, 0);
      var k :| 0 <= k < |instrs| && StepChanges(Repaired, instrs[k], defs, uses, PassDown(instrs, defs, uses, start, k + 1));
      ChangedEntry(instrs, defs, uses, start, k);
    } else {
      NoChangeKeepsIn(instrs, defs, uses, start);
    }
  }

  // ---- a pass that changes nothing has found a solution, and any solution stays ----

  /** After a pass that changes no IN list, every instruction satisfies the equations. */
  lemma QuietPassSolves(instrs: seq<Instruction>, defs: Defs, uses: Uses, start: PassState)
    requires DistinctIds(instrs) && Ready(instrs, defs, uses, start)
    requires !PassChanged(Repaired, instrs, defs, uses, start, 0)
    ensures Solution(instrs, defs, uses, PassDown(instrs, defs, uses, start, 0))
  {
    NoChangeKeepsIn(instrs, defs, uses, start);
    PassDownKeys(instrs, defs, uses, start, 0);
    forall i | 0 <= i < |instrs|
      ensures Equations(instrs[i], defs, uses, PassDown(instrs, defs, uses, start, 0))
    {
      EquationAt(instrs, defs, uses, start, i);
    }
  }

  /** Along a pass from a solution every IN list stays what the solution has. */
  lemma {:induction false} TraceFixed(instrs: seq<Instruction>, defs: Defs, uses: Uses, t: PassState,
                                      states: seq<PassState>, flags: seq<bool>, i: nat)
    requires IsTrace(Repaired, instrs, defs, uses, t, states, flags)
    requires i <= |instrs| && Solution(instrs, defs, uses, t)
    ensures forall id :: InOf(states[i].inM, id) == InOf(t.inM, id)
    decreases |instrs| - i
  {
    if i < |instrs| {
      assert instrs[i] == instrs[i];
      TraceFixed(instrs, defs, uses, t, states, flags, i + 1);
      SuccInAgree(states[i + 1].inM, t.inM, instrs[i].succs);
      assert Equations(instrs[i], defs, uses, t);
    }
  }

  /** A pass from a solution computes the same IN lists again. */
  lemma SolutionFixed(instrs: seq<Instruction>, defs: Defs, uses: Uses, t: PassState)
    requires Solution(instrs, defs, uses, t)
    ensures forall id :: InOf(PassDown(instrs, defs, uses, t, 0).inM, id) == InOf(t.inM, id)
  {
    var states, flags := PassTrace(Repaired, instrs, defs, uses, t);
    TraceFixed(instrs, defs, uses, t, states, flags, 0);
  }

  /** A pass from below a solution stays below it. */
  lemma BelowSolution(instrs: seq<Instruction>, defs: Defs, uses: Uses, s: PassState, t: PassState)
    requires Solution(instrs, defs, uses, t) && InLe(s.inM, t.inM)
    ensures InLe(PassDown(instrs, defs, uses, s, 0).inM, t.inM)
  {
    PassDownMono(instrs, defs, uses, s, t, 0);
    SolutionFixed(instrs, defs, uses, t);
  }

  // ---- why the loop stops ----

  /** The local variables of the var table. */
  function LocalSet(vt: VarTable): (r: set<string>)
    ensures forall x :: IsLocalVariable(vt, x) ==> x in r
  {
    set i | 0 <= i < |vt| && vt[i].desc.scope == Local :: vt[i].name
  }

  /** The (position, local variable) pairs not yet in the IN list of that position. */
  function Missing(instrs: seq<Instruction>, names: set<string>, inM: InSets): set<(int, string)> {
    set j, x | 0 <= j < |instrs| && x in names && x !in InOf(inM, instrs[j].id) :: (j, x)
  }

  /** Every name in every IN list of `inM` is among `names`. */
  ghost predicate Bounded(names: set<string>, inM: InSets) {
    forall id :: InOf(inM, id) <= names
  }

  lemma LocalsBounded(vt: VarTable, s: PassState)
    requires LocalsOnly(vt, s)
    ensures Bounded(LocalSet(vt), s.inM)
  {
    forall id ensures InOf(s.inM, id) <= LocalSet(vt) {
      if id in s.inM {
        assert forall x | x in s.inM[id] :: IsLocalVariable(vt, x);
      }
    }
  }

  /** Growing the IN lists removes pairs from the missing set, and growing one of them strictly removes one at least. */
  lemma MissingShrinks(instrs: seq<Instruction>, names: set<string>, a: InSets, b: InSets, k: nat)
    requires InLe(a, b) && Bounded(names, b)
    requires k < |instrs| && InOf(a, instrs[k].id) != InOf(b, instrs[k].id)
    ensures Missing(instrs, names, b) < Missing(instrs, names, a)
  {
    var id := instrs[k].id;
    assert InOf(a, id) <= InOf(b, id);
    var x :| x in InOf(b, id) && x !in InOf(a, id);
    assert (k, x) in Missing(instrs, names, a);
    forall p | p in Missing(instrs, names, b) ensures p in Missing(instrs, names, a) {
      assert InOf(a, instrs[p.0].id) <= InOf(b, instrs[p.0].id);
    }
  }

  /** A pass that changes no IN list keeps the missing set. */
  lemma MissingSame(instrs: seq<Instruction>, names: set<string>, a: InSets, b: InSets)
    requires forall id :: InOf(b, id) == InOf(a, id)
    ensures Missing(instrs, names, b) == Missing(instrs, names, a)
  {
  }

  // ---- one iteration of the corrected loop ----

  /** What the loop keeps about the state `s` it is in. */
  ghost predicate Invariant(vt: VarTable, instrs: seq<Instruction>, defs: Defs, uses: Uses, s: PassState) {
    Ready(instrs, defs, uses, s) && LocalsOnly(vt, s) && LocalDefUse(vt, defs, uses) &&
    InLe(s.inM, PassDown(instrs, defs, uses, s, 0).inM) &&
    forall t :: Solution(instrs, defs, uses, t) ==> InLe(s.inM, t.inM)
  }

  lemma InitialInvariant(vt: VarTable, instrs: seq<Instruction>, defs: Defs, uses: Uses)
    requires DefUse(Repaired, vt, instrs) == Success((defs, uses))
    ensures Invariant(vt, instrs, defs, uses, Initial(instrs))
  {
    InitialReady(Repaired, vt, instrs, defs, uses);
    DefUseLocals(Repaired, vt, instrs);
    var s := Initial(instrs);
    assert forall id :: InOf(s.inM, id) == {};
  }

  /** The state after a pass keeps the invariant. */
  lemma PassKeepsInvariant(vt: VarTable, instrs: seq<Instruction>, defs: Defs, uses: Uses, s: PassState)
    requires Invariant(vt, instrs, defs, uses, s)
    ensures Invariant(vt, instrs, defs, uses, PassDown(instrs, defs, uses, s, 0))
  {
    var f := PassDown(instrs, defs, uses, s, 0);
    PassDownKeys(instrs, defs, uses, s, 0);
    PassDownLocals(vt, instrs, defs, uses, s, 0);
    PassDownMono(instrs, defs, uses, s, f, 0);
    forall t | Solution(instrs, defs, uses, t) ensures InLe(f.inM, t.inM) {
      BelowSolution(instrs, defs, uses, s, t);
    }
  }

  /** A pass that reports a change removes pairs from the missing set; one that does not keeps it. */
  lemma PassMeasure(vt: VarTable, instrs: seq<Instruction>, defs: Defs, uses: Uses, s: PassState)
    requires DistinctIds(instrs) && Invariant(vt, instrs, defs, uses, s)
    ensures var f := PassDown(instrs, defs, uses, s, 0);
      if PassChanged(Repaired, instrs, defs, uses, s, 0)
      then Missing(instrs, LocalSet(vt), f.inM) < Missing(instrs, LocalSet(vt), s.inM)
      else Missing(instrs, LocalSet(vt), f.inM) == Missing(instrs, LocalSet(vt), s.inM)
  {
    var f := PassDown(instrs, defs, uses, s, 0);
    ChangedIff(instrs, defs, uses, s);
    if PassChanged(Repaired, instrs, defs, uses, s, 0) {
      var k :| 0 <= k < |instrs| && InOf(f.inM, instrs[k].id) != InOf(s.inM, instrs[k].id);
      PassDownLocals(vt, instrs, defs, uses, s, 0);
      LocalsBounded(vt, f);
      MissingShrinks(instrs, LocalSet(vt), s.inM, f.inM, k);
    } else {
      NoChangeKeepsIn(instrs, defs, uses, s);
      MissingSame(instrs, LocalSet(vt), s.inM, f.inM);
    }
  }

  /**
   * One turn of the corrected loop: the pass keeps the invariant; it removes
   * pairs from the missing set when it reports a change, and it ends in a
   * solution when it does not.
   */
  lemma Turn(vt: VarTable, instrs: seq<Instruction>, defs: Defs, uses: Uses, s: PassState, f: PassState, changed: bool)
    requires DistinctIds(instrs) && Invariant(vt, instrs, defs, uses, s)
    requires f == PassDown(instrs, defs, uses, s, 0) && changed == PassChanged(Repaired, instrs, defs, uses, s, 0)
    ensures Invariant(vt, instrs, defs, uses, f)
    ensures changed ==> Missing(instrs, LocalSet(vt), f.inM) < Missing(instrs, LocalSet(vt), s.inM)
    ensures !changed ==> Solution(instrs, defs, uses, f)
  {
    PassKeepsInvariant(vt, instrs, defs, uses, s);
    PassMeasure(vt, instrs, defs, uses, s);
    if !changed {
      QuietPassSolves(instrs, defs, uses, s);
    }
  }

  /** `s` solves the equations and its IN lists are below those of every other solution. */
  ghost predicate LeastSolution(instrs: seq<Instruction>, defs: Defs, uses: Uses, s: PassState) {
    Solution(instrs, defs, uses, s) && forall t :: Solution(instrs, defs, uses, t) ==> InLe(s.inM, t.inM)
  }

  /** When the loop stops, its state is the least solution and lists only local variables. */
  lemma Stopped(vt: VarTable, instrs: seq<Instruction>, defs: Defs, uses: Uses, s: PassState)
    requires Invariant(vt, instrs, defs, uses, s) && Solution(instrs, defs, uses, s)
    ensures LeastSolution(instrs, defs, uses, s) && LocalsOnly(vt, s)
  {
  }

  /**
   * The analysis with the corrected def/use rules and change test, repeating
   * the backward pass until it reports no change. It fails exactly where
   * computing def and use fails; otherwise IN and OUT are the least solution
   * of the equations for every instruction, and only local variables appear.
   */
  method ComputeFixpoint(a: LivenessAnalyser, m: OllirMethod) returns (r: Result<(InSets, OutSets), LivenessError>)
    requires DistinctIds(m.instrs)
    modifies a
    ensures r.Success? <==> DefUse(Repaired, m.varTable, m.instrs).Success?
    ensures r.Failure? ==> DefUse(Repaired, m.varTable, m.instrs) == Failure(r.error)
    ensures r.Success? ==> LeastSolution(m.instrs, DefUse(Repaired, m.varTable, m.instrs).value.0,
      DefUse(Repaired, m.varTable, m.instrs).value.1, PassState(r.value.0, r.value.1))
    ensures r.Success? ==> LocalsOnly(m.varTable, PassState(r.value.0, r.value.1))
  {
    var init := a.Initialise(Repaired, m);
    if init.Failure? {
      return Failure(init.error);
    }
    var instrs := m.instrs;
    ghost var vt, ds, us := m.varTable, a.defs, a.uses;
    InitialInvariant(vt, instrs, ds, us);
    var hasChanged := true;
    while hasChanged
      invariant a.defs == ds && a.uses == us
      invariant Invariant(vt, instrs, ds, us, PassState(a.inSets, a.outSets))
      invariant !hasChanged ==> Solution(instrs, ds, us, PassState(a.inSets, a.outSets))
      decreases Missing(instrs, LocalSet(vt), a.inSets), hasChanged
    {
      ghost var s := PassState(a.inSets, a.outSets);
      hasChanged := a.BackwardPass(Repaired, instrs);
      Turn(vt, instrs, ds, us, s, PassState(a.inSets, a.outSets), hasChanged);
    }
    Stopped(vt, instrs, ds, us, PassState(a.inSets, a.outSets));
    r := Success((a.inSets, a.outSets));
  }
}
