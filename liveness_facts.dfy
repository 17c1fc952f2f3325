/**
 * What the backward pass guarantees: IN and OUT only ever hold local
 * variables, an entry is final once its instruction is passed, and on a
 * method whose successors all come later in the list (no loop) the single
 * pass solves the liveness equations.
 */
module LivenessFacts {
  import opened Wrappers
  import opened Ollir
  import opened Liveness

  /** Every name in every IN and OUT list is a local variable. */
  predicate LocalsOnly(vt: VarTable, s: PassState) {
    (forall id | id in s.inM :: forall x | x in s.inM[id] :: IsLocalVariable(vt, x)) &&
    (forall id | id in s.outM :: forall x | x in s.outM[id] :: IsLocalVariable(vt, x))
  }

  /** Every defined and every used name is a local variable. */
  predicate LocalDefUse(vt: VarTable, defs: Defs, uses: Uses) {
    (forall id | id in defs && defs[id].Some? :: IsLocalVariable(vt, defs[id].value)) &&
    (forall id | id in uses :: forall x | x in uses[id] :: IsLocalVariable(vt, x))
  }

  lemma {:induction false} SuccInLocals(vt: VarTable, inM: InSets, succs: seq<int>)
    requires forall id | id in inM :: forall x | x in inM[id] :: IsLocalVariable(vt, x)
    ensures forall x | x in SuccIn(inM, succs) :: IsLocalVariable(vt, x)
    decreases |succs|
  {
    if |succs| > 0 {
      SuccInLocals(vt, inM, succs[..|succs| - 1]);
    }
  }

  lemma StepLocals(vt: VarTable, ins: Instruction, defs: Defs, uses: Uses, s: PassState)
    requires LocalsOnly(vt, s) && LocalDefUse(vt, defs, uses)
    ensures LocalsOnly(vt, Step(ins, defs, uses, s))
  {
    SuccInLocals(vt, s.inM, ins.succs);
  }

  lemma {:induction false} PassDownLocals(vt: VarTable, instrs: seq<Instruction>, defs: Defs, uses: Uses, start: PassState, i: nat)
    requires i <= |instrs|
    requires LocalsOnly(vt, start) && LocalDefUse(vt, defs, uses)
    ensures LocalsOnly(vt, PassDown(instrs, defs, uses, start, i))
    decreases |instrs| - i
  {
    if i < |instrs| {
      PassDownLocals(vt, instrs, defs, uses, start, i + 1);
      PassDownStepLocals(vt, instrs, defs, uses, start, i);
    } else {
      assert i == |instrs|;
    }
  }

  lemma PassDownStepLocals(vt: VarTable, instrs: seq<Instruction>, defs: Defs, uses: Uses, start: PassState, i: nat)
    requires i < |instrs| && LocalDefUse(vt, defs, uses)
    requires LocalsOnly(vt, PassDown(instrs, defs, uses, start, i + 1))
    ensures LocalsOnly(vt, PassDown(instrs, defs, uses, start, i))
  {
    PassDownAt(instrs, defs, uses, start, i);
    StepLocals(vt, instrs[i], defs, uses, PassDown(instrs, defs, uses, start, i + 1));
  }

  /** A pass from a state keyed by every instruction adds no key and drops none. */
  lemma {:induction false} PassDownKeys(instrs: seq<Instruction>, defs: Defs, uses: Uses, start: PassState, i: nat)
    requires i <= |instrs| && Ready(instrs, defs, uses, start)
    ensures PassDown(instrs, defs, uses, start, i).inM.Keys == start.inM.Keys
    ensures PassDown(instrs, defs, uses, start, i).outM.Keys == start.outM.Keys
    decreases |instrs| - i
  {
    if i < |instrs| {
      PassDownKeys(instrs, defs, uses, start, i + 1);
      PassDownAt(instrs, defs, uses, start, i);
    } else {
      assert i == |instrs|;
    }
  }

  /** The analysis as written keys IN and OUT by instruction id and only ever lists local variables. */
  lemma AnalysisLocals(m: OllirMethod)
    requires Analysis(m).Success?
    ensures Analysis(m).value.0.Keys == Ids(m.instrs) && Analysis(m).value.1.Keys == Ids(m.instrs)
    ensures forall id | id in Analysis(m).value.0 :: forall x | x in Analysis(m).value.0[id] :: IsLocalVariable(m.varTable, x)
    ensures forall id | id in Analysis(m).value.1 :: forall x | x in Analysis(m).value.1[id] :: IsLocalVariable(m.varTable, x)
  {
    var du := DefUse(AsWritten, m.varTable, m.instrs).value;
    DefUseLocals(AsWritten, m.varTable, m.instrs);
    InitialReady(AsWritten, m.varTable, m.instrs, du.0, du.1);
    PassDownKeys(m.instrs, du.0, du.1, Initial(m.instrs), 0);
    PassDownLocals(m.varTable, m.instrs, du.0, du.1, Initial(m.instrs), 0);
  }

  // ---- which entries a pass has settled ----

  /** The IN and OUT of one id. */
  function Entry(s: PassState, id: int): (set<string>, multiset<string>) {
    (InOf(s.inM, id), OutOf(s.outM, id))
  }

  /** A step changes only its own instruction's entries. */
  lemma StepOther(ins: Instruction, defs: Defs, uses: Uses, s: PassState, id: int)
    requires id != ins.id
    ensures Entry(Step(ins, defs, uses, s), id) == Entry(s, id)
  {
  }

  /** The pass at position `k` is the step of instruction `k` on the pass below it. */
  lemma PassDownAt(instrs: seq<Instruction>, defs: Defs, uses: Uses, start: PassState, k: nat)
    requires k < |instrs|
    ensures PassDown(instrs, defs, uses, start, k) == Step(instrs[k], defs, uses, PassDown(instrs, defs, uses, start, k + 1))
  {
  }

  /** Passing position `k` leaves every other id's entries alone. */
  lemma PassDownOther(instrs: seq<Instruction>, defs: Defs, uses: Uses, start: PassState, k: nat, id: int)
    requires k < |instrs| && id != instrs[k].id
    ensures Entry(PassDown(instrs, defs, uses, start, k), id) == Entry(PassDown(instrs, defs, uses, start, k + 1), id)
  {
    PassDownAt(instrs, defs, uses, start, k);
    StepOther(instrs[k], defs, uses, PassDown(instrs, defs, uses, start, k + 1), id);
  }

  /** Once the pass is below position `j`, the entries of instruction `j` change no more. */
  lemma {:induction false} Stable(instrs: seq<Instruction>, defs: Defs, uses: Uses, start: PassState, k: nat, j: nat)
    requires k <= j < |instrs|
    requires forall m :: k <= m < j ==> instrs[m].id != instrs[j].id
    ensures Entry(PassDown(instrs, defs, uses, start, k), instrs[j].id) == Entry(PassDown(instrs, defs, uses, start, j), instrs[j].id)
    decreases j - k
  {
    if k < j {
      Stable(instrs, defs, uses, start, k + 1, j);
      PassDownOther(instrs, defs, uses, start, k, instrs[j].id);
    } else {
      assert k == j;
    }
  }

  /** An id no instruction from position `k` on carries keeps the entries it started with. */
  lemma {:induction false} Untouched(instrs: seq<Instruction>, defs: Defs, uses: Uses, start: PassState, k: nat, id: int)
    requires k <= |instrs|
    requires forall m :: k <= m < |instrs| ==> instrs[m].id != id
    ensures Entry(PassDown(instrs, defs, uses, start, k), id) == Entry(start, id)
    decreases |instrs| - k
  {
    if k < |instrs| {
      Untouched(instrs, defs, uses, start, k + 1, id);
      PassDownOther(instrs, defs, uses, start, k, id);
    } else {
      assert k == |instrs|;
    }
  }

  /** Successor lists see only the IN lists of the successors. */
  lemma {:induction false} SuccInAgree(a: InSets, b: InSets, succs: seq<int>)
    requires forall i :: 0 <= i < |succs| ==> InOf(a, succs[i]) == InOf(b, succs[i])
    ensures SuccIn(a, succs) == SuccIn(b, succs)
    decreases |succs|
  {
    if |succs| > 0 {
      SuccInAgree(a, b, succs[..|succs| - 1]);
    }
  }

  // ---- the liveness equations ----

  /** OUT(i) is its successors' IN lists and IN(i) is use(i) plus OUT(i) without def(i). */
  predicate Equations(ins: Instruction, defs: Defs, uses: Uses, s: PassState) {
    OutOf(s.outM, ins.id) == SuccIn(s.inM, ins.succs) &&
    InOf(s.inM, ins.id) == LiveIn(UseOf(uses, ins.id), DefOf(defs, ins.id), OutOf(s.outM, ins.id))
  }

  /** Every instruction has its entries and satisfies the equations in `s`. */
  predicate Solution(instrs: seq<Instruction>, defs: Defs, uses: Uses, s: PassState) {
    Ready(instrs, defs, uses, s) && forall i :: 0 <= i < |instrs| ==> Equations(instrs[i], defs, uses, s)
  }

  /** Every successor of position `i` at or above `i` in the list already had its final IN when the pass started. */
  predicate SettledAt(instrs: seq<Instruction>, defs: Defs, uses: Uses, start: PassState, i: nat)
    requires i < |instrs|
  {
    forall j :: 0 <= j <= i && instrs[j].id in instrs[i].succs ==>
      InOf(start.inM, instrs[j].id) == InOf(PassDown(instrs, defs, uses, start, 0).inM, instrs[j].id)
  }

  /** The successor `c` of position `i` has the same IN just before `i` is passed as after the pass. */
  lemma SuccSettled(instrs: seq<Instruction>, defs: Defs, uses: Uses, start: PassState, i: nat, c: int)
    requires DistinctIds(instrs)
    requires i < |instrs| && SettledAt(instrs, defs, uses, start, i) && c in instrs[i].succs
    ensures InOf(PassDown(instrs, defs, uses, start, i + 1).inM, c) == InOf(PassDown(instrs, defs, uses, start, 0).inM, c)
  {
    if c in Ids(instrs) {
      IdsOnlyIds(instrs, c);
      var j :| 0 <= j < |instrs| && instrs[j].id == c;
      if j <= i {
        SettledBelow(instrs, defs, uses, start, i, j);
      } else {
        SettledAbove(instrs, defs, uses, start, i, j);
      }
    } else {
      SettledOutside(instrs, defs, uses, start, i, c);
    }
  }

  /** A successor below position `i` has its final IN before `i` is passed. */
  lemma SettledAbove(instrs: seq<Instruction>, defs: Defs, uses: Uses, start: PassState, i: nat, j: nat)
    requires DistinctIds(instrs)
    requires i < j < |instrs|
    ensures InOf(PassDown(instrs, defs, uses, start, i + 1).inM, instrs[j].id) == InOf(PassDown(instrs, defs, uses, start, 0).inM, instrs[j].id)
  {
    Stable(instrs, defs, uses, start, i + 1, j);
    Stable(instrs, defs, uses, start, 0, j);
  }

  /** A successor that is no instruction keeps its IN throughout the pass. */
  lemma SettledOutside(instrs: seq<Instruction>, defs: Defs, uses: Uses, start: PassState, i: nat, c: int)
    requires i < |instrs| && c !in Ids(instrs)
    ensures InOf(PassDown(instrs, defs, uses, start, i + 1).inM, c) == InOf(PassDown(instrs, defs, uses, start, 0).inM, c)
  {
    Untouched(instrs, defs, uses, start, i + 1, c);
    Untouched(instrs, defs, uses, start, 0, c);
  }

  /** A settled successor at or above position `i` is untouched by the rest of the pass. */
  lemma SettledBelow(instrs: seq<Instruction>, defs: Defs, uses: Uses, start: PassState, i: nat, j: nat)
    requires DistinctIds(instrs)
    requires j <= i < |instrs| && SettledAt(instrs, defs, uses, start, i) && instrs[j].id in instrs[i].succs
    ensures InOf(PassDown(instrs, defs, uses, start, i + 1).inM, instrs[j].id) == InOf(PassDown(instrs, defs, uses, start, 0).inM, instrs[j].id)
  {
    Untouched(instrs, defs, uses, start, i + 1, instrs[j].id);
  }

  /**
   * After the pass, instruction `i` satisfies the equations, provided every
   * successor at or above it in the list had its final IN already.
   */
  lemma EquationAt(instrs: seq<Instruction>, defs: Defs, uses: Uses, start: PassState, i: nat)
    requires DistinctIds(instrs)
    requires i < |instrs| && SettledAt(instrs, defs, uses, start, i)
    ensures Equations(instrs[i], defs, uses, PassDown(instrs, defs, uses, start, 0))
  {
    var f := PassDown(instrs, defs, uses, start, 0);
    var p := PassDown(instrs, defs, uses, start, i + 1);
    Stable(instrs, defs, uses, start, 0, i);
    PassDownAt(instrs, defs, uses, start, i);
    var succs := instrs[i].succs;
    forall k | 0 <= k < |succs|
      ensures InOf(p.inM, succs[k]) == InOf(f.inM, succs[k])
    {
      SuccSettled(instrs, defs, uses, start, i, succs[k]);
    }
    SuccInAgree(p.inM, f.inM, succs);
  }

  /** Every successor comes later in the list or is no instruction's id: the method has no loop. */
  predicate ForwardOnly(instrs: seq<Instruction>) {
    forall i, j :: 0 <= j <= i < |instrs| ==> instrs[j].id !in instrs[i].succs
  }

  /** Without loops no successor of any position is at or above it, so every position is settled. */
  lemma ForwardSettled(instrs: seq<Instruction>, defs: Defs, uses: Uses, start: PassState, i: nat)
    requires ForwardOnly(instrs) && i < |instrs|
    ensures SettledAt(instrs, defs, uses, start, i)
  {
  }

  /** Without loops one pass from any state keyed by every instruction solves the equations. */
  lemma ForwardSolution(instrs: seq<Instruction>, defs: Defs, uses: Uses, start: PassState)
    requires DistinctIds(instrs) && ForwardOnly(instrs) && Ready(instrs, defs, uses, start)
    ensures Solution(instrs, defs, uses, PassDown(instrs, defs, uses, start, 0))
  {
    PassDownKeys(instrs, defs, uses, start, 0);
    forall i | 0 <= i < |instrs|
      ensures Equations(instrs[i], defs, uses, PassDown(instrs, defs, uses, start, 0))
    {
      ForwardSettled(instrs, defs, uses, start, i);
      EquationAt(instrs, defs, uses, start, i);
    }
  }

  /** On a method without loops the single pass as written solves the equations for every instruction. */
  lemma AnalysisSolvesForward(m: OllirMethod)
    requires DistinctIds(m.instrs) && ForwardOnly(m.instrs) && Analysis(m).Success?
    ensures Solution(m.instrs, DefUse(AsWritten, m.varTable, m.instrs).value.0, DefUse(AsWritten, m.varTable, m.instrs).value.1,
      PassState(Analysis(m).value.0, Analysis(m).value.1))
  {
    var du := DefUse(AsWritten, m.varTable, m.instrs).value;
    InitialReady(AsWritten, m.varTable, m.instrs, du.0, du.1);
    ForwardSolution(m.instrs, du.0, du.1, Initial(m.instrs));
  }
}
