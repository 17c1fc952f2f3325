/**
 * The liveness analysis run before register allocation, as written.
 *
 * For each instruction it records the local variable it defines and the
 * local variables it uses, then runs a backward pass over the instructions:
 * OUT(i) becomes the contents of the current IN lists of i's successors, one
 * after the other, and IN(i) the set of use(i) and of OUT(i) with one
 * occurrence of def(i) taken out. IN lists come from a hash set, so a set
 * models them; OUT lists may repeat a name, once per successor that holds
 * it, so a multiset models them.
 *
 * The pass repeats while a change test holds, but the test asks whether the
 * new IN shares a name with the IN before the pass, which is empty on the
 * first pass: `FirstPassReportsNoChange` shows the loop runs once.
 */
module Liveness {
  import opened Wrappers
  import opened Ollir

  /** `LDC` throws; a destination that is a literal fails the cast to an operand. */
  datatype LivenessError = LdcUnsupported | NotAnOperand

  type InSets = map<int, set<string>>
  type OutSets = map<int, multiset<string>>

  /** The name of an operand that is a local variable, as a list of zero or one names. */
  function LocalName(vt: VarTable, e: Element): (r: seq<string>)
    ensures forall i :: 0 <= i < |r| ==> IsLocalVariable(vt, r[i])
    ensures |r| <= 1
  {
    if OperandName(e).Some? && IsLocalVariable(vt, OperandName(e).value) then [OperandName(e).value] else []
  }

  /** The call operands that are local variables, in operand order. */
  function LocalNames(vt: VarTable, es: seq<Element>): (r: seq<string>)
    ensures forall i :: 0 <= i < |r| ==> IsLocalVariable(vt, r[i])
    ensures forall x :: x in r <==> exists i :: 0 <= i < |es| && LocalName(vt, es[i]) == [x]
  {
    if |es| == 0 then []
    else
      var r := LocalNames(vt, es[..|es| - 1]) + LocalName(vt, es[|es| - 1]);
      assert forall i :: 0 <= i < |es| - 1 ==> es[..|es| - 1][i] == es[i];
      r
  }

  /**
   * `AsWritten` is `getVarsDefined`/`getVarsUsed` as written. `Repaired`
   * also counts what an instruction reads but the code drops: the operands of
   * a branch condition that is an operation (the `if (!.bool c) goto` of every
   * `while`), and the array name and indexes of an element operand, whose
   * assignment `a[i] := v` reads `a` and `i` and defines nothing.
   */
  datatype Mode = AsWritten | Repaired

  /** The local variables an operand reads. */
  function ElementUses(mode: Mode, vt: VarTable, e: Element): (r: seq<string>)
    ensures forall i :: 0 <= i < |r| ==> IsLocalVariable(vt, r[i])
  {
    LocalName(vt, e) + (if mode.Repaired? && e.ArrayOperand? then LocalNames(vt, e.indexes) else [])
  }

  /** The local variables a list of operands reads, in operand order. */
  function ElementsUses(mode: Mode, vt: VarTable, es: seq<Element>): (r: seq<string>)
    ensures forall i :: 0 <= i < |r| ==> IsLocalVariable(vt, r[i])
    ensures mode.AsWritten? ==> r == LocalNames(vt, es)
  {
    if |es| == 0 then [] else ElementsUses(mode, vt, es[..|es| - 1]) + ElementUses(mode, vt, es[|es| - 1])
  }

  /** `getVarsDefined`: only an assignment to a local variable defines a name. */
  function VarsDefined(mode: Mode, vt: VarTable, inst: Inst): (r: Result<Option<string>, LivenessError>)
    ensures r.Success? && r.value.Some? ==> inst.Assign? && IsLocalVariable(vt, r.value.value)
    ensures r.Success? && r.value.Some? ==> inst.dest.Operand? || mode.AsWritten?
    ensures r.Failure? <==> inst.Assign? && inst.dest.Literal?
  {
    match inst
    case Assign(dest, _) =>
      if dest.Literal? then Failure(NotAnOperand)
      else if mode.Repaired? && dest.ArrayOperand? then Success(None)
      else if IsLocalVariable(vt, dest.name) then Success(Some(dest.name))
      else Success(None)
    case _ => Success(None)
  }

  /** Whether reading the instruction's uses reaches an `LDC`, which throws. */
  predicate HasLdc(mode: Mode, inst: Inst) {
    inst.Ldc? || (inst.Assign? && HasLdc(mode, inst.rhs)) || (mode.Repaired? && inst.OpCond? && HasLdc(mode, inst.test))
  }

  /**
   * `getVarsUsed`: per instruction kind. As written, an assignment uses what
   * its right-hand side uses, not its destination; a branch whose condition
   * is not a single operand and a `goto` use nothing.
   */
  function VarsUsed(mode: Mode, vt: VarTable, inst: Inst): (r: Result<seq<string>, LivenessError>)
    ensures r.Success? ==> forall i :: 0 <= i < |r.value| ==> IsLocalVariable(vt, r.value[i])
    ensures r.Failure? <==> HasLdc(mode, inst)
  {
    match inst
    case Assign(dest, rhs) =>
      var u :- VarsUsed(mode, vt, rhs);
      if mode.Repaired? && dest.ArrayOperand? then Success(u + ElementUses(mode, vt, dest)) else Success(u)
    case Call(operands) => Success(ElementsUses(mode, vt, operands))
    case Goto => Success([])
    case SingleOpCond(c) => Success(ElementUses(mode, vt, c))
    case OpCond(test) => if mode.AsWritten? then Success([]) else VarsUsed(mode, vt, test)
    case Return(v) => if v.None? then Success([]) else Success(ElementUses(mode, vt, v.value))
    case PutField(_, f, v) => Success((if IsLocalVariable(vt, f) then [f] else []) + ElementUses(mode, vt, v))
    case GetField(_, f) => Success(if IsLocalVariable(vt, f) then [f] else [])
    case UnaryOp(_, o) => Success(ElementUses(mode, vt, o))
    case BinaryOp(_, l, r) => Success(ElementUses(mode, vt, l) + ElementUses(mode, vt, r))
    case NoOp(x) => Success(ElementUses(mode, vt, x))
    case Ldc(_) => Failure(LdcUnsupported)
  }

  type Defs = map<int, Option<string>>
  type Uses = map<int, seq<string>>

  predicate KeyedBy<V>(instrs: seq<Instruction>, m: map<int, V>) {
    forall i :: 0 <= i < |instrs| ==> instrs[i].id in m
  }

  /** The first loop of `computeAnalysis`: def and use of every instruction, in order, keyed by id. */
  function DefUse(mode: Mode, vt: VarTable, instrs: seq<Instruction>): (r: Result<(Defs, Uses), LivenessError>)
    ensures r.Success? ==> r.value.0.Keys == Ids(instrs) && r.value.1.Keys == Ids(instrs)
  {
    if |instrs| == 0 then Success((map[], map[]))
    else
      var front := instrs[..|instrs| - 1];
      var last := instrs[|instrs| - 1];
      var du :- DefUse(mode, vt, front);
      var d :- VarsDefined(mode, vt, last.inst);
      var u :- VarsUsed(mode, vt, last.inst);
      Success((du.0[last.id := d], du.1[last.id := u]))
  }

  /** The loop over one more instruction. */
  lemma DefUseExtend(mode: Mode, vt: VarTable, instrs: seq<Instruction>, k: nat, du: (Defs, Uses), d: Option<string>, u: seq<string>)
    requires k < |instrs| && DefUse(mode, vt, instrs[..k]) == Success(du)
    requires VarsDefined(mode, vt, instrs[k].inst) == Success(d) && VarsUsed(mode, vt, instrs[k].inst) == Success(u)
    ensures DefUse(mode, vt, instrs[..k + 1]) == Success((du.0[instrs[k].id := d], du.1[instrs[k].id := u]))
  {
    assert instrs[..k + 1][..k] == instrs[..k];
  }

  /** Only local variables are defined or used. */
  lemma {:induction false} DefUseLocals(mode: Mode, vt: VarTable, instrs: seq<Instruction>)
    requires DefUse(mode, vt, instrs).Success?
    ensures forall id | id in DefUse(mode, vt, instrs).value.0 && DefUse(mode, vt, instrs).value.0[id].Some? ::
      IsLocalVariable(vt, DefUse(mode, vt, instrs).value.0[id].value)
    ensures forall id | id in DefUse(mode, vt, instrs).value.1 :: forall x | x in DefUse(mode, vt, instrs).value.1[id] ::
      IsLocalVariable(vt, x)
    decreases |instrs|
  {
    if |instrs| > 0 {
      DefUseLocals(mode, vt, instrs[..|instrs| - 1]);
    }
  }

  /** Once one instruction's def or use fails, the whole loop fails with that error. */
  lemma {:induction false} DefUsePrefixFails(mode: Mode, vt: VarTable, instrs: seq<Instruction>, k: nat, e: LivenessError)
    requires k < |instrs| && DefUse(mode, vt, instrs[..k]).Success?
    requires VarsDefined(mode, vt, instrs[k].inst) == Failure(e) ||
      (VarsDefined(mode, vt, instrs[k].inst).Success? && VarsUsed(mode, vt, instrs[k].inst) == Failure(e))
    ensures DefUse(mode, vt, instrs) == Failure(e)
    decreases |instrs|
  {
    if |instrs| == k + 1 {
      assert instrs[..|instrs| - 1] == instrs[..k];
    } else {
      var front := instrs[..|instrs| - 1];
      assert front[..k] == instrs[..k];
      assert front[k] == instrs[k];
      DefUsePrefixFails(mode, vt, front, k, e);
    }
  }

  /** An empty IN list for every instruction, as the first loop puts them. */
  function EmptyIn(instrs: seq<Instruction>): (r: InSets)
    ensures r.Keys == Ids(instrs)
    ensures forall x :: x in r ==> r[x] == {}
  {
    if |instrs| == 0 then map[] else EmptyIn(instrs[..|instrs| - 1])[instrs[|instrs| - 1].id := {}]
  }

  /** An empty OUT list for every instruction, as the first loop puts them. */
  function EmptyOut(instrs: seq<Instruction>): (r: OutSets)
    ensures r.Keys == Ids(instrs)
    ensures forall x :: x in r ==> r[x] == multiset{}
  {
    if |instrs| == 0 then map[] else EmptyOut(instrs[..|instrs| - 1])[instrs[|instrs| - 1].id := multiset{}]
  }

  lemma EmptyExtend(instrs: seq<Instruction>, k: nat)
    requires k < |instrs|
    ensures EmptyIn(instrs[..k + 1]) == EmptyIn(instrs[..k])[instrs[k].id := {}]
    ensures EmptyOut(instrs[..k + 1]) == EmptyOut(instrs[..k])[instrs[k].id := multiset{}]
  {
    assert instrs[..k + 1][..k] == instrs[..k];
  }

  /** The IN list of an id; an id with no entry has none. */
  function InOf(inM: InSets, id: int): set<string> {
    if id in inM then inM[id] else {}
  }

  /** The OUT list of an id; an id with no entry has none. */
  function OutOf(outM: OutSets, id: int): multiset<string> {
    if id in outM then outM[id] else multiset{}
  }

  /** `getInVarsSuccessors`: the IN lists of the successors, one after the other; ids with no entry add nothing. */
  function SuccIn(inM: InSets, succs: seq<int>): multiset<string> {
    if |succs| == 0 then multiset{}
    else SuccIn(inM, succs[..|succs| - 1]) + multiset(InOf(inM, succs[|succs| - 1]))
  }

  /** IN(i): the names of use(i) and of OUT(i) with one occurrence of def(i) taken out. */
  function LiveIn(use: seq<string>, def: Option<string>, out: multiset<string>): set<string> {
    var liveOut := if def.Some? then out - multiset{def.value} else out;
    (set x | x in liveOut) + (set x | x in use)
  }

  datatype PassState = PassState(inM: InSets, outM: OutSets)

  /** The def and use of every instruction are recorded. */
  predicate DefUseKeyed(instrs: seq<Instruction>, defs: Defs, uses: Uses) {
    KeyedBy(instrs, defs) && KeyedBy(instrs, uses)
  }

  /** Every map has an entry for every instruction. */
  predicate Ready(instrs: seq<Instruction>, defs: Defs, uses: Uses, s: PassState) {
    DefUseKeyed(instrs, defs, uses) && KeyedBy(instrs, s.inM) && KeyedBy(instrs, s.outM)
  }

  /** `def.get(id)`: the def of an id; an id with no entry has none. */
  function DefOf(defs: Defs, id: int): Option<string> {
    if id in defs then defs[id] else None
  }

  /** The use list of an id; an id with no entry uses nothing. */
  function UseOf(uses: Uses, id: int): seq<string> {
    if id in uses then uses[id] else []
  }

  /** One step of the backward pass for instruction `ins`. */
  function Step(ins: Instruction, defs: Defs, uses: Uses, s: PassState): PassState {
    var o := SuccIn(s.inM, ins.succs);
    var newIn := LiveIn(UseOf(uses, ins.id), DefOf(defs, ins.id), o);
    PassState(s.inM[ins.id := newIn], s.outM[ins.id := o])
  }

  /** Whether the step for instruction `ins` on `s` sets the change flag. */
  predicate StepChanges(mode: Mode, ins: Instruction, defs: Defs, uses: Uses, s: PassState) {
    var o := SuccIn(s.inM, ins.succs);
    Changes(mode, InOf(s.inM, ins.id), OutOf(s.outM, ins.id), LiveIn(UseOf(uses, ins.id), DefOf(defs, ins.id), o), o)
  }

  /**
   * The change test as written: the new IN shares a name with the old IN, or
   * the new OUT shares a name with the old OUT restricted to the new IN.
   */
  predicate ChangeTest(inVars: set<string>, outVars: multiset<string>, newIn: set<string>, o: multiset<string>) {
    var kept := set x | x in outVars && x in newIn;
    (exists x | x in newIn :: x in inVars) || (exists x | x in o :: x in kept)
  }

  /**
   * The change test of a step. The corrected test reports a change when the
   * new IN differs from the old one; OUT is computed from IN lists, so a pass
   * that changes no IN leaves nothing to recompute.
   */
  predicate Changes(mode: Mode, inVars: set<string>, outVars: multiset<string>, newIn: set<string>, o: multiset<string>) {
    if mode.AsWritten? then ChangeTest(inVars, outVars, newIn, o) else newIn != inVars
  }

  /**
   * The backward pass from state `start`, stopped once the instructions at
   * positions `|instrs| - 1` down to `i` are done.
   */
  function PassDown(instrs: seq<Instruction>, defs: Defs, uses: Uses, start: PassState, i: nat): PassState
    decreases |instrs| - i
  {
    if i >= |instrs| then start else Step(instrs[i], defs, uses, PassDown(instrs, defs, uses, start, i + 1))
  }

  /** Whether some step of the pass from `start` down to position `i` sets the change flag. */
  predicate PassChanged(mode: Mode, instrs: seq<Instruction>, defs: Defs, uses: Uses, start: PassState, i: nat)
    decreases |instrs| - i
  {
    if i >= |instrs| then false
    else PassChanged(mode, instrs, defs, uses, start, i + 1) || StepChanges(mode, instrs[i], defs, uses, PassDown(instrs, defs, uses, start, i + 1))
  }

  /**
   * `states` and `flags` trace a pass from `start`, position by position from
   * the end: entry `k` is the state and the flag once the instructions from
   * `k` on have been processed.
   */
  ghost predicate IsTrace(mode: Mode, instrs: seq<Instruction>, defs: Defs, uses: Uses, start: PassState,
                          states: seq<PassState>, flags: seq<bool>)
  {
    |states| == |flags| == |instrs| + 1 && states[|instrs|] == start && !flags[|instrs|] &&
    forall k {:trigger instrs[k]} :: 0 <= k < |instrs| ==>
      states[k] == Step(instrs[k], defs, uses, states[k + 1]) &&
      flags[k] == (flags[k + 1] || StepChanges(mode, instrs[k], defs, uses, states[k + 1]))
  }

  /** The trace of the pass from `start`: its first entry is the whole pass. */
  lemma PassTrace(mode: Mode, instrs: seq<Instruction>, defs: Defs, uses: Uses, start: PassState)
    returns (states: seq<PassState>, flags: seq<bool>)
    ensures IsTrace(mode, instrs, defs, uses, start, states, flags)
    ensures states[0] == PassDown(instrs, defs, uses, start, 0)
    ensures flags[0] == PassChanged(mode, instrs, defs, uses, start, 0)
  {
    states := seq(|instrs| + 1, k requires 0 <= k => PassDown(instrs, defs, uses, start, k));
    flags := seq(|instrs| + 1, k requires 0 <= k => PassChanged(mode, instrs, defs, uses, start, k));
    forall k | 0 <= k < |instrs|
      ensures states[k] == Step(instrs[k], defs, uses, states[k + 1])
      ensures flags[k] == (flags[k + 1] || StepChanges(mode, instrs[k], defs, uses, states[k + 1]))
    {
    }
  }

  /** The step computed piece by piece, as the loop body does. */
  lemma StepIs(mode: Mode, ins: Instruction, defs: Defs, uses: Uses, s: PassState, o: multiset<string>, newIn: set<string>, c: bool)
    requires ins.id in defs && ins.id in uses && ins.id in s.inM && ins.id in s.outM
    requires o == SuccIn(s.inM, ins.succs) && newIn == LiveIn(uses[ins.id], defs[ins.id], o)
    requires c == Changes(mode, s.inM[ins.id], s.outM[ins.id], newIn, o)
    ensures Step(ins, defs, uses, s) == PassState(s.inM[ins.id := newIn], s.outM[ins.id := o])
    ensures StepChanges(mode, ins, defs, uses, s) == c
  {
  }

  /** The state every method starts its pass from: empty IN and OUT for every instruction. */
  function Initial(instrs: seq<Instruction>): PassState {
    PassState(EmptyIn(instrs), EmptyOut(instrs))
  }

  /** After a successful first loop every map is keyed by every instruction id. */
  lemma InitialReady(mode: Mode, vt: VarTable, instrs: seq<Instruction>, defs: Defs, uses: Uses)
    requires DefUse(mode, vt, instrs) == Success((defs, uses))
    ensures Ready(instrs, defs, uses, Initial(instrs))
  {
  }

  /** `computeAnalysis`: IN and OUT after the analysis, keyed by instruction id. */
  function Analysis(m: OllirMethod): Result<(InSets, OutSets), LivenessError> {
    var du :- DefUse(AsWritten, m.varTable, m.instrs);
    var s := PassDown(m.instrs, du.0, du.1, Initial(m.instrs), 0);
    Success((s.inM, s.outM))
  }

  /** Instructions at positions below `i` still have an empty IN and OUT in `s`. */
  predicate EmptyBelow(instrs: seq<Instruction>, s: PassState, i: nat)
    requires i <= |instrs|
  {
    forall j :: 0 <= j < i ==> InOf(s.inM, instrs[j].id) == {} && OutOf(s.outM, instrs[j].id) == multiset{}
  }

  /** A step on an instruction whose old IN and OUT are empty reports no change. */
  lemma StepOnEmpty(ins: Instruction, defs: Defs, uses: Uses, s: PassState)
    requires ins.id in defs && ins.id in uses
    requires InOf(s.inM, ins.id) == {} && OutOf(s.outM, ins.id) == multiset{}
    ensures !StepChanges(AsWritten, ins, defs, uses, s)
  {
  }

  lemma InitialEmpty(instrs: seq<Instruction>)
    ensures EmptyBelow(instrs, Initial(instrs), |instrs|)
  {
  }

  /** A step at position `i` keeps the positions below `i` empty and reports no change. */
  lemma EmptyStep(instrs: seq<Instruction>, defs: Defs, uses: Uses, i: nat, p: PassState)
    requires i < |instrs| && DistinctIds(instrs) && instrs[i].id in defs && instrs[i].id in uses
    requires EmptyBelow(instrs, p, i + 1)
    ensures EmptyBelow(instrs, Step(instrs[i], defs, uses, p), i) && !StepChanges(AsWritten, instrs[i], defs, uses, p)
  {
    StepOnEmpty(instrs[i], defs, uses, p);
    var s := Step(instrs[i], defs, uses, p);
    forall j | 0 <= j < i
      ensures InOf(s.inM, instrs[j].id) == {} && OutOf(s.outM, instrs[j].id) == multiset{}
    {
      assert instrs[j].id != instrs[i].id;
    }
  }

  /**
   * On the first pass every step finds the IN and OUT of its instruction
   * still empty, so no step reports a change: the do-while runs once.
   */
  lemma {:induction false} FirstPassReportsNoChange(instrs: seq<Instruction>, defs: Defs, uses: Uses, i: nat)
    requires i <= |instrs| && DistinctIds(instrs) && DefUseKeyed(instrs, defs, uses)
    ensures !PassChanged(AsWritten, instrs, defs, uses, Initial(instrs), i)
    ensures EmptyBelow(instrs, PassDown(instrs, defs, uses, Initial(instrs), i), i)
    decreases |instrs| - i
  {
    if i < |instrs| {
      FirstPassReportsNoChange(instrs, defs, uses, i + 1);
      FirstPassStep(instrs, defs, uses, i);
    } else {
      InitialEmpty(instrs);
    }
  }

  /** One step of the first pass keeps the flag down and the positions below empty. */
  lemma FirstPassStep(instrs: seq<Instruction>, defs: Defs, uses: Uses, i: nat)
    requires i < |instrs| && DistinctIds(instrs) && DefUseKeyed(instrs, defs, uses)
    requires !PassChanged(AsWritten, instrs, defs, uses, Initial(instrs), i + 1)
    requires EmptyBelow(instrs, PassDown(instrs, defs, uses, Initial(instrs), i + 1), i + 1)
    ensures !PassChanged(AsWritten, instrs, defs, uses, Initial(instrs), i)
    ensures EmptyBelow(instrs, PassDown(instrs, defs, uses, Initial(instrs), i), i)
  {
    EmptyStep(instrs, defs, uses, i, PassDown(instrs, defs, uses, Initial(instrs), i + 1));
  }

  /**
   * The analyser object. Its four maps are reset on every call, so one object
   * serves every method without one method's result leaking into the next.
   */
  class LivenessAnalyser {
    var inSets: InSets
    var outSets: OutSets
    var defs: Defs
    var uses: Uses

    constructor()
      ensures inSets == map[] && outSets == map[] && defs == map[] && uses == map[]
    {
      inSets := map[];
      outSets := map[];
      defs := map[];
      uses := map[];
    }

    /** `getInVarsSuccessors`. */
    method InVarsSuccessors(succs: seq<int>) returns (r: multiset<string>)
      ensures r == SuccIn(inSets, succs)
    {
      r := multiset{};
      var i := 0;
      while i < |succs|
        invariant 0 <= i <= |succs|
        invariant r == SuccIn(inSets, succs[..i])
      {
        assert succs[..i + 1][..i] == succs[..i];
        var s := succs[i];
        if s in inSets {
          r := r + multiset(inSets[s]);
        } else {
          assert InOf(inSets, s) == {};
        }
        i := i + 1;
      }
      assert succs[..|succs|] == succs;
    }

    /** The first loop of `computeAnalysis`: empty IN and OUT, and the def and use of every instruction. */
    method Initialise(mode: Mode, m: OllirMethod) returns (r: Result<(), LivenessError>)
      modifies this
      ensures r.Success? <==> DefUse(mode, m.varTable, m.instrs).Success?
      ensures r.Failure? ==> DefUse(mode, m.varTable, m.instrs) == Failure(r.error)
      ensures r.Success? ==> DefUse(mode, m.varTable, m.instrs) == Success((defs, uses))
      ensures r.Success? ==> inSets == EmptyIn(m.instrs) && outSets == EmptyOut(m.instrs)
    {
      var instrs := m.instrs;
      inSets, outSets, defs, uses := map[], map[], map[], map[];
      var k := 0;
      while k < |instrs|
        invariant 0 <= k <= |instrs|
        invariant inSets == EmptyIn(instrs[..k]) && outSets == EmptyOut(instrs[..k])
        invariant DefUse(mode, m.varTable, instrs[..k]) == Success((defs, uses))
      {
        var ins := instrs[k];
        ghost var du := (defs, uses);
        EmptyExtend(instrs, k);
        inSets := inSets[ins.id := {}];
        outSets := outSets[ins.id := multiset{}];
        var d := VarsDefined(mode, m.varTable, ins.inst);
        if d.Failure? {
          DefUsePrefixFails(mode, m.varTable, instrs, k, d.error);
          return Failure(d.error);
        }
        defs := defs[ins.id := d.value];
        var u := VarsUsed(mode, m.varTable, ins.inst);
        if u.Failure? {
          DefUsePrefixFails(mode, m.varTable, instrs, k, u.error);
          return Failure(u.error);
        }
        DefUseExtend(mode, m.varTable, instrs, k, du, d.value, u.value);
        uses := uses[ins.id := u.value];
        k := k + 1;
      }
      assert instrs[..|instrs|] == instrs;
      r := Success(());
    }

    /** The body of the backward loop for one instruction: its OUT, its IN, and the change test as written. */
    method UpdateInstruction(mode: Mode, ins: Instruction, changedBefore: bool) returns (changed: bool)
      requires ins.id in defs && ins.id in uses && ins.id in inSets && ins.id in outSets
      modifies this`inSets, this`outSets
      ensures forall x :: x in old(inSets) ==> x in inSets
      ensures forall x :: x in old(outSets) ==> x in outSets
      ensures PassState(inSets, outSets) == Step(ins, defs, uses, PassState(old(inSets), old(outSets)))
      ensures changed == (changedBefore || StepChanges(mode, ins, defs, uses, PassState(old(inSets), old(outSets))))
    {
      ghost var before := PassState(inSets, outSets);
      var inVars := inSets[ins.id];
      var outVars := outSets[ins.id];
      var o := InVarsSuccessors(ins.succs);
      outSets := outSets[ins.id := o];
      var newIn := LiveIn(uses[ins.id], defs[ins.id], o);
      inSets := inSets[ins.id := newIn];
      changed := changedBefore;
      if Changes(mode, inVars, outVars, newIn, o) {
        changed := true;
      }
      StepIs(mode, ins, defs, uses, before, o, newIn, Changes(mode, inVars, outVars, newIn, o));
    }

    /** One run of the do-while body: every instruction in reverse order. */
    method BackwardPass(mode: Mode, instrs: seq<Instruction>) returns (changed: bool)
      requires Ready(instrs, defs, uses, PassState(inSets, outSets))
      modifies this`inSets, this`outSets
      ensures PassState(inSets, outSets) == PassDown(instrs, defs, uses, PassState(old(inSets), old(outSets)), 0)
      ensures changed == PassChanged(mode, instrs, defs, uses, PassState(old(inSets), old(outSets)), 0)
    {
      ghost var start := PassState(inSets, outSets);
      ghost var states, flags := PassTrace(mode, instrs, defs, uses, start);
      changed := false;
      var i := |instrs|;
      while i > 0
        invariant 0 <= i <= |instrs|
        invariant PassState(inSets, outSets) == states[i] && changed == flags[i]
        invariant Ready(instrs, defs, uses, PassState(inSets, outSets))
      {
        changed := UpdateInstruction(mode, instrs[i - 1], changed);
        i := i - 1;
      }
    }

    /**
     * `computeAnalysis`: the initialisation loop, then the do-while pass, whose
     * change test leaves the loop after the first pass. Keys are instruction
     * ids, which OLLIR numbers apart.
     */
    method ComputeAnalysis(m: OllirMethod) returns (r: Result<(InSets, OutSets), LivenessError>)
      requires DistinctIds(m.instrs)
      modifies this
      ensures r == Analysis(m)
      ensures r.Success? ==> inSets == r.value.0 && outSets == r.value.1
      ensures r.Success? ==> DefUse(AsWritten, m.varTable, m.instrs) == Success((defs, uses))
    {
      var init := Initialise(AsWritten, m);
      if init.Failure? {
        return Failure(init.error);
      }
      var instrs := m.instrs;
      ghost var ds, us := defs, uses;
      InitialReady(AsWritten, m.varTable, instrs, ds, us);
      ghost var final := PassDown(instrs, ds, us, Initial(instrs), 0);
      FirstPassReportsNoChange(instrs, ds, us, 0);
      var hasChanged := true;
      var passes := 0;
      while hasChanged
        invariant defs == ds && uses == us
        invariant passes == 0 ==> hasChanged && PassState(inSets, outSets) == Initial(instrs)
        invariant passes > 0 ==> !hasChanged && inSets == final.inM && outSets == final.outM
        decreases if hasChanged then 1 else 0
      {
        hasChanged := BackwardPass(AsWritten, instrs);
        passes := passes + 1;
      }
      r := Success((inSets, outSets));
    }
  }
}
