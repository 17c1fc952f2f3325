/**
 * The constant optimisation driver: rounds of propagation followed by
 * folding over the whole program, repeated while either pass reports a
 * change. The folding pass never raises its flag, so the rounds stop after
 * the first one in which propagation substitutes nothing.
 */
module ConstantPropOpt {
  import opened Wrappers
  import opened Ast
  import opened ConstantFolding
  import opened ConstantPropagation
  import opened PropagationFacts

  /**
   * The rounds as a function: the program the driver ends with. Each round
   * that substitutes removes a variable reference, which bounds the rounds.
   * `mode` selects the propagation pass as written or with its findings
   * corrected; the driver itself is the same in both.
   */
  function Rounds(mode: Mode, t: SymbolTable, p: Program): Result<Program, JavaError>
    decreases ProgramVarRefCount(p)
  {
    var o :- PropProgram(mode, t, p);
    var f :- FoldProgram(o.p);
    ProgramProgress(mode, t, p);
    FoldProgramKeepsVarRefs(o.p);
    if o.substituted then Rounds(mode, t, f) else Success(f)
  }

  /**
   * The driver ends with a folded program whose last round propagated
   * nothing, and it never adds a variable reference.
   */
  lemma {:induction false} RoundsEnd(mode: Mode, t: SymbolTable, p: Program)
    requires Rounds(mode, t, p).Success?
    ensures ProgramVarRefCount(Rounds(mode, t, p).value) <= ProgramVarRefCount(p)
    ensures exists q :: (PropProgram(mode, t, q).Success? && !PropProgram(mode, t, q).value.substituted &&
      PropProgram(mode, t, q).value.p == q && FoldProgram(q) == Rounds(mode, t, p))
    decreases ProgramVarRefCount(p)
  {
    var o := PropProgram(mode, t, p).value;
    var f := FoldProgram(o.p).value;
    ProgramProgress(mode, t, p);
    FoldProgramKeepsVarRefs(o.p);
    if o.substituted {
      RoundsEnd(mode, t, f);
    } else {
      assert PropProgram(mode, t, p).value.p == p;
    }
  }

  /** `ConstantPropOpt.optimize`: the do-while loop over the two pass objects. */
  method Optimize(mode: Mode, t: SymbolTable, p: Program) returns (r: Result<Program, JavaError>)
    ensures r == Rounds(mode, t, p)
  {
    var prop := new Propagator(mode);
    var fold := new Folder();
    var cur := p;
    var again := true;
    while again
      invariant again ==> Rounds(mode, t, cur) == Rounds(mode, t, p)
      invariant !again ==> Success(cur) == Rounds(mode, t, p)
      decreases ProgramVarRefCount(cur) + (if again then 1 else 0)
    {
      prop.Reset();
      fold.Reset();
      var pr := prop.Visit(t, cur);
      if pr.Failure? {
        return Failure(pr.error);
      }
      var changeProp := prop.IsChanged();
      var fr := fold.Analyze(pr.value);
      if fr.Failure? {
        return Failure(fr.error);
      }
      var changeFold := fold.IsChanged();
      ProgramProgress(mode, t, cur);
      FoldProgramKeepsVarRefs(pr.value);
      cur := fr.value;
      again := changeProp || changeFold;
    }
    r := Success(cur);
  }
}
