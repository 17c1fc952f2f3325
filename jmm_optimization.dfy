/**
 * The optimisation stage's entry points and their configuration gates:
 * lowering to OLLIR, which always packs varargs first; the AST
 * optimisation, which runs the constant rounds only when optimisation is
 * on; and the OLLIR optimisation, which allocates registers unless the
 * requested count is -1. Each works in place on the result object it is
 * given and hands the same object back.
 *
 * The configuration is read from the result's options map; here it is a
 * value with the two settings. The OLLIR class unit is parsed from the
 * OLLIR text by the OLLIR library, which is not part of this model, so an
 * OLLIR result carries its methods, with var tables built, as given.
 */
module JmmOptimization {
  import opened Wrappers
  import opened Ast
  import opened OptUtils
  import Vararg = VarargOpt
  import Gen = OllirGen
  import ExprGen = OllirExprGen
  import ConstantFolding
  import Propagation = ConstantPropagation
  import ConstantPropOpt
  import Ollir
  import Liveness
  import RegisterAllocation

  /**
   * Which compiler the stage runs: the passes as written, or every pass with
   * its findings corrected. Each pass has its own switch; these map the
   * stage's choice onto them.
   */
  datatype Mode = AsWritten | Repaired

  function VarargMode(mode: Mode): Vararg.Mode { if mode.AsWritten? then Vararg.AsWritten else Vararg.Repaired }
  function GenMode(mode: Mode): ExprGen.Mode { if mode.AsWritten? then ExprGen.AsWritten else ExprGen.Repaired }
  function PropMode(mode: Mode): Propagation.Mode { if mode.AsWritten? then Propagation.AsWritten else Propagation.Repaired }
  function LiveMode(mode: Mode): Liveness.Mode { if mode.AsWritten? then Liveness.AsWritten else Liveness.Repaired }

  /** The two options the stage reads: `optimize` and `registerAllocation` (-1 when absent). */
  datatype Config = Config(optimize: bool, registerAllocation: int)

  /** A semantic analysis result: the symbol table, the tree, which passes rewrite in place, and the options. */
  class SemanticsResult {
    const table: SymbolTable
    var root: Program
    const config: Config

    constructor(table: SymbolTable, root: Program, config: Config)
      ensures this.table == table && this.root == root && this.config == config
    {
      this.table := table;
      this.root := root;
      this.config := config;
    }
  }

  /** An OLLIR result: the text, the class unit's methods, and the options. */
  class OllirResult {
    const code: string
    var methods: seq<Ollir.OllirMethod>
    const config: Config

    constructor(code: string, methods: seq<Ollir.OllirMethod>, config: Config)
      ensures this.code == code && this.methods == methods && this.config == config
    {
      this.code := code;
      this.methods := methods;
      this.config := config;
    }
  }

  /** The OLLIR text `toOllir` produces: packing, then generation from a fresh generator with no current method. */
  function Lowered(mode: Mode, t: SymbolTable, p: Program): (r: Result<string, JavaError>)
    requires forall i :: 0 <= i < |p.imports| ==> |p.imports[i]| >= 1
    ensures r.Success? ==> Vararg.VarargProgram(VarargMode(mode), t, p).Success?
  {
    var packed :- Vararg.VarargProgram(VarargMode(mode), t, p);
    var gen :- Gen.ProgramCode(ExprGen.Ctx(GenMode(mode), t, ""), packed, NoCounters());
    Success(gen.0)
  }

  /** Packing rewrites method bodies only, so the text begins with the program's own imports. */
  lemma LoweredStartsWithImports(mode: Mode, t: SymbolTable, p: Program) returns (rest: string)
    requires forall i :: 0 <= i < |p.imports| ==> |p.imports[i]| >= 1
    requires Lowered(mode, t, p).Success?
    ensures Lowered(mode, t, p).value == Gen.ImportsCode(p.imports) + rest
  {
    var packed := Vararg.VarargProgram(VarargMode(mode), t, p).value;
    assert packed.imports == p.imports;
    rest := Gen.ProgramCode(ExprGen.Ctx(GenMode(mode), t, ""), packed, NoCounters()).value.0[|Gen.ImportsCode(p.imports)|..];
  }

  /** `toOllir`: vararg packing on the tree, in place, and then OLLIR generation, whatever the options say. */
  method ToOllir(mode: Mode, sr: SemanticsResult) returns (code: Result<string, JavaError>)
    requires forall i :: 0 <= i < |sr.root.imports| ==> |sr.root.imports[i]| >= 1
    modifies sr
    ensures code == Lowered(mode, sr.table, old(sr.root))
    ensures Vararg.VarargProgram(VarargMode(mode), sr.table, old(sr.root)).Success? ==>
      sr.root == Vararg.VarargProgram(VarargMode(mode), sr.table, old(sr.root)).value
    ensures Vararg.VarargProgram(VarargMode(mode), sr.table, old(sr.root)).Failure? ==> sr.root == old(sr.root)
  {
    var packed := Vararg.VarargProgram(VarargMode(mode), sr.table, sr.root);
    if packed.Failure? {
      return Failure(packed.error);
    }
    assert packed.value.imports == sr.root.imports;
    sr.root := packed.value;
    var gen := Gen.ProgramCode(ExprGen.Ctx(GenMode(mode), sr.table, ""), sr.root, NoCounters());
    if gen.Failure? {
      return Failure(gen.error);
    }
    code := Success(gen.value.0);
  }

  /** The tree the AST `optimize` leaves: the input when optimisation is off, else the constant rounds' result. */
  function AstOptimized(mode: Mode, cfg: Config, t: SymbolTable, p: Program): (r: Result<Program, JavaError>)
    ensures !cfg.optimize ==> r == Success(p)
    ensures cfg.optimize && r.Success? ==> ConstantFolding.ProgramVarRefCount(r.value) <= ConstantFolding.ProgramVarRefCount(p)
  {
    if !cfg.optimize then Success(p)
    else
      var r := ConstantPropOpt.Rounds(PropMode(mode), t, p);
      if r.Success? then ConstantPropOpt.RoundsEnd(PropMode(mode), t, p); r
      else r
  }

  /**
   * With optimisation on, the tree the stage hands on is already stable:
   * propagating over the last round's tree substitutes nothing, and folding
   * it gives the result.
   */
  lemma OptimizedIsStable(mode: Mode, cfg: Config, t: SymbolTable, p: Program)
    requires cfg.optimize && AstOptimized(mode, cfg, t, p).Success?
    ensures exists q :: (Propagation.PropProgram(PropMode(mode), t, q).Success?
      && !Propagation.PropProgram(PropMode(mode), t, q).value.substituted
      && ConstantFolding.FoldProgram(q) == AstOptimized(mode, cfg, t, p))
  {
    ConstantPropOpt.RoundsEnd(PropMode(mode), t, p);
  }

  /** `optimize(JmmSemanticsResult)`: nothing when optimisation is off; else the constant rounds, in place, on the same result. */
  method OptimizeAst(mode: Mode, sr: SemanticsResult) returns (err: Option<JavaError>)
    modifies sr
    ensures match AstOptimized(mode, sr.config, sr.table, old(sr.root))
      case Success(q) => err.None? && sr.root == q
      case Failure(e) => err == Some(e) && sr.root == old(sr.root)
  {
    if !sr.config.optimize {
      return None;
    }
    var r := ConstantPropOpt.Optimize(PropMode(mode), sr.table, sr.root);
    if r.Failure? {
      return Some(r.error);
    }
    sr.root := r.value;
    err := None;
  }

  /** The methods the OLLIR `optimize` leaves, and the error it stops with: untouched when the count is -1, else allocation. */
  function OllirOptimized(mode: Mode, n: int, ms: seq<Ollir.OllirMethod>, keys: seq<seq<int>>): (r: (seq<Ollir.OllirMethod>, Option<Liveness.LivenessError>))
    requires |keys| == |ms|
    ensures |r.0| == |ms|
    ensures n == -1 ==> r == (ms, None)
  {
    if n == -1 then (ms, None) else RegisterAllocation.AllocateAll(LiveMode(mode), ms, keys, n)
  }

  /** Whatever the count, the stage changes only var tables: names, staticness and instructions stay. */
  lemma OllirOptimizedKeeps(mode: Mode, n: int, ms: seq<Ollir.OllirMethod>, keys: seq<seq<int>>, j: nat)
    requires |keys| == |ms| && j < |ms|
    ensures OllirOptimized(mode, n, ms, keys).0[j].name == ms[j].name
    ensures OllirOptimized(mode, n, ms, keys).0[j].isStatic == ms[j].isStatic
    ensures OllirOptimized(mode, n, ms, keys).0[j].instrs == ms[j].instrs
  {
    if n != -1 {
      RegisterAllocation.AllocateAllKeeps(LiveMode(mode), ms, keys, n);
    }
  }

  /**
   * `optimize(OllirResult)`: nothing when the count is -1; else a register
   * allocation pass over the class unit, with the count passed unchanged;
   * `keys` gives the IN map's key order of each method.
   */
  method OptimizeOllir(mode: Mode, res: OllirResult, keys: seq<seq<int>>) returns (err: Option<Liveness.LivenessError>)
    requires |keys| == |res.methods| && forall i :: 0 <= i < |res.methods| ==> Ollir.DistinctIds(res.methods[i].instrs)
    modifies res
    ensures (res.methods, err) == OllirOptimized(mode, res.config.registerAllocation, old(res.methods), keys)
  {
    var n := res.config.registerAllocation;
    if n == -1 {
      return None;
    }
    var opt := new RegisterAllocation.RegisterAllocator(res.methods);
    err := opt.AllocateReg(LiveMode(mode), n, keys);
    res.methods := opt.methods;
  }
}
