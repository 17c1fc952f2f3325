/**
 * Constant propagation over the syntax tree.
 *
 * The pass keeps, per method, a map from a variable name to the literal node
 * last assigned to it, and replaces reads of mapped local variables and
 * parameters by a copy of that literal. `Prop*` are the specification
 * functions; `Propagator` is the pass object, whose visit methods are proved
 * to compute them.
 *
 * `mode` selects the code as written or the repaired join rules (see
 * `Mode`); everything else is shared.
 */
module ConstantPropagation {
  import opened Wrappers
  import opened Ast
  import opened TypeUtils
  import opened ConstantFolding

  type Constants = map<string, Expr>

  /**
   * `AsWritten`: an `if` or `while` statement reports no assigned names (Java's
   * null), an `if` whose branch reports null throws, and a `while` leaves the
   * map as its body left it. `Repaired`: both report every name assigned
   * inside them, an `if` reads a null branch report as no names, and a
   * `while` also forgets the names assigned inside it after its body.
   */
  datatype Mode = AsWritten | Repaired

  /** `isLocal`: the name is among the current method's locals or parameters. */
  function IsLocal(t: SymbolTable, m: Option<string>, n: string): Result<bool, JavaError> {
    var locals := LocalsOf(t, m);
    if locals.None? then Failure(NullPointer)
    else if HasName(locals.value, n) then Success(true)
    else
      var params := ParamsOf(t, m);
      if params.None? then Failure(NullPointer) else Success(HasName(params.value, n))
  }

  // ---- names assigned inside a statement ----

  /** The targets of every assignment inside `s`, in tree order. */
  function AssignTargetList(s: Stmt): seq<Expr>
    decreases s, 1
  {
    match s
    case AssignStmt(t, _) => [t]
    case IfStmt(_, th, el) => AssignTargetList(th) + AssignTargetList(el)
    case WhileStmt(_, b) => AssignTargetList(b)
    case ScopeStmt(ss) => AssignTargetLists(ss)
    case _ => []
  }

  function AssignTargetLists(ss: seq<Stmt>): seq<Expr>
    decreases ss, 0
  {
    if |ss| == 0 then [] else AssignTargetLists(ss[..|ss| - 1]) + AssignTargetList(ss[|ss| - 1])
  }

  predicate AllVars(ts: seq<Expr>) { forall i :: 0 <= i < |ts| ==> ts[i].VarRef? }

  function NamesOf(ts: seq<Expr>): set<string> {
    set i | 0 <= i < |ts| && ts[i].VarRef? :: ts[i].name
  }

  /** Every name assigned anywhere inside `s`. */
  function Assigned(s: Stmt): set<string> { NamesOf(AssignTargetList(s)) }

  /** Every assignment inside `s` has a variable as its target. */
  predicate TargetsAreVars(s: Stmt) { AllVars(AssignTargetList(s)) }

  // ---- specification ----

  datatype ExprOut = ExprOut(e: Expr, substituted: bool)
  datatype ExprsOut = ExprsOut(es: seq<Expr>, substituted: bool)

  /** Visiting an expression. The map does not change inside an expression. */
  function PropExpr(t: SymbolTable, m: Option<string>, c: Constants, e: Expr): Result<ExprOut, JavaError>
    decreases e, 1
  {
    match e
    case VarRef(n) =>
      var local :- IsLocal(t, m, n);
      if local && n in c then Success(ExprOut(c[n], true)) else Success(ExprOut(e, false))
    case BinaryExpr(op, l, r) =>
      var a :- PropExpr(t, m, c, l);
      var b :- PropExpr(t, m, c, r);
      Success(ExprOut(BinaryExpr(op, a.e, b.e), a.substituted || b.substituted))
    case Paren(x) => var a :- PropExpr(t, m, c, x); Success(ExprOut(Paren(a.e), a.substituted))
    case Not(x) => var a :- PropExpr(t, m, c, x); Success(ExprOut(Not(a.e), a.substituted))
    case NewArray(x) => var a :- PropExpr(t, m, c, x); Success(ExprOut(NewArray(a.e), a.substituted))
    case ArrayLength(x) => var a :- PropExpr(t, m, c, x); Success(ExprOut(ArrayLength(a.e), a.substituted))
    case ArrayAccess(x, i) =>
      var a :- PropExpr(t, m, c, x);
      var b :- PropExpr(t, m, c, i);
      Success(ExprOut(ArrayAccess(a.e, b.e), a.substituted || b.substituted))
    case MethodCall(x, n, args) =>
      var a :- PropExpr(t, m, c, x);
      var b :- PropExprs(t, m, c, args);
      Success(ExprOut(MethodCall(a.e, n, b.es), a.substituted || b.substituted))
    case ArrayInit(es) => var b :- PropExprs(t, m, c, es); Success(ExprOut(ArrayInit(b.es), b.substituted))
    case _ => Success(ExprOut(e, false))
  }

  function PropExprs(t: SymbolTable, m: Option<string>, c: Constants, es: seq<Expr>): (r: Result<ExprsOut, JavaError>)
    ensures r.Success? ==> |r.value.es| == |es|
    decreases es, 0
  {
    if |es| == 0 then Success(ExprsOut([], false))
    else
      var a :- PropExprs(t, m, c, es[..|es| - 1]);
      var b :- PropExpr(t, m, c, es[|es| - 1]);
      Success(ExprsOut(a.es + [b.e], a.substituted || b.substituted))
  }

  /**
   * The map update of an assignment, decided before its right-hand side is
   * visited: a literal is recorded for a local or parameter, a literal for
   * anything else changes nothing, and any other value forgets the name.
   */
  function AssignUpdate(t: SymbolTable, m: Option<string>, c: Constants, target: Expr, rhs: Expr): Result<Constants, JavaError> {
    if !target.VarRef? then Failure(MissingAttribute)
    else if IsLiteral(rhs) then
      var local :- IsLocal(t, m, target.name);
      Success(if local then c[target.name := rhs] else c)
    else Success(c - {target.name})
  }

  /** The names in a visit's return value, none for Java's null. */
  function NamesOr(w: Option<set<string>>): set<string> {
    if w.Some? then w.value else {}
  }

  /** `written` is the visit's return value: a set of names, or Java's null. */
  datatype StmtOut = StmtOut(s: Stmt, c: Constants, substituted: bool, written: Option<set<string>>)
  datatype StmtsOut = StmtsOut(ss: seq<Stmt>, c: Constants, substituted: bool, written: set<string>)

  function PropStmt(mode: Mode, t: SymbolTable, m: Option<string>, c: Constants, s: Stmt): Result<StmtOut, JavaError>
    decreases s, 1
  {
    match s
    case AssignStmt(target, rhs) =>
      var c' :- AssignUpdate(t, m, c, target, rhs);
      var r :- PropExpr(t, m, c', rhs);
      Success(StmtOut(AssignStmt(target, r.e), c', r.substituted, Some({target.name})))
    case ArrayAssignStmt(n, i, v) =>
      var a :- PropExpr(t, m, c, i);
      var b :- PropExpr(t, m, c, v);
      Success(StmtOut(ArrayAssignStmt(n, a.e, b.e), c, a.substituted || b.substituted, None))
    case ExprStmt(x) =>
      var a :- PropExpr(t, m, c, x);
      Success(StmtOut(ExprStmt(a.e), c, a.substituted, None))
    case IfStmt(cond, th, el) =>
      var a :- PropExpr(t, m, c, cond);
      var tho :- PropStmt(mode, t, m, c, th);
      if mode == AsWritten && tho.written.None? then Failure(NullPointer)
      else
        var elo :- PropStmt(mode, t, m, c, el);
        if mode == AsWritten && elo.written.None? then Failure(NullPointer)
        else
          var names := NamesOr(tho.written) + NamesOr(elo.written);
          Success(StmtOut(IfStmt(a.e, tho.s, elo.s), c - names,
            a.substituted || tho.substituted || elo.substituted,
            if mode == AsWritten then None else Some(names)))
    case WhileStmt(cond, body) =>
      if !TargetsAreVars(body) then Failure(MissingAttribute)
      else
        var c0 := c - Assigned(body);
        var a :- PropExpr(t, m, c0, cond);
        var bo :- PropStmt(mode, t, m, c0, body);
        Success(StmtOut(WhileStmt(a.e, bo.s),
          if mode == AsWritten then bo.c else bo.c - Assigned(body),
          a.substituted || bo.substituted,
          if mode == AsWritten then None else Some(Assigned(body))))
    case ScopeStmt(ss) =>
      var o :- PropStmts(mode, t, m, c, ss);
      Success(StmtOut(ScopeStmt(o.ss), o.c, o.substituted, Some(o.written)))
  }

  /** A scope's children in order; the names they return are united, skipping nulls. */
  function PropStmts(mode: Mode, t: SymbolTable, m: Option<string>, c: Constants, ss: seq<Stmt>): (r: Result<StmtsOut, JavaError>)
    ensures r.Success? ==> |r.value.ss| == |ss|
    decreases ss, 0
  {
    if |ss| == 0 then Success(StmtsOut([], c, false, {}))
    else
      var a :- PropStmts(mode, t, m, c, ss[..|ss| - 1]);
      var b :- PropStmt(mode, t, m, a.c, ss[|ss| - 1]);
      Success(StmtsOut(a.ss + [b.s], b.c, a.substituted || b.substituted,
        a.written + (if b.written.Some? then b.written.value else {})))
  }

  datatype MethodOut = MethodOut(md: MethodDecl, c: Constants, substituted: bool)

  /** `visitMethodDecl`: an empty map, then the statements, then the return statements. */
  function PropMethod(mode: Mode, t: SymbolTable, md: MethodDecl): Result<MethodOut, JavaError> {
    var so :- PropStmts(mode, t, Some(md.name), map[], md.stmts);
    var ro :- PropExprs(t, Some(md.name), so.c, md.returnExprs);
    Success(MethodOut(md.(stmts := so.ss, returnExprs := ro.es), so.c, so.substituted || ro.substituted))
  }

  datatype ProgramOut = ProgramOut(p: Program, last: Option<(string, Constants)>, substituted: bool)
  datatype MethodsOut = MethodsOut(ms: seq<MethodDecl>, last: Option<(string, Constants)>, substituted: bool)

  function PropMethods(mode: Mode, t: SymbolTable, ms: seq<MethodDecl>): (r: Result<MethodsOut, JavaError>)
    ensures r.Success? ==> |r.value.ms| == |ms|
  {
    if |ms| == 0 then Success(MethodsOut([], None, false))
    else
      var a :- PropMethods(mode, t, ms[..|ms| - 1]);
      var b :- PropMethod(mode, t, ms[|ms| - 1]);
      Success(MethodsOut(a.ms + [b.md], Some((ms[|ms| - 1].name, b.c)), a.substituted || b.substituted))
  }

  /**
   * One propagation pass over the program; `last` is the method name and
   * map the pass object holds afterwards.
   */
  function PropProgram(mode: Mode, t: SymbolTable, p: Program): Result<ProgramOut, JavaError> {
    var o :- PropMethods(mode, t, p.cls.methods);
    Success(ProgramOut(p.(cls := p.cls.(methods := o.ms)), o.last, o.substituted))
  }

  // ---- a failure in a list fails the whole list ----

  lemma {:induction false} PropExprsPrefixFails(t: SymbolTable, m: Option<string>, c: Constants, es: seq<Expr>, k: nat)
    requires k <= |es| && PropExprs(t, m, c, es[..k]).Failure?
    ensures PropExprs(t, m, c, es) == Failure(PropExprs(t, m, c, es[..k]).error)
    decreases |es|
  {
    if k < |es| {
      assert es[..|es| - 1][..k] == es[..k];
      PropExprsPrefixFails(t, m, c, es[..|es| - 1], k);
    } else {
      assert es[..k] == es;
    }
  }

  lemma {:induction false} PropStmtsPrefixFails(mode: Mode, t: SymbolTable, m: Option<string>, c: Constants, ss: seq<Stmt>, k: nat)
    requires k <= |ss| && PropStmts(mode, t, m, c, ss[..k]).Failure?
    ensures PropStmts(mode, t, m, c, ss) == Failure(PropStmts(mode, t, m, c, ss[..k]).error)
    decreases |ss|
  {
    if k < |ss| {
      assert ss[..|ss| - 1][..k] == ss[..k];
      PropStmtsPrefixFails(mode, t, m, c, ss[..|ss| - 1], k);
    } else {
      assert ss[..k] == ss;
    }
  }

  lemma {:induction false} PropMethodsPrefixFails(mode: Mode, t: SymbolTable, ms: seq<MethodDecl>, k: nat)
    requires k <= |ms| && PropMethods(mode, t, ms[..k]).Failure?
    ensures PropMethods(mode, t, ms) == Failure(PropMethods(mode, t, ms[..k]).error)
    decreases |ms|
  {
    if k < |ms| {
      assert ms[..|ms| - 1][..k] == ms[..k];
      PropMethodsPrefixFails(mode, t, ms[..|ms| - 1], k);
    } else {
      assert ms[..k] == ms;
    }
  }

  // ---- the pass object ----

  /** The class's state: the constant map, the current method and the `changed` flag. */
  class Propagator {
    const mode: Mode
    var constants: Constants
    var currentMethod: Option<string>
    var changed: bool

    constructor(mode: Mode)
      ensures this.mode == mode && constants == map[] && currentMethod == None && !changed
    {
      this.mode := mode;
      constants := map[];
      currentMethod := None;
      changed := false;
    }

    function IsChanged(): bool
      reads this
    {
      changed
    }

    method Reset()
      modifies this
      ensures !changed && constants == old(constants) && currentMethod == old(currentMethod)
    {
      changed := false;
    }

    /** `visitVarRef` for a read (a target of an assignment returns before any lookup). */
    method VisitVarRef(t: SymbolTable, e: Expr) returns (r: Result<Expr, JavaError>)
      requires e.VarRef?
      modifies this
      ensures constants == old(constants) && currentMethod == old(currentMethod)
      ensures var spec := PropExpr(t, currentMethod, constants, e);
        r.Success? == spec.Success? && (r.Failure? ==> r.error == spec.error) &&
        (r.Success? ==> r.value == spec.value.e && changed == (old(changed) || spec.value.substituted))
    {
      var local := IsLocal(t, currentMethod, e.name);
      if local.Failure? {
        return Failure(local.error);
      }
      r := Success(e);
      if local.value && e.name in constants {
        r := Success(constants[e.name]);
        changed := true;
      }
    }

    method VisitExpr(t: SymbolTable, e: Expr) returns (r: Result<Expr, JavaError>)
      modifies this
      decreases e, 1
      ensures constants == old(constants) && currentMethod == old(currentMethod)
      ensures var spec := PropExpr(t, currentMethod, constants, e);
        r.Success? == spec.Success? && (r.Failure? ==> r.error == spec.error) &&
        (r.Success? ==> r.value == spec.value.e && changed == (old(changed) || spec.value.substituted))
    {
      match e
      case VarRef(_) =>
        r := VisitVarRef(t, e);
      case BinaryExpr(op, l, rr) =>
        var a := VisitExpr(t, l);
        if a.Failure? { return a; }
        var b := VisitExpr(t, rr);
        if b.Failure? { return b; }
        r := Success(BinaryExpr(op, a.value, b.value));
      case Paren(x) =>
        var a := VisitExpr(t, x);
        if a.Failure? { return a; }
        r := Success(Paren(a.value));
      case Not(x) =>
        var a := VisitExpr(t, x);
        if a.Failure? { return a; }
        r := Success(Not(a.value));
      case NewArray(x) =>
        var a := VisitExpr(t, x);
        if a.Failure? { return a; }
        r := Success(NewArray(a.value));
      case ArrayLength(x) =>
        var a := VisitExpr(t, x);
        if a.Failure? { return a; }
        r := Success(ArrayLength(a.value));
      case ArrayAccess(x, i) =>
        var a := VisitExpr(t, x);
        if a.Failure? { return a; }
        var b := VisitExpr(t, i);
        if b.Failure? { return b; }
        r := Success(ArrayAccess(a.value, b.value));
      case MethodCall(x, n, args) =>
        var a := VisitExpr(t, x);
        if a.Failure? { return a; }
        var b := VisitExprs(t, args);
        if b.Failure? { return Failure(b.error); }
        r := Success(MethodCall(a.value, n, b.value));
      case ArrayInit(es) =>
        var b := VisitExprs(t, es);
        if b.Failure? { return Failure(b.error); }
        r := Success(ArrayInit(b.value));
      case IntegerLiteral(_) => r := Success(e);
      case BooleanLiteral(_) => r := Success(e);
      case This => r := Success(e);
      case NewClass(_) => r := Success(e);
    }

    /** The children loop of the default visit. */
    method VisitExprs(t: SymbolTable, es: seq<Expr>) returns (r: Result<seq<Expr>, JavaError>)
      modifies this
      decreases es, 0
      ensures constants == old(constants) && currentMethod == old(currentMethod)
      ensures var spec := PropExprs(t, currentMethod, constants, es);
        r.Success? == spec.Success? && (r.Failure? ==> r.error == spec.error) &&
        (r.Success? ==> r.value == spec.value.es && changed == (old(changed) || spec.value.substituted))
    {
      var out: seq<Expr> := [];
      var i := 0;
      while i < |es|
        invariant 0 <= i <= |es|
        invariant constants == old(constants) && currentMethod == old(currentMethod)
        invariant PropExprs(t, currentMethod, constants, es[..i]).Success?
        invariant out == PropExprs(t, currentMethod, constants, es[..i]).value.es
        invariant changed == (old(changed) || PropExprs(t, currentMethod, constants, es[..i]).value.substituted)
      {
        assert es[..i + 1][..i] == es[..i];
        var a := VisitExpr(t, es[i]);
        if a.Failure? {
          PropExprsPrefixFails(t, currentMethod, constants, es, i + 1);
          return Failure(a.error);
        }
        out := out + [a.value];
        i := i + 1;
      }
      assert es[..i] == es;
      r := Success(out);
    }

    /** Forget every name in `names`, one at a time. */
    method RemoveAll(names: set<string>)
      modifies this
      ensures constants == old(constants) - names
      ensures currentMethod == old(currentMethod) && changed == old(changed)
    {
      var todo := names;
      while todo != {}
        invariant todo <= names
        invariant constants == old(constants) - (names - todo)
        invariant currentMethod == old(currentMethod) && changed == old(changed)
        decreases todo
      {
        var n :| n in todo;
        constants := constants - {n};
        todo := todo - {n};
      }
    }

    /** The loop of `visitWhileStmt` over the assignments inside the loop. */
    method ForgetTargets(ts: seq<Expr>) returns (ok: bool)
      modifies this
      ensures ok == AllVars(ts)
      ensures ok ==> constants == old(constants) - NamesOf(ts)
      ensures currentMethod == old(currentMethod) && changed == old(changed)
    {
      var i := 0;
      while i < |ts|
        invariant 0 <= i <= |ts|
        invariant AllVars(ts[..i])
        invariant constants == old(constants) - NamesOf(ts[..i])
        invariant currentMethod == old(currentMethod) && changed == old(changed)
      {
        if !ts[i].VarRef? {
          return false;
        }
        assert NamesOf(ts[..i + 1]) == NamesOf(ts[..i]) + {ts[i].name} by {
          assert ts[..i + 1] == ts[..i] + [ts[i]];
        }
        constants := constants - {ts[i].name};
        i := i + 1;
      }
      assert ts[..i] == ts;
      ok := true;
    }

    method VisitStmt(t: SymbolTable, s: Stmt) returns (r: Result<(Stmt, Option<set<string>>), JavaError>)
      modifies this
      decreases s, 1
      ensures currentMethod == old(currentMethod)
      ensures var spec := PropStmt(mode, t, currentMethod, old(constants), s);
        r.Success? == spec.Success? && (r.Failure? ==> r.error == spec.error) &&
        (r.Success? ==>
           r.value == (spec.value.s, spec.value.written) && constants == spec.value.c &&
           changed == (old(changed) || spec.value.substituted))
    {
      match s
      case AssignStmt(target, rhs) =>
        var upd := AssignUpdate(t, currentMethod, constants, target, rhs);
        if upd.Failure? { return Failure(upd.error); }
        constants := upd.value;
        var a := VisitExpr(t, rhs);
        if a.Failure? { return Failure(a.error); }
        r := Success((AssignStmt(target, a.value), Some({target.name})));
      case ArrayAssignStmt(n, i, v) =>
        var a := VisitExpr(t, i);
        if a.Failure? { return Failure(a.error); }
        var b := VisitExpr(t, v);
        if b.Failure? { return Failure(b.error); }
        r := Success((ArrayAssignStmt(n, a.value, b.value), None));
      case ExprStmt(x) =>
        var a := VisitExpr(t, x);
        if a.Failure? { return Failure(a.error); }
        r := Success((ExprStmt(a.value), None));
      case IfStmt(cond, th, el) =>
        var snapshot := constants;
        var a := VisitExpr(t, cond);
        if a.Failure? { return Failure(a.error); }
        var tho := VisitStmt(t, th);
        if tho.Failure? { return Failure(tho.error); }
        if mode == AsWritten && tho.value.1.None? { return Failure(NullPointer); }
        var names := NamesOr(tho.value.1);
        constants := snapshot;
        var elo := VisitStmt(t, el);
        if elo.Failure? { return Failure(elo.error); }
        if mode == AsWritten && elo.value.1.None? { return Failure(NullPointer); }
        names := names + NamesOr(elo.value.1);
        constants := snapshot;
        RemoveAll(names);
        r := Success((IfStmt(a.value, tho.value.0, elo.value.0), if mode == AsWritten then None else Some(names)));
      case WhileStmt(cond, body) =>
        var ok := ForgetTargets(AssignTargetList(body));
        if !ok { return Failure(MissingAttribute); }
        var a := VisitExpr(t, cond);
        if a.Failure? { return Failure(a.error); }
        var bo := VisitStmt(t, body);
        if bo.Failure? { return Failure(bo.error); }
        if mode == Repaired {
          RemoveAll(Assigned(body));
        }
        r := Success((WhileStmt(a.value, bo.value.0), if mode == AsWritten then None else Some(Assigned(body))));
      case ScopeStmt(ss) =>
        var o := VisitStmts(t, ss);
        if o.Failure? { return Failure(o.error); }
        r := Success((ScopeStmt(o.value.0), Some(o.value.1)));
    }

    /** `visitScopeStmt`'s loop over the children. */
    method VisitStmts(t: SymbolTable, ss: seq<Stmt>) returns (r: Result<(seq<Stmt>, set<string>), JavaError>)
      modifies this
      decreases ss, 0
      ensures currentMethod == old(currentMethod)
      ensures var spec := PropStmts(mode, t, currentMethod, old(constants), ss);
        r.Success? == spec.Success? && (r.Failure? ==> r.error == spec.error) &&
        (r.Success? ==>
           r.value == (spec.value.ss, spec.value.written) && constants == spec.value.c &&
           changed == (old(changed) || spec.value.substituted))
    {
      var out: seq<Stmt> := [];
      var names: set<string> := {};
      var i := 0;
      while i < |ss|
        invariant 0 <= i <= |ss|
        invariant currentMethod == old(currentMethod)
        invariant PropStmts(mode, t, currentMethod, old(constants), ss[..i]).Success?
        invariant var spec := PropStmts(mode, t, currentMethod, old(constants), ss[..i]).value;
          out == spec.ss && names == spec.written && constants == spec.c
          && changed == (old(changed) || spec.substituted)
      {
        assert ss[..i + 1][..i] == ss[..i];
        var b := VisitStmt(t, ss[i]);
        if b.Failure? {
          PropStmtsPrefixFails(mode, t, currentMethod, old(constants), ss, i + 1);
          return Failure(b.error);
        }
        out := out + [b.value.0];
        if b.value.1.Some? {
          names := names + b.value.1.value;
        }
        i := i + 1;
      }
      assert ss[..i] == ss;
      r := Success((out, names));
    }

    /** `visitMethodDecl`. */
    method VisitMethodDecl(t: SymbolTable, md: MethodDecl) returns (r: Result<MethodDecl, JavaError>)
      modifies this
      ensures currentMethod == Some(md.name)
      ensures var spec := PropMethod(mode, t, md);
        r.Success? == spec.Success? && (r.Failure? ==> r.error == spec.error) &&
        (r.Success? ==>
           r.value == spec.value.md && constants == spec.value.c &&
           changed == (old(changed) || spec.value.substituted))
    {
      constants := map[];
      currentMethod := Some(md.name);
      var so := VisitStmts(t, md.stmts);
      if so.Failure? { return Failure(so.error); }
      var ro := VisitExprs(t, md.returnExprs);
      if ro.Failure? { return Failure(ro.error); }
      r := Success(md.(stmts := so.value.0, returnExprs := ro.value));
    }

    /** `visit(root)`: the methods of the class, in order. */
    method Visit(t: SymbolTable, p: Program) returns (r: Result<Program, JavaError>)
      modifies this
      ensures var spec := PropProgram(mode, t, p);
        r.Success? == spec.Success? && (r.Failure? ==> r.error == spec.error) &&
        (r.Success? ==>
           r.value == spec.value.p && changed == (old(changed) || spec.value.substituted) &&
           (spec.value.last.Some? ==> currentMethod == Some(spec.value.last.value.0) && constants == spec.value.last.value.1) &&
           (spec.value.last.None? ==> currentMethod == old(currentMethod) && constants == old(constants)))
    {
      var ms := p.cls.methods;
      var out: seq<MethodDecl> := [];
      var i := 0;
      while i < |ms|
        invariant 0 <= i <= |ms|
        invariant PropMethods(mode, t, ms[..i]).Success?
        invariant var spec := PropMethods(mode, t, ms[..i]).value;
          out == spec.ms && changed == (old(changed) || spec.substituted)
          && (spec.last.Some? ==> currentMethod == Some(spec.last.value.0) && constants == spec.last.value.1)
          && (spec.last.None? ==> currentMethod == old(currentMethod) && constants == old(constants))
      {
        assert ms[..i + 1][..i] == ms[..i];
        var md := VisitMethodDecl(t, ms[i]);
        if md.Failure? {
          PropMethodsPrefixFails(mode, t, ms, i + 1);
          return Failure(md.error);
        }
        out := out + [md.value];
        i := i + 1;
      }
      assert ms[..i] == ms;
      r := Success(p.(cls := p.cls.(methods := out)));
    }
  }
}
