/**
 * Constant propagation against an execution semantics of the statements.
 *
 * `Exec` relates the values of the variables before and after a statement
 * (conditions are not evaluated: either branch may run, a loop may stop after
 * any number of rounds, a value the model cannot compute is arbitrary).
 * With the repaired join rules, the pass keeps the set of executions of
 * every statement and its map describes every state the statement can
 * leave. The code as written does not: a literal assigned inside a loop
 * survives the loop, and names assigned in a nested `if` are not forgotten
 * by the enclosing one.
 */
module PropagationSoundness {
  import opened Wrappers
  import opened JavaInt
  import opened Ast
  import opened TypeUtils
  import opened ConstantFolding
  import opened ConstantPropagation
  import opened PropagationFacts

  /** The values of the method's variables. */
  type Env = map<string, Value>

  /** The value of an expression in a state; None where the model does not compute one. */
  function EvalIn(env: Env, e: Expr): Option<Value> {
    match e
    case IntegerLiteral(_) => Eval(e)
    case BooleanLiteral(_) => Eval(e)
    case VarRef(n) => if n in env then Some(env[n]) else None
    case Paren(x) => EvalIn(env, x)
    case Not(x) => (match EvalIn(env, x) case Some(BoolVal(b)) => Some(BoolVal(!b)) case _ => None)
    case BinaryExpr(op, l, r) =>
      var a :- EvalIn(env, l);
      var b :- EvalIn(env, r);
      EvalOp(op, a, b)
    case _ => None
  }

  /** `env'` is `env` with `x` set to `v`, or to some value when `v` is unknown. */
  ghost predicate Assigns(env: Env, x: string, v: Option<Value>, env': Env) {
    env'.Keys == env.Keys + {x} &&
    (forall n :: n in env && n != x ==> env'[n] == env[n]) &&
    (v.Some? ==> env'[x] == v.value)
  }

  ghost predicate Exec(s: Stmt, env: Env, env': Env, fuel: nat)
    decreases fuel, s, 1
  {
    match s
    case AssignStmt(target, rhs) => target.VarRef? && Assigns(env, target.name, EvalIn(env, rhs), env')
    case ArrayAssignStmt(_, _, _) => env' == env
    case ExprStmt(_) => env' == env
    case IfStmt(_, th, el) => Exec(th, env, env', fuel) || Exec(el, env, env', fuel)
    case WhileStmt(_, body) =>
      env' == env ||
      (fuel > 0 && exists mid {:trigger Exec(body, env, mid, fuel - 1)} ::
         Exec(body, env, mid, fuel - 1) && Exec(s, mid, env', fuel - 1))
    case ScopeStmt(ss) => ExecSeq(ss, env, env', fuel)
  }

  ghost predicate ExecSeq(ss: seq<Stmt>, env: Env, env': Env, fuel: nat)
    decreases fuel, ss, 0
  {
    if |ss| == 0 then env' == env
    else exists mid {:trigger ExecSeq(ss[..|ss| - 1], env, mid, fuel)} ::
      ExecSeq(ss[..|ss| - 1], env, mid, fuel) && Exec(ss[|ss| - 1], mid, env', fuel)
  }

  /** Every literal assigned by the statement has a Java value (the front end admits no other). */
  predicate RhsParse(s: Stmt)
    decreases s
  {
    match s
    case AssignStmt(_, rhs) => IsLiteral(rhs) ==> Eval(rhs).Some?
    case IfStmt(_, th, el) => RhsParse(th) && RhsParse(el)
    case WhileStmt(_, body) => RhsParse(body)
    case ScopeStmt(ss) => forall i :: 0 <= i < |ss| ==> RhsParse(ss[i])
    case _ => true
  }

  /** The map holds evaluable literals for locals and parameters only. */
  predicate Inv(t: SymbolTable, m: Option<string>, c: Constants) {
    forall n :: n in c ==> IsLiteral(c[n]) && Eval(c[n]).Some? && IsLocal(t, m, n) == Success(true)
  }

  /** Every entry of the map is the current value of its variable. */
  ghost predicate Agree(c: Constants, env: Env) {
    forall n :: n in c ==> n in env && Eval(c[n]) == Some(env[n])
  }

  ghost predicate EnvSameOutside(env: Env, env': Env, names: set<string>) {
    forall n :: n !in names ==> (n in env' <==> n in env) && (n in env ==> env'[n] == env[n])
  }

  // ---- what an execution can change ----

  /** A statement changes only the variables assigned inside it. */
  lemma {:induction false} ExecFrame(s: Stmt, env: Env, env': Env, fuel: nat)
    requires Exec(s, env, env', fuel)
    ensures EnvSameOutside(env, env', Assigned(s))
    decreases fuel, s, 1
  {
    match s
    case AssignStmt(target, rhs) =>
      assert AssignTargetList(s) == [target];
      assert target.name in NamesOf([target]) by { assert [target][0] == target; }
    case ArrayAssignStmt(_, _, _) =>
    case ExprStmt(_) =>
    case IfStmt(_, th, el) =>
      NamesOfAppend(AssignTargetList(th), AssignTargetList(el));
      if Exec(th, env, env', fuel) {
        ExecFrame(th, env, env', fuel);
      } else {
        ExecFrame(el, env, env', fuel);
      }
    case WhileStmt(_, body) =>
      if env' != env {
        var mid :| Exec(body, env, mid, fuel - 1) && Exec(s, mid, env', fuel - 1);
        ExecFrame(body, env, mid, fuel - 1);
        ExecFrame(s, mid, env', fuel - 1);
      }
    case ScopeStmt(ss) =>
      ExecSeqFrame(ss, env, env', fuel);
  }

  lemma {:induction false} ExecSeqFrame(ss: seq<Stmt>, env: Env, env': Env, fuel: nat)
    requires ExecSeq(ss, env, env', fuel)
    ensures EnvSameOutside(env, env', NamesOf(AssignTargetLists(ss)))
    decreases fuel, ss, 0
  {
    if |ss| > 0 {
      var init, last := ss[..|ss| - 1], ss[|ss| - 1];
      var mid :| ExecSeq(init, env, mid, fuel) && Exec(last, mid, env', fuel);
      ExecSeqFrame(init, env, mid, fuel);
      ExecFrame(last, mid, env', fuel);
      NamesOfAppend(AssignTargetLists(init), AssignTargetList(last));
    }
  }

  // ---- expressions ----

  /** Substituting agreeing constants keeps the value of an expression. */
  lemma {:induction false} ExprSound(t: SymbolTable, m: Option<string>, c: Constants, e: Expr, env: Env)
    requires Inv(t, m, c) && Agree(c, env) && PropExpr(t, m, c, e).Success?
    ensures EvalIn(env, PropExpr(t, m, c, e).value.e) == EvalIn(env, e)
    decreases e
  {
    match e
    case BinaryExpr(_, l, r) => ExprSound(t, m, c, l, env); ExprSound(t, m, c, r, env);
    case Paren(x) => ExprSound(t, m, c, x, env);
    case Not(x) => ExprSound(t, m, c, x, env);
    case VarRef(n) =>
    case _ =>
  }

  /** The list visit rewrites element by element. */
  lemma {:induction false} PropExprsElements(t: SymbolTable, m: Option<string>, c: Constants, es: seq<Expr>, i: nat)
    requires PropExprs(t, m, c, es).Success? && i < |es|
    ensures PropExpr(t, m, c, es[i]).Success?
    ensures PropExprs(t, m, c, es).value.es[i] == PropExpr(t, m, c, es[i]).value.e
    decreases |es|
  {
    if i < |es| - 1 {
      assert es[..|es| - 1][i] == es[i];
      PropExprsElements(t, m, c, es[..|es| - 1], i);
    }
  }

  // ---- the map invariant ----

  /** Both rule sets keep the map holding evaluable literals of locals and parameters. */
  lemma {:induction false} StmtInv(mode: Mode, t: SymbolTable, m: Option<string>, c: Constants, s: Stmt)
    requires Inv(t, m, c) && RhsParse(s) && PropStmt(mode, t, m, c, s).Success?
    ensures Inv(t, m, PropStmt(mode, t, m, c, s).value.c)
    decreases s, 1
  {
    match s
    case AssignStmt(_, _) =>
    case ArrayAssignStmt(_, _, _) =>
    case ExprStmt(_) =>
    case IfStmt(_, _, _) =>
    case WhileStmt(_, body) => StmtInv(mode, t, m, c - Assigned(body), body);
    case ScopeStmt(ss) => StmtsInv(mode, t, m, c, ss);
  }

  lemma {:induction false} StmtsInv(mode: Mode, t: SymbolTable, m: Option<string>, c: Constants, ss: seq<Stmt>)
    requires Inv(t, m, c) && (forall i :: 0 <= i < |ss| ==> RhsParse(ss[i])) && PropStmts(mode, t, m, c, ss).Success?
    ensures Inv(t, m, PropStmts(mode, t, m, c, ss).value.c)
    decreases ss, 0
  {
    if |ss| > 0 {
      var init := ss[..|ss| - 1];
      assert forall i :: 0 <= i < |init| ==> RhsParse(init[i]);
      StmtsInv(mode, t, m, c, init);
      StmtInv(mode, t, m, PropStmts(mode, t, m, c, init).value.c, ss[|ss| - 1]);
    }
  }

  // ---- statements ----

  lemma AssignSound(t: SymbolTable, m: Option<string>, c: Constants, target: Expr, rhs: Expr, env: Env, env': Env, fuel: nat)
    requires Inv(t, m, c) && Agree(c, env) && RhsParse(AssignStmt(target, rhs))
    requires PropStmt(Repaired, t, m, c, AssignStmt(target, rhs)).Success?
    ensures var o := PropStmt(Repaired, t, m, c, AssignStmt(target, rhs)).value;
      Inv(t, m, o.c) &&
      (Exec(AssignStmt(target, rhs), env, env', fuel) <==> Exec(o.s, env, env', fuel)) &&
      (Exec(AssignStmt(target, rhs), env, env', fuel) ==> Agree(o.c, env'))
  {
    var c' := AssignUpdate(t, m, c, target, rhs).value;
    if !IsLiteral(rhs) {
      ExprSound(t, m, c', rhs, env);
    }
  }

  /**
   * The repaired pass keeps the executions of a statement and leaves a map
   * that holds in every state the statement can end in.
   */
  lemma {:induction false} StmtSound(t: SymbolTable, m: Option<string>, c: Constants, s: Stmt, env: Env, env': Env, fuel: nat)
    requires Inv(t, m, c) && Agree(c, env) && RhsParse(s)
    requires PropStmt(Repaired, t, m, c, s).Success?
    ensures var o := PropStmt(Repaired, t, m, c, s).value;
      Inv(t, m, o.c) &&
      (Exec(s, env, env', fuel) <==> Exec(o.s, env, env', fuel)) &&
      (Exec(s, env, env', fuel) ==> Agree(o.c, env'))
    decreases s, 1, fuel
  {
    var o := PropStmt(Repaired, t, m, c, s).value;
    match s
    case AssignStmt(target, rhs) => AssignSound(t, m, c, target, rhs, env, env', fuel);
    case ArrayAssignStmt(_, _, _) =>
    case ExprStmt(_) =>
    case IfStmt(cond, th, el) =>
      StmtFrame(Repaired, t, m, c, th);
      StmtFrame(Repaired, t, m, c, el);
      StmtSound(t, m, c, th, env, env', fuel);
      StmtSound(t, m, c, el, env, env', fuel);
      if Exec(th, env, env', fuel) {
        ExecFrame(th, env, env', fuel);
      }
      if Exec(el, env, env', fuel) {
        ExecFrame(el, env, env', fuel);
      }
    case WhileStmt(cond, body) =>
      var a := Assigned(body);
      var c0 := c - a;
      var bo := PropStmt(Repaired, t, m, c0, body).value;
      StmtFrame(Repaired, t, m, c0, body);
      StmtSound(t, m, c0, body, env, env', fuel);
      WhileSoundForward(t, m, c, cond, body, env, env', fuel);
      WhileSoundBackward(t, m, c, cond, body, env, env', fuel);
      if Exec(s, env, env', fuel) {
        ExecFrame(s, env, env', fuel);
      }
    case ScopeStmt(ss) =>
      StmtsSound(t, m, c, ss, env, env', fuel);
  }

  /** A successful repaired visit of a loop rewrites the condition and the body under the map without the body's targets. */
  lemma WhileShape(t: SymbolTable, m: Option<string>, c: Constants, cond: Expr, body: Stmt)
    requires PropStmt(Repaired, t, m, c, WhileStmt(cond, body)).Success?
    ensures var c0 := c - Assigned(body);
      PropExpr(t, m, c0, cond).Success? && PropStmt(Repaired, t, m, c0, body).Success? &&
      PropStmt(Repaired, t, m, c, WhileStmt(cond, body)).value.s
        == WhileStmt(PropExpr(t, m, c0, cond).value.e, PropStmt(Repaired, t, m, c0, body).value.s)
  {
  }

  /** The loop case of `StmtSound`, one direction: every run of the loop is a run of the rewritten loop. */
  lemma {:induction false} WhileSoundForward(t: SymbolTable, m: Option<string>, c: Constants, cond: Expr, body: Stmt, env: Env, env': Env, fuel: nat)
    requires Inv(t, m, c) && Agree(c - Assigned(body), env) && RhsParse(body)
    requires PropStmt(Repaired, t, m, c, WhileStmt(cond, body)).Success?
    ensures Exec(WhileStmt(cond, body), env, env', fuel) ==> Exec(PropStmt(Repaired, t, m, c, WhileStmt(cond, body)).value.s, env, env', fuel)
    decreases WhileStmt(cond, body), 0, fuel
  {
    var s := WhileStmt(cond, body);
    var c0 := c - Assigned(body);
    WhileShape(t, m, c, cond, body);
    var o := PropStmt(Repaired, t, m, c, s).value;
    var body' := PropStmt(Repaired, t, m, c0, body).value.s;
    if fuel > 0 && Exec(s, env, env', fuel) && env' != env {
      var mid :| Exec(body, env, mid, fuel - 1) && Exec(s, mid, env', fuel - 1);
      StmtSound(t, m, c0, body, env, mid, fuel - 1);
      ExecFrame(body, env, mid, fuel - 1);
      WhileSoundForward(t, m, c, cond, body, mid, env', fuel - 1);
      assert Exec(body', env, mid, fuel - 1) && Exec(o.s, mid, env', fuel - 1);
    }
  }

  /** The other direction: every run of the rewritten loop is a run of the loop. */
  lemma {:induction false} WhileSoundBackward(t: SymbolTable, m: Option<string>, c: Constants, cond: Expr, body: Stmt, env: Env, env': Env, fuel: nat)
    requires Inv(t, m, c) && Agree(c - Assigned(body), env) && RhsParse(body)
    requires PropStmt(Repaired, t, m, c, WhileStmt(cond, body)).Success?
    ensures Exec(PropStmt(Repaired, t, m, c, WhileStmt(cond, body)).value.s, env, env', fuel) ==> Exec(WhileStmt(cond, body), env, env', fuel)
    decreases WhileStmt(cond, body), 0, fuel
  {
    var s := WhileStmt(cond, body);
    var c0 := c - Assigned(body);
    WhileShape(t, m, c, cond, body);
    var o := PropStmt(Repaired, t, m, c, s).value;
    var body' := PropStmt(Repaired, t, m, c0, body).value.s;
    if fuel > 0 && Exec(o.s, env, env', fuel) && env' != env {
      var mid :| Exec(body', env, mid, fuel - 1) && Exec(o.s, mid, env', fuel - 1);
      StmtSound(t, m, c0, body, env, mid, fuel - 1);
      ExecFrame(body, env, mid, fuel - 1);
      WhileSoundBackward(t, m, c, cond, body, mid, env', fuel - 1);
      assert Exec(body, env, mid, fuel - 1) && Exec(s, mid, env', fuel - 1);
    }
  }

  /** The last step of a run of a statement list. */
  lemma ExecSeqSplit(init: seq<Stmt>, last: Stmt, env: Env, env': Env, fuel: nat) returns (mid: Env)
    requires ExecSeq(init + [last], env, env', fuel)
    ensures ExecSeq(init, env, mid, fuel) && Exec(last, mid, env', fuel)
  {
    assert (init + [last])[..|init|] == init;
    mid :| ExecSeq(init, env, mid, fuel) && Exec(last, mid, env', fuel);
  }

  lemma ExecSeqJoin(init: seq<Stmt>, last: Stmt, env: Env, mid: Env, env': Env, fuel: nat)
    requires ExecSeq(init, env, mid, fuel) && Exec(last, mid, env', fuel)
    ensures ExecSeq(init + [last], env, env', fuel)
  {
    assert (init + [last])[..|init|] == init;
  }

  lemma {:induction false} StmtsSound(t: SymbolTable, m: Option<string>, c: Constants, ss: seq<Stmt>, env: Env, env': Env, fuel: nat)
    requires Inv(t, m, c) && Agree(c, env) && forall i :: 0 <= i < |ss| ==> RhsParse(ss[i])
    requires PropStmts(Repaired, t, m, c, ss).Success?
    ensures var o := PropStmts(Repaired, t, m, c, ss).value;
      Inv(t, m, o.c) &&
      (ExecSeq(ss, env, env', fuel) <==> ExecSeq(o.ss, env, env', fuel)) &&
      (ExecSeq(ss, env, env', fuel) ==> Agree(o.c, env'))
    decreases ss, 1, fuel
  {
    if |ss| > 0 {
      StmtsInv(Repaired, t, m, c, ss);
      StmtsSoundForward(t, m, c, ss, env, env', fuel);
      StmtsSoundBackward(t, m, c, ss, env, env', fuel);
    }
  }

  /** A run of a scope's children is a run of the rewritten children, and the map left agrees with its end state. */
  lemma {:induction false} StmtsSoundForward(t: SymbolTable, m: Option<string>, c: Constants, ss: seq<Stmt>, env: Env, env': Env, fuel: nat)
    requires |ss| > 0 && Inv(t, m, c) && Agree(c, env) && forall i :: 0 <= i < |ss| ==> RhsParse(ss[i])
    requires PropStmts(Repaired, t, m, c, ss).Success?
    ensures var o := PropStmts(Repaired, t, m, c, ss).value;
      ExecSeq(ss, env, env', fuel) ==> ExecSeq(o.ss, env, env', fuel) && Agree(o.c, env')
    decreases ss, 0, fuel
  {
    var init, last := ss[..|ss| - 1], ss[|ss| - 1];
    PropStmtsSnoc(Repaired, t, m, c, ss);
    if ExecSeq(ss, env, env', fuel) {
      var a := PropStmts(Repaired, t, m, c, init).value;
      var b := PropStmt(Repaired, t, m, a.c, last).value;
      assert RhsParse(last) && forall i :: 0 <= i < |init| ==> RhsParse(init[i]);
      var mid := ExecSeqSplit(init, last, env, env', fuel);
      StmtsSound(t, m, c, init, env, mid, fuel);
      StmtSound(t, m, a.c, last, mid, env', fuel);
      ExecSeqJoin(a.ss, b.s, env, mid, env', fuel);
    }
  }

  /** A run of the rewritten children is a run of the original children. */
  lemma {:induction false} StmtsSoundBackward(t: SymbolTable, m: Option<string>, c: Constants, ss: seq<Stmt>, env: Env, env': Env, fuel: nat)
    requires |ss| > 0 && Inv(t, m, c) && Agree(c, env) && forall i :: 0 <= i < |ss| ==> RhsParse(ss[i])
    requires PropStmts(Repaired, t, m, c, ss).Success?
    ensures ExecSeq(PropStmts(Repaired, t, m, c, ss).value.ss, env, env', fuel) ==> ExecSeq(ss, env, env', fuel)
    decreases ss, 0, fuel
  {
    var init, last := ss[..|ss| - 1], ss[|ss| - 1];
    PropStmtsSnoc(Repaired, t, m, c, ss);
    var a := PropStmts(Repaired, t, m, c, init).value;
    var b := PropStmt(Repaired, t, m, a.c, last).value;
    if ExecSeq(a.ss + [b.s], env, env', fuel) {
      assert RhsParse(last) && forall i :: 0 <= i < |init| ==> RhsParse(init[i]);
      var mid := ExecSeqSplit(a.ss, b.s, env, env', fuel);
      StmtsSound(t, m, c, init, env, mid, fuel);
      StmtSound(t, m, a.c, last, mid, env', fuel);
      ExecSeqJoin(init, last, env, mid, env', fuel);
    }
  }

  /**
   * A method propagated with the repaired rules has the executions of the
   * original, and each of its return expressions has the original's value in
   * every state the statements can end in.
   */
  lemma MethodSound(t: SymbolTable, md: MethodDecl, env: Env, env': Env, fuel: nat)
    requires forall i :: 0 <= i < |md.stmts| ==> RhsParse(md.stmts[i])
    requires PropMethod(Repaired, t, md).Success?
    ensures var o := PropMethod(Repaired, t, md).value.md;
      (ExecSeq(md.stmts, env, env', fuel) <==> ExecSeq(o.stmts, env, env', fuel)) &&
      (ExecSeq(md.stmts, env, env', fuel) ==>
         forall i :: 0 <= i < |md.returnExprs| ==> EvalIn(env', o.returnExprs[i]) == EvalIn(env', md.returnExprs[i]))
  {
    var m := Some(md.name);
    StmtsSound(t, m, map[], md.stmts, env, env', fuel);
    var so := PropStmts(Repaired, t, m, map[], md.stmts).value;
    if ExecSeq(md.stmts, env, env', fuel) {
      forall i | 0 <= i < |md.returnExprs|
        ensures EvalIn(env', PropMethod(Repaired, t, md).value.md.returnExprs[i]) == EvalIn(env', md.returnExprs[i])
      {
        PropExprsElements(t, m, so.c, md.returnExprs, i);
        ExprSound(t, m, so.c, md.returnExprs[i], env');
      }
    }
  }
}
