/**
 * What one constant-propagation pass does to the tree and the map: a
 * substitution removes a variable reference, a pass without substitutions
 * changes nothing, the map holds literals only, the names a visit reports
 * and the entries it can touch are those assigned inside the statement, and
 * with the repaired join rules the pass cannot fail on well-formed input.
 */
module PropagationFacts {
  import opened Wrappers
  import opened Ast
  import opened TypeUtils
  import opened ConstantFolding
  import opened ConstantPropagation

  /** Every entry of the map is a literal node. */
  predicate LiteralsOnly(c: Constants) {
    forall n :: n in c ==> IsLiteral(c[n])
  }

  /** Outside `names`, `c'` has exactly the entries of `c`. */
  ghost predicate SameOutside(c: Constants, c': Constants, names: set<string>) {
    forall n :: n !in names ==> (n in c' <==> n in c) && (n in c ==> c'[n] == c[n])
  }

  // ---- sequence bookkeeping ----

  lemma {:induction false} VarRefCountsAppend(es: seq<Expr>, e: Expr)
    ensures VarRefCounts(es + [e]) == VarRefCounts(es) + VarRefCount(e)
  {
    if |es| > 0 {
      assert (es + [e])[1..] == es[1..] + [e];
      VarRefCountsAppend(es[1..], e);
    }
  }

  lemma {:induction false} StmtsVarRefCountAppend(ss: seq<Stmt>, s: Stmt)
    ensures StmtsVarRefCount(ss + [s]) == StmtsVarRefCount(ss) + StmtVarRefCount(s)
  {
    if |ss| > 0 {
      assert (ss + [s])[1..] == ss[1..] + [s];
      StmtsVarRefCountAppend(ss[1..], s);
    }
  }

  lemma {:induction false} MethodsVarRefCountAppend(ms: seq<MethodDecl>, m: MethodDecl)
    ensures MethodsVarRefCount(ms + [m]) == MethodsVarRefCount(ms) + MethodVarRefCount(m)
  {
    if |ms| > 0 {
      assert (ms + [m])[1..] == ms[1..] + [m];
      MethodsVarRefCountAppend(ms[1..], m);
    }
  }

  lemma NamesOfAppend(a: seq<Expr>, b: seq<Expr>)
    ensures NamesOf(a + b) == NamesOf(a) + NamesOf(b)
  {
    forall n | n in NamesOf(a) + NamesOf(b)
      ensures n in NamesOf(a + b)
    {
      if n in NamesOf(a) {
        var i :| 0 <= i < |a| && a[i].VarRef? && a[i].name == n;
        assert (a + b)[i] == a[i];
      } else {
        var i :| 0 <= i < |b| && b[i].VarRef? && b[i].name == n;
        assert (a + b)[|a| + i] == b[i];
      }
    }
  }

  lemma AllVarsAppend(a: seq<Expr>, b: seq<Expr>)
    ensures AllVars(a + b) <==> AllVars(a) && AllVars(b)
  {
    if AllVars(a + b) {
      forall i | 0 <= i < |b| ensures b[i].VarRef? { assert (a + b)[|a| + i] == b[i]; }
      forall i | 0 <= i < |a| ensures a[i].VarRef? { assert (a + b)[i] == a[i]; }
    }
  }

  // ---- progress: a substitution removes a variable reference ----

  /**
   * With literals in the map, a visit never adds variable references, removes
   * one whenever it substitutes, and returns its input unchanged when it
   * does not substitute.
   */
  lemma {:induction false} ExprProgress(t: SymbolTable, m: Option<string>, c: Constants, e: Expr)
    requires LiteralsOnly(c) && PropExpr(t, m, c, e).Success?
    ensures ExprShrinks(e, PropExpr(t, m, c, e).value)
    decreases e, 1
  {
    match e
    case BinaryExpr(op, l, r) =>
      ExprProgress(t, m, c, l); ExprProgress(t, m, c, r); BinaryShrinks(t, m, c, op, l, r);
    case Paren(x) => ExprProgress(t, m, c, x);
    case Not(x) => ExprProgress(t, m, c, x);
    case NewArray(x) => ExprProgress(t, m, c, x);
    case ArrayLength(x) => ExprProgress(t, m, c, x);
    case ArrayAccess(x, i) =>
      ExprProgress(t, m, c, x); ExprProgress(t, m, c, i); AccessShrinks(t, m, c, x, i);
    case MethodCall(x, n, args) =>
      ExprProgress(t, m, c, x); ExprsProgress(t, m, c, args); CallShrinks(t, m, c, x, n, args);
    case ArrayInit(es) => ExprsProgress(t, m, c, es);
    case VarRef(_) =>
    case IntegerLiteral(_) =>
    case BooleanLiteral(_) =>
    case This =>
    case NewClass(_) =>
  }

  /**
   * A visit never adds variable references, removes one whenever it
   * substitutes, and returns its input unchanged when it does not substitute.
   */
  ghost predicate ExprShrinks(e: Expr, o: ExprOut) {
    VarRefCount(o.e) <= VarRefCount(e) &&
    (o.substituted ==> VarRefCount(o.e) < VarRefCount(e)) &&
    (!o.substituted ==> o.e == e)
  }

  lemma BinaryShrinks(t: SymbolTable, m: Option<string>, c: Constants, op: string, l: Expr, r: Expr)
    requires PropExpr(t, m, c, BinaryExpr(op, l, r)).Success?
    requires PropExpr(t, m, c, l).Success? && ExprShrinks(l, PropExpr(t, m, c, l).value)
    requires PropExpr(t, m, c, r).Success? && ExprShrinks(r, PropExpr(t, m, c, r).value)
    ensures ExprShrinks(BinaryExpr(op, l, r), PropExpr(t, m, c, BinaryExpr(op, l, r)).value)
  {
  }

  lemma AccessShrinks(t: SymbolTable, m: Option<string>, c: Constants, x: Expr, i: Expr)
    requires PropExpr(t, m, c, ArrayAccess(x, i)).Success?
    requires PropExpr(t, m, c, x).Success? && ExprShrinks(x, PropExpr(t, m, c, x).value)
    requires PropExpr(t, m, c, i).Success? && ExprShrinks(i, PropExpr(t, m, c, i).value)
    ensures ExprShrinks(ArrayAccess(x, i), PropExpr(t, m, c, ArrayAccess(x, i)).value)
  {
  }

  lemma CallShrinks(t: SymbolTable, m: Option<string>, c: Constants, x: Expr, n: string, args: seq<Expr>)
    requires PropExpr(t, m, c, MethodCall(x, n, args)).Success?
    requires PropExpr(t, m, c, x).Success? && ExprShrinks(x, PropExpr(t, m, c, x).value)
    requires PropExprs(t, m, c, args).Success? && ExprsShrink(args, PropExprs(t, m, c, args).value)
    ensures ExprShrinks(MethodCall(x, n, args), PropExpr(t, m, c, MethodCall(x, n, args)).value)
  {
  }

  /** The same facts for a list of expressions. */
  ghost predicate ExprsShrink(es: seq<Expr>, o: ExprsOut) {
    VarRefCounts(o.es) <= VarRefCounts(es) &&
    (o.substituted ==> VarRefCounts(o.es) < VarRefCounts(es)) &&
    (!o.substituted ==> o.es == es)
  }

  lemma {:induction false} ExprsProgress(t: SymbolTable, m: Option<string>, c: Constants, es: seq<Expr>)
    requires LiteralsOnly(c) && PropExprs(t, m, c, es).Success?
    ensures ExprsShrink(es, PropExprs(t, m, c, es).value)
    decreases es, 0
  {
    if |es| > 0 {
      var init, last := es[..|es| - 1], es[|es| - 1];
      PropExprsSnoc(t, m, c, es);
      ExprsProgress(t, m, c, init);
      ExprProgress(t, m, c, last);
      var a, b := PropExprs(t, m, c, init).value, PropExpr(t, m, c, last).value;
      ExprsShrinkStep(init, a.es, a.substituted, last, b.e, b.substituted);
    }
  }

  /** A successful visit of a list is the visit of all but the last, then the last. */
  lemma PropExprsSnoc(t: SymbolTable, m: Option<string>, c: Constants, es: seq<Expr>)
    requires |es| > 0 && PropExprs(t, m, c, es).Success?
    ensures var init, last := es[..|es| - 1], es[|es| - 1];
      PropExprs(t, m, c, init).Success? && PropExpr(t, m, c, last).Success? &&
      es == init + [last] &&
      PropExprs(t, m, c, es).value.es == PropExprs(t, m, c, init).value.es + [PropExpr(t, m, c, last).value.e] &&
      PropExprs(t, m, c, es).value.substituted == (PropExprs(t, m, c, init).value.substituted || PropExpr(t, m, c, last).value.substituted)
  {
  }

  /** The progress facts carry over from a list and one more expression to the longer list. */
  lemma ExprsShrinkStep(init: seq<Expr>, o: seq<Expr>, s: bool, last: Expr, o': Expr, s': bool)
    requires VarRefCounts(o) <= VarRefCounts(init) && (s ==> VarRefCounts(o) < VarRefCounts(init)) && (!s ==> o == init)
    requires VarRefCount(o') <= VarRefCount(last) && (s' ==> VarRefCount(o') < VarRefCount(last)) && (!s' ==> o' == last)
    ensures VarRefCounts(o + [o']) <= VarRefCounts(init + [last])
    ensures s || s' ==> VarRefCounts(o + [o']) < VarRefCounts(init + [last])
    ensures !(s || s') ==> o + [o'] == init + [last]
  {
    VarRefCountsAppend(init, last);
    VarRefCountsAppend(o, o');
  }

  lemma AssignUpdateLiterals(t: SymbolTable, m: Option<string>, c: Constants, target: Expr, rhs: Expr)
    requires LiteralsOnly(c) && AssignUpdate(t, m, c, target, rhs).Success?
    ensures LiteralsOnly(AssignUpdate(t, m, c, target, rhs).value)
  {
  }

  /** The statement-level progress facts; the map keeps holding literals only. */
  lemma {:induction false} StmtProgress(mode: Mode, t: SymbolTable, m: Option<string>, c: Constants, s: Stmt)
    requires LiteralsOnly(c) && PropStmt(mode, t, m, c, s).Success?
    ensures var o := PropStmt(mode, t, m, c, s).value;
      LiteralsOnly(o.c) &&
      StmtVarRefCount(o.s) <= StmtVarRefCount(s) &&
      (o.substituted ==> StmtVarRefCount(o.s) < StmtVarRefCount(s)) &&
      (!o.substituted ==> o.s == s)
    decreases s, 1
  {
    match s
    case AssignStmt(target, rhs) =>
      AssignUpdateLiterals(t, m, c, target, rhs);
      ExprProgress(t, m, AssignUpdate(t, m, c, target, rhs).value, rhs);
    case ArrayAssignStmt(_, i, v) => ExprProgress(t, m, c, i); ExprProgress(t, m, c, v);
    case ExprStmt(x) => ExprProgress(t, m, c, x);
    case IfStmt(cond, th, el) =>
      ExprProgress(t, m, c, cond);
      StmtProgress(mode, t, m, c, th);
      StmtProgress(mode, t, m, c, el);
    case WhileStmt(cond, body) =>
      var c0 := c - Assigned(body);
      ExprProgress(t, m, c0, cond);
      StmtProgress(mode, t, m, c0, body);
    case ScopeStmt(ss) => StmtsProgress(mode, t, m, c, ss);
  }

  lemma {:induction false} StmtsProgress(mode: Mode, t: SymbolTable, m: Option<string>, c: Constants, ss: seq<Stmt>)
    requires LiteralsOnly(c) && PropStmts(mode, t, m, c, ss).Success?
    ensures var o := PropStmts(mode, t, m, c, ss).value;
      LiteralsOnly(o.c) &&
      StmtsVarRefCount(o.ss) <= StmtsVarRefCount(ss) &&
      (o.substituted ==> StmtsVarRefCount(o.ss) < StmtsVarRefCount(ss)) &&
      (!o.substituted ==> o.ss == ss)
    decreases ss, 0
  {
    if |ss| > 0 {
      var init, last := ss[..|ss| - 1], ss[|ss| - 1];
      PropStmtsSnoc(mode, t, m, c, ss);
      StmtsProgress(mode, t, m, c, init);
      var a := PropStmts(mode, t, m, c, init).value;
      StmtProgress(mode, t, m, a.c, last);
      var b := PropStmt(mode, t, m, a.c, last).value;
      StmtsShrinkStep(init, a.ss, a.substituted, last, b.s, b.substituted);
    }
  }

  /** A successful visit of a scope's children is the visit of all but the last, then the last from the map they leave. */
  lemma PropStmtsSnoc(mode: Mode, t: SymbolTable, m: Option<string>, c: Constants, ss: seq<Stmt>)
    requires |ss| > 0 && PropStmts(mode, t, m, c, ss).Success?
    ensures var init, last := ss[..|ss| - 1], ss[|ss| - 1];
      PropStmts(mode, t, m, c, init).Success? &&
      var a := PropStmts(mode, t, m, c, init).value;
      PropStmt(mode, t, m, a.c, last).Success? &&
      var b := PropStmt(mode, t, m, a.c, last).value;
      ss == init + [last] &&
      PropStmts(mode, t, m, c, ss).value.ss == a.ss + [b.s] &&
      PropStmts(mode, t, m, c, ss).value.c == b.c &&
      PropStmts(mode, t, m, c, ss).value.substituted == (a.substituted || b.substituted)
  {
  }

  /** The progress facts carry over from a list and one more statement to the longer list. */
  lemma StmtsShrinkStep(init: seq<Stmt>, o: seq<Stmt>, s: bool, last: Stmt, o': Stmt, s': bool)
    requires StmtsVarRefCount(o) <= StmtsVarRefCount(init) && (s ==> StmtsVarRefCount(o) < StmtsVarRefCount(init)) && (!s ==> o == init)
    requires StmtVarRefCount(o') <= StmtVarRefCount(last) && (s' ==> StmtVarRefCount(o') < StmtVarRefCount(last)) && (!s' ==> o' == last)
    ensures StmtsVarRefCount(o + [o']) <= StmtsVarRefCount(init + [last])
    ensures s || s' ==> StmtsVarRefCount(o + [o']) < StmtsVarRefCount(init + [last])
    ensures !(s || s') ==> o + [o'] == init + [last]
  {
    StmtsVarRefCountAppend(init, last);
    StmtsVarRefCountAppend(o, o');
  }

  lemma MethodProgress(mode: Mode, t: SymbolTable, md: MethodDecl)
    requires PropMethod(mode, t, md).Success?
    ensures var o := PropMethod(mode, t, md).value;
      LiteralsOnly(o.c) &&
      MethodVarRefCount(o.md) <= MethodVarRefCount(md) &&
      (o.substituted ==> MethodVarRefCount(o.md) < MethodVarRefCount(md)) &&
      (!o.substituted ==> o.md == md)
  {
    var so := PropStmts(mode, t, Some(md.name), map[], md.stmts).value;
    StmtsProgress(mode, t, Some(md.name), map[], md.stmts);
    ExprsProgress(t, Some(md.name), so.c, md.returnExprs);
  }

  lemma {:induction false} MethodsProgress(mode: Mode, t: SymbolTable, ms: seq<MethodDecl>)
    requires PropMethods(mode, t, ms).Success?
    ensures MethodsShrink(ms, PropMethods(mode, t, ms).value.ms, PropMethods(mode, t, ms).value.substituted)
  {
    if |ms| > 0 {
      var init, last := ms[..|ms| - 1], ms[|ms| - 1];
      PropMethodsSnoc(mode, t, ms);
      MethodsProgress(mode, t, init);
      MethodProgress(mode, t, last);
      var a, b := PropMethods(mode, t, init).value, PropMethod(mode, t, last).value;
      MethodsShrinkStep(init, a.ms, a.substituted, last, b.md, b.substituted);
    }
  }

  /** A successful pass over some methods is the pass over all but the last, then the last. */
  lemma PropMethodsSnoc(mode: Mode, t: SymbolTable, ms: seq<MethodDecl>)
    requires |ms| > 0 && PropMethods(mode, t, ms).Success?
    ensures var init, last := ms[..|ms| - 1], ms[|ms| - 1];
      PropMethods(mode, t, init).Success? && PropMethod(mode, t, last).Success? &&
      ms == init + [last] &&
      PropMethods(mode, t, ms).value.ms == PropMethods(mode, t, init).value.ms + [PropMethod(mode, t, last).value.md] &&
      PropMethods(mode, t, ms).value.substituted == (PropMethods(mode, t, init).value.substituted || PropMethod(mode, t, last).value.substituted)
  {
  }

  /** The progress facts of a list of methods, given the rewritten list and whether it substituted. */
  ghost predicate MethodsShrink(ms: seq<MethodDecl>, o: seq<MethodDecl>, substituted: bool) {
    MethodsVarRefCount(o) <= MethodsVarRefCount(ms) &&
    (substituted ==> MethodsVarRefCount(o) < MethodsVarRefCount(ms)) &&
    (!substituted ==> o == ms)
  }

  /** The progress facts carry over from a list and one more method to the longer list. */
  lemma MethodsShrinkStep(init: seq<MethodDecl>, o: seq<MethodDecl>, s: bool, last: MethodDecl, o': MethodDecl, s': bool)
    requires MethodsShrink(init, o, s)
    requires MethodVarRefCount(o') <= MethodVarRefCount(last) && (s' ==> MethodVarRefCount(o') < MethodVarRefCount(last)) && (!s' ==> o' == last)
    ensures MethodsShrink(init + [last], o + [o'], s || s')
  {
    MethodsVarRefCountAppend(init, last);
    MethodsVarRefCountAppend(o, o');
  }

  /**
   * A pass over the program never adds a variable reference, removes at
   * least one when it reports a change, and leaves the program as it was
   * when it reports none: the measure that makes the optimisation loop stop.
   */
  lemma ProgramProgress(mode: Mode, t: SymbolTable, p: Program)
    requires PropProgram(mode, t, p).Success?
    ensures var o := PropProgram(mode, t, p).value;
      ProgramVarRefCount(o.p) <= ProgramVarRefCount(p) &&
      (o.substituted ==> ProgramVarRefCount(o.p) < ProgramVarRefCount(p)) &&
      (!o.substituted ==> o.p == p)
  {
    MethodsProgress(mode, t, p.cls.methods);
  }

  // ---- what a statement reports and what it can touch ----

  /**
   * The names a visit reports are assigned inside the statement (all of them
   * with the repaired rules), and the map entries of every other name are
   * left as they were.
   */
  lemma {:induction false} StmtFrame(mode: Mode, t: SymbolTable, m: Option<string>, c: Constants, s: Stmt)
    requires PropStmt(mode, t, m, c, s).Success?
    ensures var o := PropStmt(mode, t, m, c, s).value;
      NamesOr(o.written) <= Assigned(s) &&
      (mode == Repaired ==> NamesOr(o.written) == Assigned(s)) &&
      SameOutside(c, o.c, Assigned(s))
    decreases s, 1
  {
    match s
    case AssignStmt(target, rhs) =>
      assert AssignTargetList(s) == [target];
      assert target.name in NamesOf([target]) by { assert [target][0] == target; }
    case ArrayAssignStmt(_, _, _) =>
    case ExprStmt(_) =>
    case IfStmt(cond, th, el) =>
      StmtFrame(mode, t, m, c, th);
      StmtFrame(mode, t, m, c, el);
      NamesOfAppend(AssignTargetList(th), AssignTargetList(el));
    case WhileStmt(cond, body) =>
      StmtFrame(mode, t, m, c - Assigned(body), body);
    case ScopeStmt(ss) =>
      StmtsFrame(mode, t, m, c, ss);
  }

  lemma {:induction false} StmtsFrame(mode: Mode, t: SymbolTable, m: Option<string>, c: Constants, ss: seq<Stmt>)
    requires PropStmts(mode, t, m, c, ss).Success?
    ensures var o := PropStmts(mode, t, m, c, ss).value;
      o.written <= NamesOf(AssignTargetLists(ss)) &&
      (mode == Repaired ==> o.written == NamesOf(AssignTargetLists(ss))) &&
      SameOutside(c, o.c, NamesOf(AssignTargetLists(ss)))
    decreases ss, 0
  {
    if |ss| > 0 {
      var init, last := ss[..|ss| - 1], ss[|ss| - 1];
      StmtsFrame(mode, t, m, c, init);
      var a := PropStmts(mode, t, m, c, init).value;
      StmtFrame(mode, t, m, a.c, last);
      NamesOfAppend(AssignTargetLists(init), AssignTargetList(last));
    }
  }

  /** The join after an `if` only drops entries of the map it started from. */
  lemma IfJoinDropsOnly(mode: Mode, t: SymbolTable, m: Option<string>, c: Constants, cond: Expr, th: Stmt, el: Stmt)
    requires PropStmt(mode, t, m, c, IfStmt(cond, th, el)).Success?
    ensures var c' := PropStmt(mode, t, m, c, IfStmt(cond, th, el)).value.c;
      c'.Keys <= c.Keys && forall n :: n in c' ==> c'[n] == c[n]
  {
  }

  /** Even when both branches assign the same literal, the name is dropped after the join. */
  lemma IfJoinForgetsBothBranches(mode: Mode, t: SymbolTable, m: Option<string>, c: Constants, cond: Expr, x: string, lit: Expr)
    requires IsLiteral(lit) && IsLocal(t, m, x) == Success(true)
    requires PropExpr(t, m, c, cond).Success?
    ensures var s := IfStmt(cond, AssignStmt(VarRef(x), lit), AssignStmt(VarRef(x), lit));
      PropStmt(mode, t, m, c, s).Success? && x !in PropStmt(mode, t, m, c, s).value.c
  {
  }

  // ---- assignments ----

  /** A literal assigned to a local or parameter is recorded; the right-hand side is left as it is. */
  lemma AssignRecordsLiteral(mode: Mode, t: SymbolTable, m: Option<string>, c: Constants, x: string, lit: Expr)
    requires IsLiteral(lit) && IsLocal(t, m, x) == Success(true)
    ensures PropStmt(mode, t, m, c, AssignStmt(VarRef(x), lit))
      == Success(StmtOut(AssignStmt(VarRef(x), lit), c[x := lit], false, Some({x})))
  {
  }

  /** A literal assigned to any other name leaves the map as it was. */
  lemma AssignToFieldKeepsMap(mode: Mode, t: SymbolTable, m: Option<string>, c: Constants, x: string, lit: Expr)
    requires IsLiteral(lit) && IsLocal(t, m, x) == Success(false)
    ensures PropStmt(mode, t, m, c, AssignStmt(VarRef(x), lit))
      == Success(StmtOut(AssignStmt(VarRef(x), lit), c, false, Some({x})))
  {
  }

  /** Any other value forgets the name before the right-hand side is visited. */
  lemma AssignForgetsNonLiteral(mode: Mode, t: SymbolTable, m: Option<string>, c: Constants, x: string, rhs: Expr)
    requires !IsLiteral(rhs) && PropStmt(mode, t, m, c, AssignStmt(VarRef(x), rhs)).Success?
    ensures var o := PropStmt(mode, t, m, c, AssignStmt(VarRef(x), rhs)).value;
      o.c == c - {x} && o.s == AssignStmt(VarRef(x), PropExpr(t, m, c - {x}, rhs).value.e)
  {
  }

  /** `x = x` is never rewritten, whatever the map holds for `x`. */
  lemma SelfAssignKept(mode: Mode, t: SymbolTable, m: Option<string>, c: Constants, x: string)
    requires PropStmt(mode, t, m, c, AssignStmt(VarRef(x), VarRef(x))).Success?
    ensures var o := PropStmt(mode, t, m, c, AssignStmt(VarRef(x), VarRef(x))).value;
      o.s == AssignStmt(VarRef(x), VarRef(x)) && !o.substituted && x !in o.c
  {
  }

  /** An assignment whose target is not a variable throws on the missing name attribute. */
  lemma AssignNeedsVariableTarget(mode: Mode, t: SymbolTable, m: Option<string>, c: Constants, target: Expr, rhs: Expr)
    requires !target.VarRef?
    ensures PropStmt(mode, t, m, c, AssignStmt(target, rhs)) == Failure(MissingAttribute)
  {
  }

  // ---- when the pass succeeds ----

  /** The current method has entries in both the locals and the parameters maps. */
  predicate MethodKnown(t: SymbolTable, m: Option<string>) {
    m.Some? && m.value in t.locals && m.value in t.params
  }

  lemma {:induction false} ExprSucceeds(t: SymbolTable, m: Option<string>, c: Constants, e: Expr)
    requires MethodKnown(t, m)
    ensures PropExpr(t, m, c, e).Success?
    decreases e, 1
  {
    match e
    case BinaryExpr(_, l, r) => ExprSucceeds(t, m, c, l); ExprSucceeds(t, m, c, r);
    case Paren(x) => ExprSucceeds(t, m, c, x);
    case Not(x) => ExprSucceeds(t, m, c, x);
    case NewArray(x) => ExprSucceeds(t, m, c, x);
    case ArrayLength(x) => ExprSucceeds(t, m, c, x);
    case ArrayAccess(x, i) => ExprSucceeds(t, m, c, x); ExprSucceeds(t, m, c, i);
    case MethodCall(x, _, args) => ExprSucceeds(t, m, c, x); ExprsSucceed(t, m, c, args);
    case ArrayInit(es) => ExprsSucceed(t, m, c, es);
    case VarRef(_) =>
    case IntegerLiteral(_) =>
    case BooleanLiteral(_) =>
    case This =>
    case NewClass(_) =>
  }

  lemma {:induction false} ExprsSucceed(t: SymbolTable, m: Option<string>, c: Constants, es: seq<Expr>)
    requires MethodKnown(t, m)
    ensures PropExprs(t, m, c, es).Success?
    decreases es, 0
  {
    if |es| > 0 {
      ExprsSucceed(t, m, c, es[..|es| - 1]);
      ExprSucceeds(t, m, c, es[|es| - 1]);
    }
  }

  /**
   * With the repaired join rules, a statement whose assignments all have
   * variable targets is propagated without failure in a method the symbol
   * table knows.
   */
  lemma {:induction false} RepairedStmtSucceeds(t: SymbolTable, m: Option<string>, c: Constants, s: Stmt)
    requires MethodKnown(t, m) && TargetsAreVars(s)
    ensures PropStmt(Repaired, t, m, c, s).Success?
    decreases s, 1
  {
    match s
    case AssignStmt(target, rhs) =>
      assert AssignTargetList(s)[0] == target;
      ExprSucceeds(t, m, AssignUpdate(t, m, c, target, rhs).value, rhs);
    case ArrayAssignStmt(_, i, v) => ExprSucceeds(t, m, c, i); ExprSucceeds(t, m, c, v);
    case ExprStmt(x) => ExprSucceeds(t, m, c, x);
    case IfStmt(cond, th, el) =>
      AllVarsAppend(AssignTargetList(th), AssignTargetList(el));
      ExprSucceeds(t, m, c, cond);
      RepairedStmtSucceeds(t, m, c, th);
      RepairedStmtSucceeds(t, m, c, el);
    case WhileStmt(cond, body) =>
      ExprSucceeds(t, m, c - Assigned(body), cond);
      RepairedStmtSucceeds(t, m, c - Assigned(body), body);
    case ScopeStmt(ss) => RepairedStmtsSucceed(t, m, c, ss);
  }

  lemma {:induction false} RepairedStmtsSucceed(t: SymbolTable, m: Option<string>, c: Constants, ss: seq<Stmt>)
    requires MethodKnown(t, m) && AllVars(AssignTargetLists(ss))
    ensures PropStmts(Repaired, t, m, c, ss).Success?
    decreases ss, 0
  {
    if |ss| > 0 {
      var init, last := ss[..|ss| - 1], ss[|ss| - 1];
      AllVarsAppend(AssignTargetLists(init), AssignTargetList(last));
      RepairedStmtsSucceed(t, m, c, init);
      RepairedStmtSucceeds(t, m, PropStmts(Repaired, t, m, c, init).value.c, last);
    }
  }
}
