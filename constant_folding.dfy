/**
 * Constant folding over the syntax tree: a binary expression whose two
 * children are literals of the same kind is replaced by one literal.
 *
 * The tree is visited children first; replacing a node in place is modelled
 * as returning the rewritten tree. Java exceptions raised while folding (a
 * literal that does not parse, a division by zero) abort the pass and are
 * `Failure` results.
 */
module ConstantFolding {
  import opened Wrappers
  import opened JavaInt
  import opened Ast

  function ParseIntLiteral(v: string): (r: Result<int32, JavaError>)
    ensures r.Success? <==> ParseInt(v).Some?
    ensures r.Success? ==> r.value == ParseInt(v).value
  {
    match ParseInt(v)
    case Some(x) => Success(x)
    case None => Failure(NumberFormat)
  }

  /**
   * `visitBinaryExpr` on a node whose children have already been visited.
   * Two integer literals: both are parsed, then `+ - * /` give an integer
   * literal, `> <` a boolean literal and any other operator an integer
   * literal with empty text. Two boolean literals give their conjunction
   * whatever the operator. Anything else is left as it is.
   */
  function FoldNode(op: string, left: Expr, right: Expr): Result<Expr, JavaError> {
    if left.IntegerLiteral? && right.IntegerLiteral? then
      var a :- ParseIntLiteral(left.value);
      var b :- ParseIntLiteral(right.value);
      if op == "+" then Success(IntegerLiteral(IntToString(Add(a, b))))
      else if op == "-" then Success(IntegerLiteral(IntToString(Sub(a, b))))
      else if op == "*" then Success(IntegerLiteral(IntToString(Mul(a, b))))
      else if op == "/" then
        if b == 0 then Failure(Arithmetic) else Success(IntegerLiteral(IntToString(Div(a, b).value)))
      else if op == ">" then Success(BooleanLiteral(BoolToString(a > b)))
      else if op == "<" then Success(BooleanLiteral(BoolToString(a < b)))
      else Success(IntegerLiteral(""))
    else if left.BooleanLiteral? && right.BooleanLiteral? then
      Success(BooleanLiteral(BoolToString(ParseBoolean(left.value) && ParseBoolean(right.value))))
    else Success(BinaryExpr(op, left, right))
  }

  function FoldExpr(e: Expr): Result<Expr, JavaError>
    decreases e, 1
  {
    match e
    case BinaryExpr(op, l, r) =>
      var l' :- FoldExpr(l);
      var r' :- FoldExpr(r);
      FoldNode(op, l', r')
    case Paren(x) => var x' :- FoldExpr(x); Success(Paren(x'))
    case Not(x) => var x' :- FoldExpr(x); Success(Not(x'))
    case MethodCall(c, n, args) =>
      var c' :- FoldExpr(c);
      var args' :- FoldExprs(args);
      Success(MethodCall(c', n, args'))
    case NewArray(x) => var x' :- FoldExpr(x); Success(NewArray(x'))
    case ArrayInit(es) => var es' :- FoldExprs(es); Success(ArrayInit(es'))
    case ArrayAccess(a, i) =>
      var a' :- FoldExpr(a);
      var i' :- FoldExpr(i);
      Success(ArrayAccess(a', i'))
    case ArrayLength(a) => var a' :- FoldExpr(a); Success(ArrayLength(a'))
    case _ => Success(e)
  }

  function FoldExprs(es: seq<Expr>): (r: Result<seq<Expr>, JavaError>)
    ensures r.Success? ==> |r.value| == |es|
    decreases es, 0
  {
    if |es| == 0 then Success([])
    else
      var e' :- FoldExpr(es[0]);
      var rest :- FoldExprs(es[1..]);
      Success([e'] + rest)
  }

  function FoldStmt(s: Stmt): Result<Stmt, JavaError>
    decreases s, 1
  {
    match s
    case AssignStmt(t, v) =>
      var t' :- FoldExpr(t);
      var v' :- FoldExpr(v);
      Success(AssignStmt(t', v'))
    case ArrayAssignStmt(n, i, v) =>
      var i' :- FoldExpr(i);
      var v' :- FoldExpr(v);
      Success(ArrayAssignStmt(n, i', v'))
    case IfStmt(c, th, el) =>
      var c' :- FoldExpr(c);
      var th' :- FoldStmt(th);
      var el' :- FoldStmt(el);
      Success(IfStmt(c', th', el'))
    case WhileStmt(c, b) =>
      var c' :- FoldExpr(c);
      var b' :- FoldStmt(b);
      Success(WhileStmt(c', b'))
    case ExprStmt(x) => var x' :- FoldExpr(x); Success(ExprStmt(x'))
    case ScopeStmt(ss) => var ss' :- FoldStmts(ss); Success(ScopeStmt(ss'))
  }

  function FoldStmts(ss: seq<Stmt>): Result<seq<Stmt>, JavaError>
    decreases ss, 0
  {
    if |ss| == 0 then Success([])
    else
      var s' :- FoldStmt(ss[0]);
      var rest :- FoldStmts(ss[1..]);
      Success([s'] + rest)
  }

  function FoldMethod(m: MethodDecl): Result<MethodDecl, JavaError> {
    var stmts :- FoldStmts(m.stmts);
    var rets :- FoldExprs(m.returnExprs);
    Success(m.(stmts := stmts, returnExprs := rets))
  }

  function FoldMethods(ms: seq<MethodDecl>): Result<seq<MethodDecl>, JavaError> {
    if |ms| == 0 then Success([])
    else
      var m' :- FoldMethod(ms[0]);
      var rest :- FoldMethods(ms[1..]);
      Success([m'] + rest)
  }

  /** One folding pass over the whole program (`analyze` on the root). */
  function FoldProgram(p: Program): Result<Program, JavaError> {
    var ms :- FoldMethods(p.cls.methods);
    Success(p.(cls := p.cls.(methods := ms)))
  }

  // ---- a reference semantics for constant expressions ----

  datatype Value = IntVal(i: int32) | BoolVal(b: bool)

  /** Java's value of a binary operator on two constants; None where Java rejects or throws. */
  function EvalOp(op: string, a: Value, b: Value): Option<Value> {
    match (a, b)
    case (IntVal(x), IntVal(y)) =>
      if op == "+" then Some(IntVal(Add(x, y)))
      else if op == "-" then Some(IntVal(Sub(x, y)))
      else if op == "*" then Some(IntVal(Mul(x, y)))
      else if op == "/" then (if y == 0 then None else Some(IntVal(Div(x, y).value)))
      else if op == ">" then Some(BoolVal(x > y))
      else if op == "<" then Some(BoolVal(x < y))
      else None
    case (BoolVal(x), BoolVal(y)) => if op == "&&" then Some(BoolVal(x && y)) else None
    case _ => None
  }

  /** The value of an expression built from literals, parentheses, `!` and binary operators. */
  function Eval(e: Expr): Option<Value> {
    match e
    case IntegerLiteral(v) => if ParseInt(v).Some? then Some(IntVal(ParseInt(v).value)) else None
    case BooleanLiteral(v) => Some(BoolVal(ParseBoolean(v)))
    case Paren(x) => Eval(x)
    case Not(x) => (match Eval(x) case Some(BoolVal(b)) => Some(BoolVal(!b)) case _ => None)
    case BinaryExpr(op, l, r) =>
      var a :- Eval(l);
      var b :- Eval(r);
      EvalOp(op, a, b)
    case _ => None
  }

  /** Folding one node keeps the value of a well-typed constant expression. */
  lemma FoldNodeKeepsValue(op: string, l: Expr, r: Expr)
    requires Eval(BinaryExpr(op, l, r)).Some?
    ensures FoldNode(op, l, r).Success?
    ensures Eval(FoldNode(op, l, r).value) == Eval(BinaryExpr(op, l, r))
  {
    if l.IntegerLiteral? && r.IntegerLiteral? {
      var a, b := ParseInt(l.value).value, ParseInt(r.value).value;
      if op == "+" { ParseIntToString(Add(a, b)); }
      else if op == "-" { ParseIntToString(Sub(a, b)); }
      else if op == "*" { ParseIntToString(Mul(a, b)); }
      else if op == "/" { ParseIntToString(Div(a, b).value); }
    }
  }

  /** Folding keeps the Java value of every constant expression that has one. */
  lemma {:induction false} FoldKeepsValue(e: Expr)
    requires Eval(e).Some?
    ensures FoldExpr(e).Success?
    ensures Eval(FoldExpr(e).value) == Eval(e)
  {
    match e
    case BinaryExpr(op, l, r) =>
      FoldKeepsValue(l);
      FoldKeepsValue(r);
      var l', r' := FoldExpr(l).value, FoldExpr(r).value;
      assert Eval(BinaryExpr(op, l', r')) == Eval(e);
      FoldNodeKeepsValue(op, l', r');
    case Paren(x) => FoldKeepsValue(x);
    case Not(x) => FoldKeepsValue(x);
    case IntegerLiteral(_) =>
    case BooleanLiteral(_) =>
  }

  // ---- folding leaves nothing to fold ----

  predicate FoldableNode(op: string, l: Expr, r: Expr) {
    (l.IntegerLiteral? && r.IntegerLiteral?) || (l.BooleanLiteral? && r.BooleanLiteral?)
  }

  /** No binary expression anywhere in `e` has two literal children of the same kind. */
  predicate Folded(e: Expr)
    decreases e, 1
  {
    match e
    case BinaryExpr(op, l, r) => !FoldableNode(op, l, r) && Folded(l) && Folded(r)
    case Paren(x) => Folded(x)
    case Not(x) => Folded(x)
    case MethodCall(c, _, args) => Folded(c) && AllFolded(args)
    case NewArray(x) => Folded(x)
    case ArrayInit(es) => AllFolded(es)
    case ArrayAccess(a, i) => Folded(a) && Folded(i)
    case ArrayLength(a) => Folded(a)
    case _ => true
  }

  predicate AllFolded(es: seq<Expr>)
    decreases es, 0
  {
    |es| == 0 || (Folded(es[0]) && AllFolded(es[1..]))
  }

  lemma FoldNodeFolded(op: string, l: Expr, r: Expr)
    requires Folded(l) && Folded(r) && FoldNode(op, l, r).Success?
    ensures Folded(FoldNode(op, l, r).value)
  {
  }

  /** One pass folds everything: its output has nothing left to fold. */
  lemma {:induction false} FoldReachesFixpoint(e: Expr)
    requires FoldExpr(e).Success?
    ensures Folded(FoldExpr(e).value)
    decreases e, 1
  {
    match e
    case BinaryExpr(op, l, r) =>
      FoldReachesFixpoint(l);
      FoldReachesFixpoint(r);
      FoldNodeFolded(op, FoldExpr(l).value, FoldExpr(r).value);
    case Paren(x) => FoldReachesFixpoint(x);
    case Not(x) => FoldReachesFixpoint(x);
    case MethodCall(c, _, args) => FoldReachesFixpoint(c); FoldsReachFixpoint(args);
    case NewArray(x) => FoldReachesFixpoint(x);
    case ArrayInit(es) => FoldsReachFixpoint(es);
    case ArrayAccess(a, i) => FoldReachesFixpoint(a); FoldReachesFixpoint(i);
    case ArrayLength(a) => FoldReachesFixpoint(a);
    case _ =>
  }

  lemma {:induction false} FoldsReachFixpoint(es: seq<Expr>)
    requires FoldExprs(es).Success?
    ensures AllFolded(FoldExprs(es).value)
    decreases es, 0
  {
    if |es| > 0 {
      FoldReachesFixpoint(es[0]);
      FoldsReachFixpoint(es[1..]);
      var r := FoldExprs(es).value;
      assert r[1..] == FoldExprs(es[1..]).value;
    }
  }

  /** On an expression with nothing to fold, a pass changes nothing and cannot fail. */
  lemma {:induction false} FoldIdentityOnFolded(e: Expr)
    requires Folded(e)
    ensures FoldExpr(e) == Success(e)
    decreases e, 1
  {
    match e
    case BinaryExpr(op, l, r) => FoldIdentityOnFolded(l); FoldIdentityOnFolded(r);
    case Paren(x) => FoldIdentityOnFolded(x);
    case Not(x) => FoldIdentityOnFolded(x);
    case MethodCall(c, _, args) => FoldIdentityOnFolded(c); FoldsIdentityOnFolded(args);
    case NewArray(x) => FoldIdentityOnFolded(x);
    case ArrayInit(es) => FoldsIdentityOnFolded(es);
    case ArrayAccess(a, i) => FoldIdentityOnFolded(a); FoldIdentityOnFolded(i);
    case ArrayLength(a) => FoldIdentityOnFolded(a);
    case _ =>
  }

  lemma {:induction false} FoldsIdentityOnFolded(es: seq<Expr>)
    requires AllFolded(es)
    ensures FoldExprs(es) == Success(es)
    decreases es, 0
  {
    if |es| > 0 {
      FoldIdentityOnFolded(es[0]);
      FoldsIdentityOnFolded(es[1..]);
      assert [es[0]] + es[1..] == es;
    }
  }

  /** Folding is idempotent. */
  lemma FoldIdempotent(e: Expr)
    requires FoldExpr(e).Success?
    ensures FoldExpr(FoldExpr(e).value) == FoldExpr(e)
  {
    FoldReachesFixpoint(e);
    FoldIdentityOnFolded(FoldExpr(e).value);
  }

  // ---- variable references: the measure the fixed-point loop needs ----

  function VarRefCount(e: Expr): nat
    decreases e, 1
  {
    match e
    case VarRef(_) => 1
    case BinaryExpr(_, l, r) => VarRefCount(l) + VarRefCount(r)
    case Paren(x) => VarRefCount(x)
    case Not(x) => VarRefCount(x)
    case MethodCall(c, _, args) => VarRefCount(c) + VarRefCounts(args)
    case NewArray(x) => VarRefCount(x)
    case ArrayInit(es) => VarRefCounts(es)
    case ArrayAccess(a, i) => VarRefCount(a) + VarRefCount(i)
    case ArrayLength(a) => VarRefCount(a)
    case _ => 0
  }

  function VarRefCounts(es: seq<Expr>): nat
    decreases es, 0
  {
    if |es| == 0 then 0 else VarRefCount(es[0]) + VarRefCounts(es[1..])
  }

  function StmtVarRefCount(s: Stmt): nat
    decreases s, 1
  {
    match s
    case AssignStmt(t, v) => VarRefCount(t) + VarRefCount(v)
    case ArrayAssignStmt(_, i, v) => VarRefCount(i) + VarRefCount(v)
    case IfStmt(c, th, el) => VarRefCount(c) + StmtVarRefCount(th) + StmtVarRefCount(el)
    case WhileStmt(c, b) => VarRefCount(c) + StmtVarRefCount(b)
    case ExprStmt(x) => VarRefCount(x)
    case ScopeStmt(ss) => StmtsVarRefCount(ss)
  }

  function StmtsVarRefCount(ss: seq<Stmt>): nat
    decreases ss, 0
  {
    if |ss| == 0 then 0 else StmtVarRefCount(ss[0]) + StmtsVarRefCount(ss[1..])
  }

  function MethodVarRefCount(m: MethodDecl): nat {
    StmtsVarRefCount(m.stmts) + VarRefCounts(m.returnExprs)
  }

  function MethodsVarRefCount(ms: seq<MethodDecl>): nat {
    if |ms| == 0 then 0 else MethodVarRefCount(ms[0]) + MethodsVarRefCount(ms[1..])
  }

  /** The number of variable references in the program. */
  function ProgramVarRefCount(p: Program): nat {
    MethodsVarRefCount(p.cls.methods)
  }

  lemma FoldNodeKeepsVarRefs(op: string, l: Expr, r: Expr)
    requires FoldNode(op, l, r).Success?
    ensures VarRefCount(FoldNode(op, l, r).value) == VarRefCount(l) + VarRefCount(r)
  {
  }

  /** Folding neither creates nor removes a variable reference. */
  lemma {:induction false} FoldKeepsVarRefs(e: Expr)
    requires FoldExpr(e).Success?
    ensures VarRefCount(FoldExpr(e).value) == VarRefCount(e)
    decreases e, 1
  {
    match e
    case BinaryExpr(op, l, r) =>
      FoldKeepsVarRefs(l);
      FoldKeepsVarRefs(r);
      FoldNodeKeepsVarRefs(op, FoldExpr(l).value, FoldExpr(r).value);
    case Paren(x) => FoldKeepsVarRefs(x);
    case Not(x) => FoldKeepsVarRefs(x);
    case MethodCall(c, _, args) => FoldKeepsVarRefs(c); FoldsKeepVarRefs(args);
    case NewArray(x) => FoldKeepsVarRefs(x);
    case ArrayInit(es) => FoldsKeepVarRefs(es);
    case ArrayAccess(a, i) => FoldKeepsVarRefs(a); FoldKeepsVarRefs(i);
    case ArrayLength(a) => FoldKeepsVarRefs(a);
    case _ =>
  }

  lemma {:induction false} FoldsKeepVarRefs(es: seq<Expr>)
    requires FoldExprs(es).Success?
    ensures VarRefCounts(FoldExprs(es).value) == VarRefCounts(es)
    decreases es, 0
  {
    if |es| > 0 {
      FoldKeepsVarRefs(es[0]);
      FoldsKeepVarRefs(es[1..]);
      var r := FoldExprs(es).value;
      assert r[1..] == FoldExprs(es[1..]).value;
    }
  }

  lemma {:induction false} FoldStmtKeepsVarRefs(s: Stmt)
    requires FoldStmt(s).Success?
    ensures StmtVarRefCount(FoldStmt(s).value) == StmtVarRefCount(s)
    decreases s, 1
  {
    match s
    case AssignStmt(t, v) => FoldKeepsVarRefs(t); FoldKeepsVarRefs(v);
    case ArrayAssignStmt(_, i, v) => FoldKeepsVarRefs(i); FoldKeepsVarRefs(v);
    case IfStmt(c, th, el) => FoldKeepsVarRefs(c); FoldStmtKeepsVarRefs(th); FoldStmtKeepsVarRefs(el);
    case WhileStmt(c, b) => FoldKeepsVarRefs(c); FoldStmtKeepsVarRefs(b);
    case ExprStmt(x) => FoldKeepsVarRefs(x);
    case ScopeStmt(ss) => FoldStmtsKeepVarRefs(ss);
  }

  lemma {:induction false} FoldStmtsKeepVarRefs(ss: seq<Stmt>)
    requires FoldStmts(ss).Success?
    ensures StmtsVarRefCount(FoldStmts(ss).value) == StmtsVarRefCount(ss)
    decreases ss, 0
  {
    if |ss| > 0 {
      FoldStmtKeepsVarRefs(ss[0]);
      FoldStmtsKeepVarRefs(ss[1..]);
      var r := FoldStmts(ss).value;
      assert r[1..] == FoldStmts(ss[1..]).value;
    }
  }

  lemma {:induction false} FoldMethodsKeepVarRefs(ms: seq<MethodDecl>)
    requires FoldMethods(ms).Success?
    ensures MethodsVarRefCount(FoldMethods(ms).value) == MethodsVarRefCount(ms)
  {
    if |ms| > 0 {
      FoldStmtsKeepVarRefs(ms[0].stmts);
      FoldsKeepVarRefs(ms[0].returnExprs);
      FoldMethodsKeepVarRefs(ms[1..]);
      var r := FoldMethods(ms).value;
      assert r[1..] == FoldMethods(ms[1..]).value;
    }
  }

  /** A whole folding pass keeps the program's variable-reference count. */
  lemma FoldProgramKeepsVarRefs(p: Program)
    requires FoldProgram(p).Success?
    ensures ProgramVarRefCount(FoldProgram(p).value) == ProgramVarRefCount(p)
  {
    FoldMethodsKeepVarRefs(p.cls.methods);
  }

  /**
   * The pass object. Its `changed` flag is assigned only by `Reset`; the
   * pass itself has no `modifies` clause, so it cannot report a change.
   */
  class Folder {
    var changed: bool

    constructor()
      ensures !changed
    {
      changed := false;
    }

    function IsChanged(): bool
      reads this
    {
      changed
    }

    method Reset()
      modifies this
      ensures !changed
    {
      changed := false;
    }

    /** `analyze(root)`: one folding pass. */
    method Analyze(p: Program) returns (r: Result<Program, JavaError>)
      ensures r == FoldProgram(p)
    {
      r := FoldProgram(p);
    }
  }
}
