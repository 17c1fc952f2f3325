/**
 * What the type-checking pass decides. Each visit is characterised for
 * operands that are neither calls nor static field reads: the report it
 * gives, in terms of the operand types. The argument scan accepts
 * arguments that match the parameters one for one, or any number of
 * elements of a final vararg, and reports an extra argument, a missing one,
 * and an array mixed with elements.
 */
module TypeCheckFacts {
  import opened Wrappers
  import opened Ast
  import opened TypeUtils
  import opened TypeCheck

  // ---- the exemption ----

  /** A call on a fresh object of an imported class, to a method this class does not declare, is exempt. */
  lemma ImportedClassCallExempt(t: SymbolTable, c: string, name: string, args: seq<Expr>, m: Option<string>)
    requires c in ShortNames(t.imports) && name !in t.methods
    ensures ImportedCall(t, MethodCall(NewClass(c), name, args), m) == Success(true)
  {
    assert GetExprType(t, NewClass(c), m) == Success(Some(SingleObject(c)));
  }

  /** A call to a method this class declares, on a receiver typed as this class, is never exempt. */
  lemma OwnMethodCallNotExempt(t: SymbolTable, caller: Expr, name: string, args: seq<Expr>, m: Option<string>, ty: Type)
    requires name in t.methods && GetExprType(t, caller, m) == Success(Some(ty)) && ty.name == t.className
    ensures ImportedCall(t, MethodCall(caller, name, args), m) == Success(false)
  {
  }

  // ---- binary expressions ----

  /** A static field read on the left is reported, whatever the operator, before any typing. */
  lemma StaticOperandReported(mode: Mode, t: SymbolTable, e: Expr, m: Option<string>, isStatic: bool)
    requires e.BinaryExpr? && AccessFieldInStaticMethod(t, e.left, m, isStatic) == Success(true)
    ensures BinaryReports(mode, t, e, m, isStatic) == Success(One(ExprSite(e), StaticFieldMessage))
  {
  }

  /** An int operator on plain operands: accepted exactly when both are ints, else reported with both types. */
  lemma IntOperatorChecked(mode: Mode, t: SymbolTable, op: string, l: Expr, r: Expr, m: Option<string>, isStatic: bool, a: Type, b: Type)
    requires op in IntOps() && !l.MethodCall? && !r.MethodCall?
    requires AccessFieldInStaticMethod(t, l, m, isStatic) == Success(false) && AccessFieldInStaticMethod(t, r, m, isStatic) == Success(false)
    requires GetExprType(t, l, m) == Success(Some(a)) && GetExprType(t, r, m) == Success(Some(b))
    ensures BinaryReports(mode, t, BinaryExpr(op, l, r), m, isStatic) ==
      if IsInt(a) && IsInt(b) then Success([]) else Success(One(ExprSite(BinaryExpr(op, l, r)), ExpectedMessage("int", a, b)))
  {
  }

  /** Any other operator on plain operands: accepted exactly when both are booleans. */
  lemma BooleanOperatorChecked(mode: Mode, t: SymbolTable, op: string, l: Expr, r: Expr, m: Option<string>, isStatic: bool, a: Type, b: Type)
    requires op !in IntOps() && !l.MethodCall? && !r.MethodCall?
    requires AccessFieldInStaticMethod(t, l, m, isStatic) == Success(false) && AccessFieldInStaticMethod(t, r, m, isStatic) == Success(false)
    requires GetExprType(t, l, m) == Success(Some(a)) && GetExprType(t, r, m) == Success(Some(b))
    ensures BinaryReports(mode, t, BinaryExpr(op, l, r), m, isStatic) ==
      if IsBoolean(a) && IsBoolean(b) then Success([]) else Success(One(ExprSite(BinaryExpr(op, l, r)), ExpectedMessage("boolean", a, b)))
  {
  }

  /** Two exempt calls under an int operator are taken as ints and accepted. */
  lemma ExemptOperandsAccepted(mode: Mode, t: SymbolTable, op: string, l: Expr, r: Expr, m: Option<string>, isStatic: bool)
    requires op in IntOps() && ImportedCall(t, l, m) == Success(true) && ImportedCall(t, r, m) == Success(true)
    ensures BinaryReports(mode, t, BinaryExpr(op, l, r), m, isStatic) == Success([])
  {
  }

  // ---- array access, conditions, negation, length ----

  /** An access on plain operands: a non-array base is reported first, then a non-int index. */
  lemma ArrayAccessChecked(t: SymbolTable, a: Expr, i: Expr, m: Option<string>, isStatic: bool, at: Type, it: Type)
    requires !a.MethodCall? && !i.MethodCall? && AccessFieldInStaticMethod(t, a, m, isStatic) == Success(false)
    requires GetExprType(t, a, m) == Success(Some(at)) && GetExprType(t, i, m) == Success(Some(it))
    ensures ArrayAccessReports(t, ArrayAccess(a, i), m, isStatic) ==
      if !(at.isArray || at.isVararg) then Success(One(ExprSite(ArrayAccess(a, i)), NonArrayAccessMessage))
      else if !IsInt(it) then Success(One(ExprSite(ArrayAccess(a, i)), NonIntIndexMessage))
      else Success([])
  {
  }

  /** A plain condition is accepted exactly when it is a boolean. */
  lemma ConditionChecked(mode: Mode, t: SymbolTable, s: Stmt, m: Option<string>, isStatic: bool, ct: Type)
    requires (s.IfStmt? || s.WhileStmt?) && !s.cond.MethodCall?
    requires AccessFieldInStaticMethod(t, s.cond, m, isStatic) == Success(false) && GetExprType(t, s.cond, m) == Success(Some(ct))
    ensures ConditionReports(mode, t, s, m, isStatic) ==
      if IsBoolean(ct) then Success([]) else Success(One(StmtSite(s), NonBooleanConditionMessage))
  {
  }

  /** A plain negated operand is accepted exactly when it is a boolean. */
  lemma NotChecked(t: SymbolTable, x: Expr, m: Option<string>, isStatic: bool, ty: Type)
    requires !x.MethodCall? && AccessFieldInStaticMethod(t, x, m, isStatic) == Success(false) && GetExprType(t, x, m) == Success(Some(ty))
    ensures NotReports(t, Not(x), m, isStatic) ==
      if IsBoolean(ty) then Success([]) else Success(One(ExprSite(Not(x)), NotBooleanMessage))
  {
  }

  /** `.length` of a plain object is accepted exactly when it is an array or a vararg. */
  lemma LengthChecked(t: SymbolTable, x: Expr, m: Option<string>, isStatic: bool, ty: Type)
    requires !x.MethodCall? && AccessFieldInStaticMethod(t, x, m, isStatic) == Success(false) && GetExprType(t, x, m) == Success(Some(ty))
    ensures LengthReports(t, ArrayLength(x), m, isStatic) ==
      if ty.isArray || ty.isVararg then Success([]) else Success(One(ExprSite(ArrayLength(x)), LengthOnNonArrayMessage))
  {
  }

  // ---- assignments and returns ----

  /** A plain value assigned to a variable of its own type is accepted. */
  lemma SameTypeAssignAccepted(t: SymbolTable, x: string, v: Expr, m: Option<string>, isStatic: bool, ty: Type)
    requires !v.MethodCall?
    requires AccessFieldInStaticMethod(t, VarRef(x), m, isStatic) == Success(false) && AccessFieldInStaticMethod(t, v, m, isStatic) == Success(false)
    requires GetExprType(t, VarRef(x), m) == Success(Some(ty)) && GetExprType(t, v, m) == Success(Some(ty))
    ensures AssignReports(t, AssignStmt(VarRef(x), v), m, isStatic) == Success([])
  {
    CompatibilityReflexive(t, ty);
  }

  /** Any target other than a variable is reported, whatever the value. */
  lemma NonVariableTargetReported(t: SymbolTable, s: Stmt, m: Option<string>, isStatic: bool)
    requires s.AssignStmt? && !s.target.VarRef? && AccessFieldInStaticMethod(t, s.rhs, m, isStatic) == Success(false)
    requires GetExprType(t, s.target, m).Success? && GetExprType(t, s.rhs, m).Success?
    ensures AssignReports(t, s, m, isStatic) == Success(One(StmtSite(s), AssigneeNotVariableMessage))
  {
  }

  /** A plain value of the current method's own return type is accepted. */
  lemma SameTypeReturnAccepted(t: SymbolTable, e: Expr, m: Option<string>, ty: Type)
    requires !e.MethodCall? && GetExprType(t, e, m) == Success(Some(ty)) && ReturnTypeOf(t, m) == Success(Some(ty))
    ensures ReturnReports(t, e, m) == Success([])
  {
    CompatibilityReflexive(t, ty);
  }

  /** An int returned from a boolean method is reported, naming both types. */
  lemma IntForBooleanReturnReported(t: SymbolTable, e: Expr, m: Option<string>)
    requires !e.MethodCall? && GetExprType(t, e, m) == Success(Some(IntType())) && ReturnTypeOf(t, m) == Success(Some(BooleanType()))
    requires t.className != "int" && "int" !in ShortNames(t.imports)
    ensures ReturnReports(t, e, m) == Success(One(ReturnSite(e), ReturnMessage(m, Some(BooleanType()), Some(IntType()))))
  {
  }

  // ---- the argument scan ----

  /** Non-vararg parameters matched one for one by plain arguments of their own types leave the scan clean. */
  lemma {:induction false} MatchingArgsScan(t: SymbolTable, ps: seq<Symbol>, fs: seq<ArgFacts>, n: nat)
    requires n <= |fs| && n <= |ps|
    requires forall i :: 0 <= i < n ==> !ps[i].typ.isVararg && fs[i].exempt == Success(false) && fs[i].typ == Success(Some(ps[i].typ))
    ensures ArgScan(t, ps, fs, n) == Success(Scanning(n, false, false))
  {
    if n > 0 {
      MatchingArgsScan(t, ps, fs, n - 1);
      CompatibilityReflexive(t, ps[n - 1].typ);
    }
  }

  /** Plain elements of a single vararg parameter's element type keep the index at 0 and set `atrrFound`. */
  lemma {:induction false} VarargElementsScan(t: SymbolTable, ps: seq<Symbol>, fs: seq<ArgFacts>, n: nat)
    requires n <= |fs| && |ps| == 1 && ps[0].typ.isVararg
    requires forall i :: 0 <= i < n ==> (fs[i].exempt == Success(false) && fs[i].typ.Success? && fs[i].typ.value.Some?
      && fs[i].typ.value.value.name == ps[0].typ.name && !fs[i].typ.value.value.isArray)
    ensures ArgScan(t, ps, fs, n) == Success(Scanning(0, false, n > 0))
  {
    if n > 0 {
      VarargElementsScan(t, ps, fs, n - 1);
    }
  }

  /** Once the parameters are used up, one more argument, of whatever kind, is reported as too many. */
  lemma ExtraArgScan(t: SymbolTable, ps: seq<Symbol>, fs: seq<ArgFacts>)
    requires |fs| == |ps| + 1
    requires ArgScan(t, ps, fs, |ps|) == Success(Scanning(|ps|, false, false))
    ensures ArgScan(t, ps, fs, |fs|) == Success(Reported(TooManyArgs))
  {
  }

  /** An element and then an array for the same vararg: the array is reported. */
  lemma ArrayAfterElementScan(t: SymbolTable, ps: seq<Symbol>, fs: seq<ArgFacts>, el: Type, arr: Type)
    requires |ps| == 1 && ps[0].typ.isVararg && |fs| == 2
    requires el.name == ps[0].typ.name && !el.isArray && arr.name == ps[0].typ.name && arr.isArray
    requires fs[0] == ArgFacts(Success(false), Success(Some(el))) && fs[1] == ArgFacts(Success(false), Success(Some(arr)))
    ensures ArgScan(t, ps, fs, 2) == Success(Reported(ArrayAfterElement))
  {
    assert ArgScan(t, ps, fs, 1) == Success(Scanning(0, false, true));
  }

  /** An array and then anything for the same vararg: the later argument is reported. */
  lemma ArgAfterArrayScan(t: SymbolTable, ps: seq<Symbol>, fs: seq<ArgFacts>, arr: Type)
    requires |ps| == 1 && ps[0].typ.isVararg && |fs| == 2
    requires arr.name == ps[0].typ.name && arr.isArray && fs[0] == ArgFacts(Success(false), Success(Some(arr)))
    ensures ArgScan(t, ps, fs, 2) == Success(Reported(ArgsAfterArray))
  {
    assert ArgScan(t, ps, fs, 1) == Success(Scanning(0, true, false));
  }

  /** The facts of plain arguments of the parameters' own types, as `MatchingArgsScan` wants them. */
  lemma PlainFacts(t: SymbolTable, call: Expr, ps: seq<Symbol>, m: Option<string>, n: nat)
    requires call.MethodCall? && n <= |call.args| && n <= |ps|
    requires forall i :: 0 <= i < n ==> !ps[i].typ.isVararg && !call.args[i].MethodCall? && GetExprType(t, call.args[i], m) == Success(Some(ps[i].typ))
    ensures forall i :: 0 <= i < n ==> (!ps[i].typ.isVararg && FactsOf(t, call.args, m)[i].exempt == Success(false)
      && FactsOf(t, call.args, m)[i].typ == Success(Some(ps[i].typ)))
  {
    forall i | 0 <= i < n
      ensures FactsOf(t, call.args, m)[i].exempt == Success(false) && FactsOf(t, call.args, m)[i].typ == Success(Some(ps[i].typ))
    {
      FactsAt(t, call.args, m, i);
    }
  }

  /** A call with exactly one plain argument of the right type per non-vararg parameter is accepted. */
  lemma ExactArgsAccepted(t: SymbolTable, call: Expr, m: Option<string>, ps: seq<Symbol>)
    requires call.MethodCall? && t.Params(call.name) == Some(ps) && |call.args| == |ps|
    requires forall i :: 0 <= i < |ps| ==> !ps[i].typ.isVararg && !call.args[i].MethodCall? && GetExprType(t, call.args[i], m) == Success(Some(ps[i].typ))
    ensures CheckedCallReports(t, call, m) == Success([])
  {
    PlainFacts(t, call, ps, m, |ps|);
    MatchingArgsScan(t, ps, FactsOf(t, call.args, m), |ps|);
  }

  /** One argument more than the parameters, after matching ones, is reported with both counts. */
  lemma ExtraArgReported(t: SymbolTable, call: Expr, m: Option<string>, ps: seq<Symbol>)
    requires call.MethodCall? && t.Params(call.name) == Some(ps) && |call.args| == |ps| + 1
    requires forall i :: 0 <= i < |ps| ==> !ps[i].typ.isVararg && !call.args[i].MethodCall? && GetExprType(t, call.args[i], m) == Success(Some(ps[i].typ))
    ensures CheckedCallReports(t, call, m) == Success(One(ExprSite(call), ArityMessage(call.name, |ps|, |ps| + 1)))
  {
    PlainFacts(t, call, ps, m, |ps|);
    MatchingArgsScan(t, ps, FactsOf(t, call.args, m), |ps|);
    ExtraArgScan(t, ps, FactsOf(t, call.args, m));
  }

  /** Fewer matching arguments than parameters, with the next parameter not a vararg, is reported with both counts. */
  lemma MissingArgReported(t: SymbolTable, call: Expr, m: Option<string>, ps: seq<Symbol>)
    requires call.MethodCall? && t.Params(call.name) == Some(ps) && |call.args| < |ps| && !ps[|call.args|].typ.isVararg
    requires forall i :: 0 <= i < |call.args| ==> !ps[i].typ.isVararg && !call.args[i].MethodCall? && GetExprType(t, call.args[i], m) == Success(Some(ps[i].typ))
    ensures CheckedCallReports(t, call, m) == Success(One(ExprSite(call), ArityMessage(call.name, |ps|, |call.args|)))
  {
    PlainFacts(t, call, ps, m, |call.args|);
    MatchingArgsScan(t, ps, FactsOf(t, call.args, m), |call.args|);
  }

  /** Any number of plain elements, none included, for a single vararg parameter is accepted. */
  lemma VarargElementsAccepted(t: SymbolTable, call: Expr, m: Option<string>, ps: seq<Symbol>)
    requires call.MethodCall? && t.Params(call.name) == Some(ps) && |ps| == 1 && ps[0].typ.isVararg
    requires forall i :: 0 <= i < |call.args| ==> (!call.args[i].MethodCall? && GetExprType(t, call.args[i], m).Success?
      && GetExprType(t, call.args[i], m).value.Some? && GetExprType(t, call.args[i], m).value.value.name == ps[0].typ.name
      && !GetExprType(t, call.args[i], m).value.value.isArray)
    ensures CheckedCallReports(t, call, m) == Success([])
  {
    var fs := FactsOf(t, call.args, m);
    forall i | 0 <= i < |call.args|
      ensures fs[i].exempt == Success(false) && fs[i].typ == GetExprType(t, call.args[i], m)
    {
      FactsAt(t, call.args, m, i);
    }
    VarargElementsScan(t, ps, fs, |call.args|);
  }

  /** A static field argument is reported only from a static method. */
  lemma {:induction false} StaticArgNeedsStatic(t: SymbolTable, call: Expr, m: Option<string>, isStatic: bool, n: nat)
    requires call.MethodCall? && n <= |call.args|
    requires StaticArgReports(t, call, m, isStatic, n).Success? && StaticArgReports(t, call, m, isStatic, n).value != []
    ensures isStatic && exists i :: 0 <= i < n && call.args[i].VarRef? && HasName(t.fields, call.args[i].name)
  {
    var prev := StaticArgReports(t, call, m, isStatic, n - 1);
    if prev.Success? && prev.value != [] {
      StaticArgNeedsStatic(t, call, m, isStatic, n - 1);
    } else {
      StaticAccessNeedsStaticVar(t, call.args[n - 1], m, isStatic);
    }
  }

  /** Arguments that are not variables are never reported for an exempt call. */
  lemma {:induction false} NonVariableArgsQuiet(t: SymbolTable, call: Expr, m: Option<string>, isStatic: bool, n: nat)
    requires call.MethodCall? && n <= |call.args|
    requires forall i :: 0 <= i < n ==> !call.args[i].VarRef?
    ensures StaticArgReports(t, call, m, isStatic, n) == Success([])
  {
    if n > 0 {
      NonVariableArgsQuiet(t, call, m, isStatic, n - 1);
    }
  }

  /** A call on a fresh imported object, to a method this class lacks, with no variable arguments is accepted. */
  lemma ImportedObjectCallAccepted(t: SymbolTable, c: string, name: string, args: seq<Expr>, m: Option<string>, isStatic: bool)
    requires c in ShortNames(t.imports) && name !in t.methods
    requires forall i :: 0 <= i < |args| ==> !args[i].VarRef?
    ensures CallReports(t, MethodCall(NewClass(c), name, args), m, isStatic) == Success([])
  {
    assert GetExprType(t, NewClass(c), m) == Success(Some(SingleObject(c)));
    assert BelongsToMainClass(t, NewClass(c), name, m) == Success(false);
    NonVariableArgsQuiet(t, MethodCall(NewClass(c), name, args), m, isStatic, |args|);
  }
}
