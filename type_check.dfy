/**
 * The type-checking pass. A method declaration records its name as the
 * current method; every other visit looks at one node and adds at most one
 * report, positioned at that node. Binary operators, array accesses,
 * conditions, assignments, negations, returns, array assignments and
 * `.length` are single decisions, written here as functions from the node to
 * the reports it adds. A method call on a receiver of this class scans its
 * arguments against the callee's parameters in a loop that tracks the
 * parameter index and whether an array or an element has been passed to a
 * vararg parameter; the scan is a recursive function and the visit a loop
 * proved against it.
 *
 * A call on an object of an imported class, or of the own class when it
 * extends something, that is not a method of this class is exempt from most
 * checks: its type is unknown and is taken as whatever the context needs.
 *
 * `isStatic` of the enclosing method declaration is given to every visit
 * that asks whether a field is read from a static method.
 */
module TypeCheck {
  import opened Wrappers
  import opened Ast
  import opened TypeUtils
  import JavaInt

  /**
   * `AsWritten` follows the code; `Repaired` tests the right operand's own
   * kind for its exemption, looks at the condition rather than the statement
   * for a static field, and reports an array assignment to a field as a
   * static access only inside a static method.
   */
  datatype Mode = AsWritten | Repaired

  const StaticFieldMessage := "Cannot access fields in a static method "
  const NonArrayAccessMessage := "Cannot access member of array on a non array object"
  const NonIntIndexMessage := "Cannot access array with non integer indexes"
  const NonBooleanConditionMessage := "Cannot use types different than boolean in conditions"
  const AssignMismatchMessage := "Assigned has different type from assignee"
  const AssigneeNotVariableMessage := "Assignee must be a variable"
  const ArgsAfterArrayMessage := "Cannot have arguments after an array when param is vararg"
  const ArrayAfterElementMessage := "Cannot have an array after an attribute when param is vararg"
  const NotBooleanMessage := "Expression must be a boolean"
  const LengthOnNonArrayMessage := "Cannot use .length on a non array object"

  /** The operators that need two ints; every other operator needs two booleans. */
  function IntOps(): set<string> { {"+", "-", "/", "*", "<", ">"} }

  /** `Type.print`, taken as the name followed by `[]` for an array. */
  function Print(ty: Type): string { ty.name + if ty.isArray then "[]" else "" }

  /** A possibly null type as `String.format` shows it. */
  function Shown(ot: Option<Type>): string { if ot.None? then "null" else Print(ot.value) }

  function ExpectedMessage(what: string, a: Type, b: Type): string {
    "Expected '" + what + "' types. Got: '" + Print(a) + "' and '" + Print(b) + "'"
  }

  function ArityMessage(name: string, expected: nat, got: nat): string {
    "Method '" + name + "' expected '" + JavaInt.IntToString(expected) + "' arguments. Got: '" + JavaInt.IntToString(got) + "'"
  }

  function VarargArityMessage(name: string, expected: nat, got: nat): string {
    "Method '" + name + "' expected at least '" + JavaInt.IntToString(expected) + "' arguments(last is vararg). Got: '" + JavaInt.IntToString(got) + "'"
  }

  function ParamMismatchMessage(name: string, expected: string, got: string): string {
    "Method '" + name + "' parameter type mismatch. Expected '" + expected + "', got: '" + got + "'"
  }

  function ReturnMessage(m: Option<string>, expected: Option<Type>, got: Option<Type>): string {
    "Method '" + (if m.None? then "null" else m.value) + "' expected return type '" + Shown(expected) + "' . Got: '" + Shown(got) + "'"
  }

  /** `Type.equals` against `int` and `boolean`: name and array flag. */
  predicate IsInt(ty: Type) { SameType(ty, IntType()) }
  predicate IsBoolean(ty: Type) { SameType(ty, BooleanType()) }

  /** `getChild(0)`: the first child of an expression node, if it has one. */
  function FirstChild(e: Expr): (r: Option<Expr>)
    ensures e.VarRef? || e.IntegerLiteral? || e.BooleanLiteral? || e.This? || e.NewClass? ==> r.None?
  {
    match e
    case BinaryExpr(_, l, _) => Some(l)
    case Paren(inner) => Some(inner)
    case Not(operand) => Some(operand)
    case MethodCall(caller, _, _) => Some(caller)
    case NewArray(size) => Some(size)
    case ArrayInit(elems) => if |elems| == 0 then None else Some(elems[0])
    case ArrayAccess(a, _) => Some(a)
    case ArrayLength(a) => Some(a)
    case _ => None
  }

  /** A call whose receiver types as an imported class or as the own class with a superclass. */
  function ReceiverImported(t: SymbolTable, e: Expr, m: Option<string>): (r: Result<bool, JavaError>)
    ensures !e.MethodCall? ==> r == Success(false)
    ensures r == Success(true) ==> e.MethodCall?
  {
    if !e.MethodCall? then Success(false)
    else
      var ct :- GetExprType(t, e.caller, m);
      IsImportedOrSuper(t, ct)
  }

  /** The exemption: a call on an imported or super receiver that is not a method of this class. */
  function ImportedCall(t: SymbolTable, e: Expr, m: Option<string>): (r: Result<bool, JavaError>)
    ensures !e.MethodCall? ==> r == Success(false)
    ensures r == Success(true) ==> e.MethodCall? && ReceiverImported(t, e, m) == Success(true)
    ensures r == Success(true) ==> BelongsToMainClass(t, e.caller, e.name, m) == Success(false)
  {
    var imported :- ReceiverImported(t, e, m);
    if !imported then Success(false)
    else
      var own :- BelongsToMainClass(t, e.caller, e.name, m);
      Success(!own)
  }

  /** A single report at `site`. */
  function One(site: Site, message: string): seq<Report> { [Report(site, message)] }

  /** What every visit promises: at most one report, and at the node visited. */
  predicate AtMostOneAt(r: Result<seq<Report>, JavaError>, site: Site) {
    r.Success? ==> |r.value| <= 1 && forall i :: 0 <= i < |r.value| ==> r.value[i].site == site
  }

  // ---- binary expressions ----

  /** An operand of an int operator: an exempt call counts as an int. */
  function IntOperandType(t: SymbolTable, e: Expr, m: Option<string>): Result<Option<Type>, JavaError> {
    var imported :- ImportedCall(t, e, m);
    if imported then Success(Some(IntType())) else GetExprType(t, e, m)
  }

  /** Both operand types must be `want`; a null type on either side is dereferenced. */
  function OperandsVerdict(e: Expr, lt: Option<Type>, rt: Option<Type>, want: Type, what: string): (r: Result<seq<Report>, JavaError>)
    ensures r.Failure? <==> lt.None? || rt.None?
    ensures r.Success? ==> (r.value == [] <==> SameType(lt.value, want) && SameType(rt.value, want))
    ensures AtMostOneAt(r, ExprSite(e))
  {
    if lt.None? || rt.None? then Failure(NullPointer)
    else if SameType(lt.value, want) && SameType(rt.value, want) then Success([])
    else Success(One(ExprSite(e), ExpectedMessage(what, lt.value, rt.value)))
  }

  /**
   * The receiver test on the right operand of a boolean operator. As written
   * it asks whether the LEFT operand is a call and then types the right
   * operand's first child.
   */
  function RightBooleanExempt(mode: Mode, t: SymbolTable, e: Expr, m: Option<string>): Result<bool, JavaError>
    requires e.BinaryExpr?
  {
    if mode == Repaired then ReceiverImported(t, e.right, m)
    else if !e.left.MethodCall? then Success(false)
    else
      var child := FirstChild(e.right);
      if child.None? then Failure(IndexOutOfBounds)
      else
        var ct :- GetExprType(t, child.value, m);
        IsImportedOrSuper(t, ct)
  }

  /** `visitBinaryExpr`. */
  function BinaryReports(mode: Mode, t: SymbolTable, e: Expr, m: Option<string>, isStatic: bool): (r: Result<seq<Report>, JavaError>)
    requires e.BinaryExpr?
    ensures AtMostOneAt(r, ExprSite(e))
  {
    var leftStatic :- AccessFieldInStaticMethod(t, e.left, m, isStatic);
    var rightStatic :- if leftStatic then Success(false) else AccessFieldInStaticMethod(t, e.right, m, isStatic);
    if leftStatic || rightStatic then Success(One(ExprSite(e), StaticFieldMessage))
    else if e.op in IntOps() then
      var lt :- IntOperandType(t, e.left, m);
      var rt :- IntOperandType(t, e.right, m);
      OperandsVerdict(e, lt, rt, IntType(), "int")
    else
      var leftExempt :- ReceiverImported(t, e.left, m);
      var lt :- if leftExempt then Success(Some(BooleanType())) else GetExprType(t, e.left, m);
      var rightExempt :- RightBooleanExempt(mode, t, e, m);
      var rt :- if rightExempt then Success(Some(BooleanType())) else GetExprType(t, e.right, m);
      OperandsVerdict(e, lt, rt, BooleanType(), "boolean")
  }

  // ---- array access, conditions, negation, length ----

  /** `visitArrayAccess`: the base must be an array, a vararg or an exempt call; the index an int or an exempt call. */
  function ArrayAccessReports(t: SymbolTable, e: Expr, m: Option<string>, isStatic: bool): (r: Result<seq<Report>, JavaError>)
    requires e.ArrayAccess?
    ensures AtMostOneAt(r, ExprSite(e))
  {
    var at :- GetExprType(t, e.base, m);
    var it :- GetExprType(t, e.index, m);
    var arrayExempt :- ImportedCall(t, e.base, m);
    var indexExempt :- ImportedCall(t, e.index, m);
    var static_ :- AccessFieldInStaticMethod(t, e.base, m, isStatic);
    if static_ then Success(One(ExprSite(e), StaticFieldMessage))
    else if !arrayExempt && at.None? then Failure(NullPointer)
    else if !(arrayExempt || at.value.isArray || at.value.isVararg) then Success(One(ExprSite(e), NonArrayAccessMessage))
    else if !indexExempt && it.None? then Failure(NullPointer)
    else if !(indexExempt || IsInt(it.value)) then Success(One(ExprSite(e), NonIntIndexMessage))
    else Success([])
  }

  /** `visitConditions`, for an `if` or a `while`. As written the static-field test is asked of the statement. */
  function ConditionReports(mode: Mode, t: SymbolTable, s: Stmt, m: Option<string>, isStatic: bool): (r: Result<seq<Report>, JavaError>)
    requires s.IfStmt? || s.WhileStmt?
    ensures AtMostOneAt(r, StmtSite(s))
  {
    var ct :- GetExprType(t, s.cond, m);
    var exempt :- ImportedCall(t, s.cond, m);
    var static_ :- if mode == AsWritten then Success(false) else AccessFieldInStaticMethod(t, s.cond, m, isStatic);
    if static_ then Success(One(StmtSite(s), StaticFieldMessage))
    else if exempt then Success([])
    else if ct.None? then Failure(NullPointer)
    else if IsBoolean(ct.value) then Success([])
    else Success(One(StmtSite(s), NonBooleanConditionMessage))
  }

  /** `visitNot`: the operand must be a boolean or an exempt call. */
  function NotReports(t: SymbolTable, e: Expr, m: Option<string>, isStatic: bool): (r: Result<seq<Report>, JavaError>)
    requires e.Not?
    ensures AtMostOneAt(r, ExprSite(e))
  {
    var ot :- GetExprType(t, e.operand, m);
    var exempt :- ImportedCall(t, e.operand, m);
    var static_ :- AccessFieldInStaticMethod(t, e.operand, m, isStatic);
    if static_ then Success(One(ExprSite(e), StaticFieldMessage))
    else if exempt then Success([])
    else if ot.None? then Failure(NullPointer)
    else if IsBoolean(ot.value) then Success([])
    else Success(One(ExprSite(e), NotBooleanMessage))
  }

  /** `visitArrayLength`: the object must be an array, a vararg or an exempt call. */
  function LengthReports(t: SymbolTable, e: Expr, m: Option<string>, isStatic: bool): (r: Result<seq<Report>, JavaError>)
    requires e.ArrayLength?
    ensures AtMostOneAt(r, ExprSite(e))
  {
    var ot :- GetExprType(t, e.base, m);
    var exempt :- ImportedCall(t, e.base, m);
    var static_ :- AccessFieldInStaticMethod(t, e.base, m, isStatic);
    if static_ then Success(One(ExprSite(e), StaticFieldMessage))
    else if exempt then Success([])
    else if ot.None? then Failure(NullPointer)
    else if ot.value.isArray || ot.value.isVararg then Success([])
    else Success(One(ExprSite(e), LengthOnNonArrayMessage))
  }

  // ---- assignments and returns ----

  /** `visitAssignment`: a variable target, then an exempt call or a compatible value. */
  function AssignReports(t: SymbolTable, s: Stmt, m: Option<string>, isStatic: bool): (r: Result<seq<Report>, JavaError>)
    requires s.AssignStmt?
    ensures AtMostOneAt(r, StmtSite(s))
  {
    var lt :- GetExprType(t, s.target, m);
    var rt :- GetExprType(t, s.rhs, m);
    var leftStatic :- AccessFieldInStaticMethod(t, s.target, m, isStatic);
    var rightStatic :- if leftStatic then Success(false) else AccessFieldInStaticMethod(t, s.rhs, m, isStatic);
    if leftStatic || rightStatic then Success(One(StmtSite(s), StaticFieldMessage))
    else if !s.target.VarRef? then Success(One(StmtSite(s), AssigneeNotVariableMessage))
    else
      var exempt :- ReceiverImported(t, s.rhs, m);
      if exempt then Success([])
      else
        var ok :- VerifyTypeCompatibility(t, rt, lt);
        if ok then Success([]) else Success(One(StmtSite(s), AssignMismatchMessage))
  }

  /** `getReturnType`: a null map is dereferenced; an unknown or null method name gives null. */
  function ReturnTypeOf(t: SymbolTable, m: Option<string>): Result<Option<Type>, JavaError> {
    if t.returnTypes.None? then Failure(NullPointer)
    else if m.Some? && m.value in t.returnTypes.value then Success(Some(t.returnTypes.value[m.value]))
    else Success(None)
  }

  /** `visitReturnStmt`: an exempt call, or a value compatible with the current method's return type. */
  function ReturnReports(t: SymbolTable, e: Expr, m: Option<string>): (r: Result<seq<Report>, JavaError>)
    ensures AtMostOneAt(r, ReturnSite(e))
  {
    var rt :- GetExprType(t, e, m);
    var exempt :- ImportedCall(t, e, m);
    if exempt then Success([])
    else
      var mt :- ReturnTypeOf(t, m);
      var ok :- VerifyTypeCompatibility(t, rt, mt);
      if ok then Success([]) else Success(One(ReturnSite(e), ReturnMessage(m, mt, rt)))
  }

  /**
   * `visitArrayAssignment`. The target is a field when the locals do not
   * hold it (with the type the lookup gives) and the fields do; as written
   * that alone is reported as a static access.
   */
  function ArrayAssignReports(mode: Mode, t: SymbolTable, s: Stmt, m: Option<string>, isStatic: bool): (r: Result<seq<Report>, JavaError>)
    requires s.ArrayAssignStmt?
    ensures AtMostOneAt(r, StmtSite(s))
  {
    var at :- GetVarRefType(t, s.name, m);
    var locals := LocalsOf(t, m);
    if locals.None? then Failure(NullPointer)
    else
      var fieldTarget := !ContainsSymbol(locals.value, at, s.name) && ContainsSymbol(t.fields, at, s.name)
        && (mode == AsWritten || isStatic);
      var valueStatic :- if fieldTarget then Success(false) else AccessFieldInStaticMethod(t, s.value, m, isStatic);
      if fieldTarget || valueStatic then Success(One(StmtSite(s), StaticFieldMessage))
      else
        var it :- GetExprType(t, s.index, m);
        if it.None? then Failure(NullPointer)
        else if !IsInt(it.value) then Success(One(StmtSite(s), NonIntIndexMessage))
        else if at.None? then Failure(NullPointer)
        else if !at.value.isArray then Success(One(StmtSite(s), NonArrayAccessMessage))
        else
          var vt :- GetExprType(t, s.value, m);
          var ok :- VerifyTypeCompatibility(t, vt, Some(SingleObject(at.value.name)));
          if ok then Success([]) else Success(One(StmtSite(s), AssignMismatchMessage))
  }

  // ---- method calls ----

  /** Why the argument scan stopped with a report. */
  datatype CallComplaint = ArgsAfterArray | TooManyArgs | ArgMismatch(expected: string, got: string) | ArrayAfterElement

  /** The message of each complaint about a call with `n` parameters. */
  function ComplaintMessage(call: Expr, n: nat, c: CallComplaint): string
    requires call.MethodCall?
  {
    match c
    case ArgsAfterArray => ArgsAfterArrayMessage
    case TooManyArgs => ArityMessage(call.name, n, |call.args|)
    case ArgMismatch(expected, got) => ParamMismatchMessage(call.name, expected, got)
    case ArrayAfterElement => ArrayAfterElementMessage
  }

  /**
   * The argument scan of `visitMethodCall`: the parameter index and the
   * `arrayFound` and `atrrFound` flags, or the complaint that ended it.
   */
  datatype Scan = Scanning(idx: nat, arrayFound: bool, attrFound: bool) | Reported(complaint: CallComplaint)

  /**
   * What the scan may ask of one argument: whether it is an exempt call and
   * its type. Each is asked only when the scan gets that far, so an
   * exception in either counts only then.
   */
  datatype ArgFacts = ArgFacts(exempt: Result<bool, JavaError>, typ: Result<Option<Type>, JavaError>)

  function Facts(t: SymbolTable, arg: Expr, m: Option<string>): ArgFacts {
    ArgFacts(ImportedCall(t, arg, m), GetExprType(t, arg, m))
  }

  /** The facts of every argument, in order. */
  function FactsOf(t: SymbolTable, args: seq<Expr>, m: Option<string>): (r: seq<ArgFacts>)
    ensures |r| == |args|
  {
    if |args| == 0 then [] else FactsOf(t, args[..|args| - 1], m) + [Facts(t, args[|args| - 1], m)]
  }

  lemma {:induction false} FactsAt(t: SymbolTable, args: seq<Expr>, m: Option<string>, i: nat)
    requires i < |args|
    ensures FactsOf(t, args, m)[i] == Facts(t, args[i], m)
  {
    if i < |args| - 1 {
      assert args[..|args| - 1][i] == args[i];
      FactsAt(t, args[..|args| - 1], m, i);
    }
  }

  /** One argument's turn of the scan against parameters `ps`. */
  function ScanStep(t: SymbolTable, ps: seq<Symbol>, s: Scan, f: ArgFacts): (r: Result<Scan, JavaError>)
    requires s.Scanning?
    ensures r.Success? && r.value.Scanning? ==> s.idx < |ps| && r.value.idx <= s.idx + 1
  {
    if s.arrayFound then Success(Reported(ArgsAfterArray))
    else if s.idx >= |ps| then Success(Reported(TooManyArgs))
    else
      var pt := ps[s.idx].typ;
      var exempt :- f.exempt;
      if exempt then Success(Scanning(if pt.isVararg then s.idx else s.idx + 1, s.arrayFound, s.attrFound))
      else
        var at :- f.typ;
        TypedStep(t, pt, at, s)
  }

  /** The rest of an argument's turn, once its type `at` is known and it is not exempt. */
  function TypedStep(t: SymbolTable, pt: Type, at: Option<Type>, s: Scan): (r: Result<Scan, JavaError>)
    requires s.Scanning?
    ensures r.Success? && r.value.Scanning? ==> r.value.idx == if pt.isVararg then s.idx else s.idx + 1
  {
    if pt.isVararg then
      if at.None? then Failure(NullPointer)
      else if at.value.name != pt.name then Success(Reported(ArgMismatch(pt.name, at.value.name)))
      else if at.value.isArray then
        if s.attrFound then Success(Reported(ArrayAfterElement))
        else Success(Scanning(s.idx, true, s.attrFound))
      else Success(Scanning(s.idx, s.arrayFound, true))
    else
      var ok :- VerifyTypeCompatibility(t, at, Some(pt));
      if !ok then Success(Reported(ArgMismatch(pt.name, at.value.name)))
      else Success(Scanning(s.idx + 1, s.arrayFound, s.attrFound))
  }

  /** The scan after the first `n` arguments, with facts `fs`. */
  function ArgScan(t: SymbolTable, ps: seq<Symbol>, fs: seq<ArgFacts>, n: nat): (r: Result<Scan, JavaError>)
    requires n <= |fs|
    ensures r.Success? && r.value.Scanning? ==> r.value.idx <= |ps| && r.value.idx <= n
  {
    if n == 0 then Success(Scanning(0, false, false))
    else
      var prev :- ArgScan(t, ps, fs, n - 1);
      if prev.Reported? then Success(prev) else ScanStep(t, ps, prev, fs[n - 1])
  }

  /** The closing arity test: every parameter matched, or all but a final vararg. */
  function ArityReports(call: Expr, ps: seq<Symbol>, idx: nat): (r: seq<Report>)
    requires call.MethodCall? && idx <= |ps|
    ensures |r| <= 1 && forall i :: 0 <= i < |r| ==> r[i].site == ExprSite(call)
    ensures r == [] <==> idx == |ps| || (ps[idx].typ.isVararg && idx == |ps| - 1)
  {
    if idx == |ps| || (ps[idx].typ.isVararg && idx == |ps| - 1) then []
    else if ps[idx].typ.isVararg then One(ExprSite(call), VarargArityMessage(call.name, |ps|, |call.args|))
    else One(ExprSite(call), ArityMessage(call.name, |ps|, |call.args|))
  }

  /** The checks of a call on this class's own methods: the callee's parameters must be known. */
  function CheckedCallReports(t: SymbolTable, call: Expr, m: Option<string>): (r: Result<seq<Report>, JavaError>)
    requires call.MethodCall?
    ensures t.Params(call.name).None? ==> r == Failure(NullPointer)
    ensures AtMostOneAt(r, ExprSite(call))
  {
    var ps := t.Params(call.name);
    if ps.None? then Failure(NullPointer)
    else if |ps.value| == 0 && |call.args| == 0 then Success([])
    else
      var s :- ArgScan(t, ps.value, FactsOf(t, call.args, m), |call.args|);
      match s
      case Reported(c) => Success(One(ExprSite(call), ComplaintMessage(call, |ps.value|, c)))
      case Scanning(idx, _, _) => Success(ArityReports(call, ps.value, idx))
  }

  /** The first static field access among the first `n` arguments of an exempt call. */
  function StaticArgReports(t: SymbolTable, call: Expr, m: Option<string>, isStatic: bool, n: nat): (r: Result<seq<Report>, JavaError>)
    requires call.MethodCall? && n <= |call.args|
    ensures AtMostOneAt(r, ExprSite(call))
  {
    if n == 0 then Success([])
    else
      var prev :- StaticArgReports(t, call, m, isStatic, n - 1);
      if prev != [] then Success(prev)
      else
        var static_ :- AccessFieldInStaticMethod(t, call.args[n - 1], m, isStatic);
        if static_ then Success(One(ExprSite(call), StaticFieldMessage)) else Success([])
  }

  /** `visitMethodCall`: own-class calls are checked against the parameters; exempt ones only for static field arguments. */
  function CallReports(t: SymbolTable, call: Expr, m: Option<string>, isStatic: bool): (r: Result<seq<Report>, JavaError>)
    requires call.MethodCall?
    ensures AtMostOneAt(r, ExprSite(call))
  {
    var ct :- GetExprType(t, call.caller, m);
    var imported :- IsImportedOrSuper(t, ct);
    var checked :- if imported then BelongsToMainClass(t, call.caller, call.name, m) else Success(true);
    if checked then CheckedCallReports(t, call, m) else StaticArgReports(t, call, m, isStatic, |call.args|)
  }

  /** The reports of a visit are appended, or an exception leaves them alone. */
  predicate Appended(before: seq<Report>, after: seq<Report>, err: Option<JavaError>, r: Result<seq<Report>, JavaError>) {
    match r
    case Success(v) => err.None? && after == before + v
    case Failure(e) => err == Some(e) && after == before
  }

  /**
   * The pass: the symbol table, the `currentMethod` field and the reports
   * added so far. `mode` chooses the checks as written or with their
   * findings corrected.
   */
  class TypeChecker {
    const mode: Mode
    const table: SymbolTable
    var current: Option<string>
    var reports: seq<Report>

    constructor(mode: Mode, table: SymbolTable)
      ensures this.mode == mode && this.table == table && current.None? && reports == []
    {
      this.mode := mode;
      this.table := table;
      current := None;
      reports := [];
    }

    /** `visitMethodDecl`: the method's name becomes the current method. */
    method VisitMethodDecl(m: MethodDecl)
      modifies this
      ensures current == Some(m.name) && reports == old(reports)
    {
      current := Some(m.name);
    }

    /** Appends a visit's reports, or hands back its exception. */
    method Add(r: Result<seq<Report>, JavaError>) returns (err: Option<JavaError>)
      modifies this
      ensures current == old(current) && Appended(old(reports), reports, err, r)
    {
      if r.Failure? {
        return Some(r.error);
      }
      reports := reports + r.value;
      err := None;
    }

    method VisitBinaryExpr(e: Expr, isStatic: bool) returns (err: Option<JavaError>)
      requires e.BinaryExpr?
      modifies this
      ensures current == old(current) && Appended(old(reports), reports, err, BinaryReports(mode, table, e, old(current), isStatic))
    {
      err := Add(BinaryReports(mode, table, e, current, isStatic));
    }

    method VisitArrayAccess(e: Expr, isStatic: bool) returns (err: Option<JavaError>)
      requires e.ArrayAccess?
      modifies this
      ensures current == old(current) && Appended(old(reports), reports, err, ArrayAccessReports(table, e, old(current), isStatic))
    {
      err := Add(ArrayAccessReports(table, e, current, isStatic));
    }

    method VisitConditions(s: Stmt, isStatic: bool) returns (err: Option<JavaError>)
      requires s.IfStmt? || s.WhileStmt?
      modifies this
      ensures current == old(current) && Appended(old(reports), reports, err, ConditionReports(mode, table, s, old(current), isStatic))
    {
      err := Add(ConditionReports(mode, table, s, current, isStatic));
    }

    method VisitAssignment(s: Stmt, isStatic: bool) returns (err: Option<JavaError>)
      requires s.AssignStmt?
      modifies this
      ensures current == old(current) && Appended(old(reports), reports, err, AssignReports(table, s, old(current), isStatic))
    {
      err := Add(AssignReports(table, s, current, isStatic));
    }

    method VisitNot(e: Expr, isStatic: bool) returns (err: Option<JavaError>)
      requires e.Not?
      modifies this
      ensures current == old(current) && Appended(old(reports), reports, err, NotReports(table, e, old(current), isStatic))
    {
      err := Add(NotReports(table, e, current, isStatic));
    }

    method VisitReturnStmt(e: Expr) returns (err: Option<JavaError>)
      modifies this
      ensures current == old(current) && Appended(old(reports), reports, err, ReturnReports(table, e, old(current)))
    {
      err := Add(ReturnReports(table, e, current));
    }

    method VisitArrayAssignment(s: Stmt, isStatic: bool) returns (err: Option<JavaError>)
      requires s.ArrayAssignStmt?
      modifies this
      ensures current == old(current) && Appended(old(reports), reports, err, ArrayAssignReports(mode, table, s, old(current), isStatic))
    {
      err := Add(ArrayAssignReports(mode, table, s, current, isStatic));
    }

    method VisitArrayLength(e: Expr, isStatic: bool) returns (err: Option<JavaError>)
      requires e.ArrayLength?
      modifies this
      ensures current == old(current) && Appended(old(reports), reports, err, LengthReports(table, e, old(current), isStatic))
    {
      err := Add(LengthReports(table, e, current, isStatic));
    }

    /** `visitMethodCall`. */
    method VisitMethodCall(call: Expr, isStatic: bool) returns (err: Option<JavaError>)
      requires call.MethodCall?
      modifies this
      ensures current == old(current) && Appended(old(reports), reports, err, CallReports(table, call, old(current), isStatic))
    {
      var ct := GetExprType(table, call.caller, current);
      if ct.Failure? {
        return Some(ct.error);
      }
      var imported := IsImportedOrSuper(table, ct.value);
      if imported.Failure? {
        return Some(imported.error);
      }
      var checked := Success(true);
      if imported.value {
        checked := BelongsToMainClass(table, call.caller, call.name, current);
        if checked.Failure? {
          return Some(checked.error);
        }
      }
      var r;
      if checked.value {
        r := CheckCall(table, call, current);
      } else {
        r := CheckStaticArgs(table, call, current, isStatic);
      }
      err := Add(r);
    }

  }


  /** The argument loop over a call on this class's own method. */
  method CheckCall(t: SymbolTable, call: Expr, m: Option<string>) returns (r: Result<seq<Report>, JavaError>)
    requires call.MethodCall?
    ensures r == CheckedCallReports(t, call, m)
  {
    var ps := t.Params(call.name);
    if ps.None? {
      return Failure(NullPointer);
    }
    var params := ps.value;
    if |params| == 0 && |call.args| == 0 {
      return Success([]);
    }
    var scan := RunScan(t, m, params, call.args);
    if scan.Failure? {
      return Failure(scan.error);
    }
    match scan.value {
      case Reported(c) => r := Success(One(ExprSite(call), ComplaintMessage(call, |params|, c)));
      case Scanning(idx, _, _) => r := Success(ArityReports(call, params, idx));
    }
  }

  /** The `for` loop over the arguments, with its early `return`s. */
  method RunScan(t: SymbolTable, m: Option<string>, params: seq<Symbol>, args: seq<Expr>) returns (r: Result<Scan, JavaError>)
    ensures r == ArgScan(t, params, FactsOf(t, args, m), |args|)
  {
    ghost var fs := FactsOf(t, args, m);
    var scan := Scanning(0, false, false);
    var i := 0;
    while i < |args| && scan.Scanning?
      invariant 0 <= i <= |args|
      invariant ArgScan(t, params, fs, i) == Success(scan)
    {
      var next := ScanArg(t, m, params, scan, args[i]);
      FactsAt(t, args, m, i);
      ArgScanNext(t, params, fs, i, scan);
      if next.Failure? {
        ArgScanSettled(t, params, fs, i + 1, |args|);
        return next;
      }
      scan := next.value;
      i := i + 1;
    }
    if scan.Reported? {
      ArgScanSettled(t, params, fs, i, |args|);
    }
    r := Success(scan);
  }

  /** One turn of the argument loop, up to the `continue` of an exempt argument. */
  method ScanArg(t: SymbolTable, m: Option<string>, params: seq<Symbol>, s: Scan, arg: Expr) returns (r: Result<Scan, JavaError>)
    requires s.Scanning?
    ensures r == ScanStep(t, params, s, Facts(t, arg, m))
  {
    if s.arrayFound {
      return Success(Reported(ArgsAfterArray));
    }
    if s.idx >= |params| {
      return Success(Reported(TooManyArgs));
    }
    var paramType := params[s.idx].typ;
    var exempt := ImportedCall(t, arg, m);
    if exempt.Failure? {
      return Failure(exempt.error);
    }
    if exempt.value {
      var idx := s.idx;
      if !paramType.isVararg {
        idx := idx + 1;
      }
      return Success(Scanning(idx, s.arrayFound, s.attrFound));
    }
    var argType := GetExprType(t, arg, m);
    if argType.Failure? {
      return Failure(argType.error);
    }
    r := ScanTyped(t, paramType, argType.value, s);
  }

  /** The vararg and compatibility checks of one argument, with the flags they set. */
  method ScanTyped(t: SymbolTable, paramType: Type, argType: Option<Type>, s: Scan) returns (r: Result<Scan, JavaError>)
    requires s.Scanning?
    ensures r == TypedStep(t, paramType, argType, s)
  {
    var attrFound := s.attrFound;
    if paramType.isVararg {
      if argType.None? {
        return Failure(NullPointer);
      }
      var at := argType.value;
      if at.name != paramType.name {
        return Success(Reported(ArgMismatch(paramType.name, at.name)));
      }
      if at.isArray {
        if attrFound {
          return Success(Reported(ArrayAfterElement));
        }
        return Success(Scanning(s.idx, true, attrFound));
      }
      attrFound := true;
      return Success(Scanning(s.idx, s.arrayFound, attrFound));
    }
    var ok := VerifyTypeCompatibility(t, argType, Some(paramType));
    if ok.Failure? {
      return Failure(ok.error);
    }
    if !ok.value {
      return Success(Reported(ArgMismatch(paramType.name, argType.value.name)));
    }
    r := Success(Scanning(s.idx + 1, s.arrayFound, attrFound));
  }

  /** The loop over an exempt call's arguments: the first static field access is reported. */
  method CheckStaticArgs(t: SymbolTable, call: Expr, m: Option<string>, isStatic: bool) returns (r: Result<seq<Report>, JavaError>)
    requires call.MethodCall?
    ensures r == StaticArgReports(t, call, m, isStatic, |call.args|)
  {
    var i := 0;
    while i < |call.args|
      invariant 0 <= i <= |call.args|
      invariant StaticArgReports(t, call, m, isStatic, i) == Success([])
    {
      var s := AccessFieldInStaticMethod(t, call.args[i], m, isStatic);
      if s.Failure? {
        StaticArgsSettled(t, call, m, isStatic, i + 1, |call.args|);
        return Failure(s.error);
      }
      if s.value {
        StaticArgsSettled(t, call, m, isStatic, i + 1, |call.args|);
        return Success(One(ExprSite(call), StaticFieldMessage));
      }
      i := i + 1;
    }
    r := Success([]);
  }
  /** A scan still under way takes the next argument's step. */
  lemma ArgScanNext(t: SymbolTable, ps: seq<Symbol>, fs: seq<ArgFacts>, k: nat, s: Scan)
    requires k < |fs| && s.Scanning?
    requires ArgScan(t, ps, fs, k) == Success(s)
    ensures ArgScan(t, ps, fs, k + 1) == ScanStep(t, ps, s, fs[k])
  {
  }

  /** A scan that has thrown or reported stays as it is for one more argument. */
  lemma ArgScanStays(t: SymbolTable, ps: seq<Symbol>, fs: seq<ArgFacts>, k: nat)
    requires k < |fs|
    requires ArgScan(t, ps, fs, k).Failure? || ArgScan(t, ps, fs, k).value.Reported?
    ensures ArgScan(t, ps, fs, k + 1) == ArgScan(t, ps, fs, k)
  {
  }

  /** Once the scan has thrown or reported, later arguments change nothing. */
  lemma {:induction false} ArgScanSettled(t: SymbolTable, ps: seq<Symbol>, fs: seq<ArgFacts>, k: nat, n: nat)
    requires k <= n <= |fs|
    requires ArgScan(t, ps, fs, k).Failure? || ArgScan(t, ps, fs, k).value.Reported?
    ensures ArgScan(t, ps, fs, n) == ArgScan(t, ps, fs, k)
    decreases n - k
  {
    if k < n {
      ArgScanStays(t, ps, fs, k);
      ArgScanSettled(t, ps, fs, k + 1, n);
    }
  }

  /** Once an argument has thrown or been reported, later arguments change nothing. */
  lemma {:induction false} StaticArgsSettled(t: SymbolTable, call: Expr, m: Option<string>, isStatic: bool, k: nat, n: nat)
    requires call.MethodCall? && k <= n <= |call.args|
    requires StaticArgReports(t, call, m, isStatic, k).Failure? || StaticArgReports(t, call, m, isStatic, k).value != []
    ensures StaticArgReports(t, call, m, isStatic, n) == StaticArgReports(t, call, m, isStatic, k)
    decreases n
  {
    if k < n {
      StaticArgsSettled(t, call, m, isStatic, k, n - 1);
    }
  }
}
