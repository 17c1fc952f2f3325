/**
 * Lowering of Jmm expressions to OLLIR text.
 *
 * Visiting an expression gives its `ExprResult`: the `code` that names the
 * value (a literal, a variable, or a fresh temporary) and the `computation`,
 * the instructions that must run before the code can be used. Temporaries and
 * labels are numbered by the generator's `Counters`, threaded through the
 * visits in the order the generator takes them.
 *
 * Inside the right-hand side of an assignment that is a simple binary
 * expression the generator is in "direct" mode: the operator is returned as
 * `l op.T r`, without a temporary. As written the flag stays set while the
 * operands are visited, so an operator nested in a parenthesised operand is
 * inlined too (`AsWritten`); `Repaired` applies it to the outermost operator
 * only.
 */
module OllirExprGen {
  import opened Wrappers
  import opened Ast
  import opened JavaInt
  import opened TypeUtils
  import opened OptUtils

  datatype Mode = AsWritten | Repaired

  /** `OllirExprResult`. */
  datatype ExprResult = ExprResult(code: string, computation: string)

  /** What the node above a visited expression is, as far as a call looks at it. */
  datatype Parent = InExprStmt | InReturn | InAssign(target: Expr) | InArrayAssign(arrayName: string) | InExpr

  /** The generator's fixed context: the symbol table and `currentMethod`. */
  datatype Ctx = Ctx(mode: Mode, table: SymbolTable, current: string)

  /** Whether the operands of a direct-mode node are visited in direct mode too. */
  function Inherit(x: Ctx, direct: bool): bool {
    x.mode == AsWritten && direct
  }

  /** `toOllirType` of a type that may be Java's null. */
  function OllirTypeOf(ot: Option<Type>): (r: Result<string, JavaError>)
    ensures r.Failure? <==> ot.None?
  {
    if ot.None? then Failure(NullPointer) else Success(ToOllirType(ot.value))
  }

  /** `getReturnType(m)`: a null map fails; a method without an entry has a null type. */
  function ReturnTypeOf(t: SymbolTable, m: string): Result<Option<Type>, JavaError> {
    if t.returnTypes.None? then Failure(NullPointer)
    else if m in t.returnTypes.value then Success(Some(t.returnTypes.value[m]))
    else Success(None)
  }

  /** `node.get("name")`: only variable references, calls and instantiations carry a name. */
  function NameAttr(e: Expr): Result<string, JavaError> {
    match e
    case VarRef(n) => Success(n)
    case MethodCall(_, n, _) => Success(n)
    case NewClass(n) => Success(n)
    case _ => Failure(MissingAttribute)
  }

  /** The first of the method's locals, its parameters and the fields that holds the symbol. */
  datatype Where = InLocals | InParams | InFields | Nowhere

  /**
   * The generator's `contains` tests on `new Symbol(type, name)`, in its
   * order: locals, then parameters, then fields, stopping at the first hit; a
   * null list of locals or parameters fails when it is reached.
   */
  function Lookup(t: SymbolTable, m: string, ot: Option<Type>, n: string): (r: Result<Where, JavaError>)
    ensures r == Success(InFields) <==> (t.Locals(m).Some? && !ContainsSymbol(t.Locals(m).value, ot, n)
      && t.Params(m).Some? && !ContainsSymbol(t.Params(m).value, ot, n) && ContainsSymbol(t.fields, ot, n))
  {
    if t.Locals(m).None? then Failure(NullPointer)
    else if ContainsSymbol(t.Locals(m).value, ot, n) then Success(InLocals)
    else if t.Params(m).None? then Failure(NullPointer)
    else if ContainsSymbol(t.Params(m).value, ot, n) then Success(InParams)
    else if ContainsSymbol(t.fields, ot, n) then Success(InFields)
    else Success(Nowhere)
  }

  /** The type suffix of a call, chosen from its caller and its parent. */
  function CallType(x: Ctx, call: Expr, p: Parent): Result<string, JavaError>
    requires call.MethodCall?
  {
    var t, m := x.table, Some(x.current);
    if call.caller.This? then
      var ot :- GetExprType(t, call, m); OllirTypeOf(ot)
    else if p.InReturn? then
      var ot :- ReturnTypeOf(t, x.current); OllirTypeOf(ot)
    else if p.InAssign? then
      var ot :- GetExprType(t, p.target, m); OllirTypeOf(ot)
    else if p.InArrayAssign? then
      var ot :- GetVarRefType(t, p.arrayName, m); OllirTypeOf(ot)
    else
      var ct :- GetExprType(t, call.caller, m);
      if ct.None? then Failure(NullPointer)
      else if ct.value.name == t.className then
        var ot :- ReturnTypeOf(t, call.name); OllirTypeOf(ot)
      else Success(".V")
  }

  /**
   * The head of the invocation: `invokevirtual` on the caller's code when the
   * caller is `this` or a local, parameter or field of its type; otherwise
   * `invokestatic` on the caller's name.
   */
  function Invocation(x: Ctx, caller: Expr, callerCode: string): Result<string, JavaError> {
    if caller.This? then Success("invokevirtual(" + callerCode)
    else
      var ot :- GetExprType(x.table, caller, Some(x.current));
      var n :- NameAttr(caller);
      var w :- Lookup(x.table, x.current, ot, n);
      if w == Nowhere then Success("invokestatic(" + n) else Success("invokevirtual(" + callerCode)
  }

  /** The store of one array-initialiser element at its index. */
  function ElementStore(temp: string, i: nat, code: string): string {
    temp + "[" + NatToDigits(i) + ".i32].i32 :=.i32 " + code + ";\n"
  }

  /** `visitNot`: the operand's computation, then its negation into a fresh boolean temporary. */
  function NotLayout(ra: ExprResult, c: Counters): (r: (ExprResult, Counters))
    ensures Grows(c, r.1)
  {
    var (tmp, c1) := TakeTemp(c, "tmp");
    var code := tmp + ".bool";
    (ExprResult(code, ra.computation + code + " :=.bool !.bool " + ra.code + ";\n"), c1)
  }

  /** `visitMethodCall` once the caller and the arguments are visited and the type and invocation head are known. */
  function CallLayout(rc: ExprResult, ra: ExprResult, name: string, ty: string, head: string, p: Parent, c: Counters): (r: (ExprResult, Counters))
    ensures Grows(c, r.1)
  {
    if p == InExprStmt then
      (ExprResult("", rc.computation + ra.computation + head + ", \"" + name + "\"" + ra.code + ")" + ty + ";\n"), c)
    else
      var (tmp, c1) := TakeTemp(c, "tmp");
      (ExprResult(tmp + ty, rc.computation + ra.computation + tmp + ty + " :=" + ty + " "
        + head + ", \"" + name + "\"" + ra.code + ")" + ty + ";\n"), c1)
  }

  /** `visitNewClass`: allocation into a fresh temporary of the class type, then the constructor call. */
  function NewClassLayout(cn: string, c: Counters): (r: (ExprResult, Counters))
    ensures Grows(c, r.1)
  {
    var (tmp, c1) := TakeTemp(c, "tmp");
    var code := tmp + "." + cn;
    (ExprResult(code, code + " :=." + cn + " new(" + cn + ")." + cn + ";\n"
      + "invokespecial(" + code + ", \"<init>\").V;\n"), c1)
  }

  /** `visitNewArray`: the size's computation, then an int array of that size in a fresh temporary. */
  function NewArrayLayout(rs: ExprResult, c: Counters): (r: (ExprResult, Counters))
    ensures Grows(c, r.1)
  {
    var (tmp, c1) := TakeTemp(c, "tmp");
    var code := tmp + ".array.i32";
    (ExprResult(code, rs.computation + code + " :=.array.i32 new(array, " + rs.code + ").array.i32;\n"), c1)
  }

  /** The allocation `visitArrayInit` makes for `n` elements into the temporary `tmp`. */
  function ArrayInitHeader(tmp: string, n: nat): string {
    tmp + ".array.i32 :=.array.i32 new(array, " + NatToDigits(n) + ".i32).array.i32;\n"
  }

  /** `visitArrayAcess`: both computations, then the element read into a fresh int temporary. */
  function AccessLayout(ra: ExprResult, ri: ExprResult, c: Counters): (r: (ExprResult, Counters))
    ensures Grows(c, r.1)
  {
    var (tmp, c1) := TakeTemp(c, "tmp");
    var code := tmp + ".i32";
    (ExprResult(code, ra.computation + ri.computation + code + " :=.i32 " + ra.code + "[" + ri.code + "].i32;\n"), c1)
  }

  /** `visitArrayLength`: the array's computation, then its length into a fresh int temporary. */
  function LengthLayout(ra: ExprResult, c: Counters): (r: (ExprResult, Counters))
    ensures Grows(c, r.1)
  {
    var (tmp, c1) := TakeTemp(c, "tmp");
    var code := tmp + ".i32";
    (ExprResult(code, ra.computation + code + " :=.i32 arraylength(" + ra.code + ").i32;\n"), c1)
  }

  /** `visitShortCircuit` once both operands are visited: then, endif and andTmp labels, in that order. */
  function AndLayout(rl: ExprResult, rr: ExprResult, c: Counters): (r: (ExprResult, Counters))
    ensures Grows(c, r.1)
  {
    var (thenL, c1) := TakeThen(c, "then");
    var (endL, c2) := TakeEnd(c1, "endif");
    var (andL, c3) := TakeAnd(c2, "andTmp");
    var code := andL + ".bool";
    (ExprResult(code, rl.computation + "if (" + rl.code + ") goto " + thenL + ";\n"
      + code + " :=.bool 0.bool;\n" + "goto " + endL + ";\n" + thenL + ":\n"
      + rr.computation + code + " :=.bool " + rr.code + ";\n" + endL + ":\n"), c3)
  }

  /** A three-address operation `l op.ty r`. */
  function Operation(l: string, op: string, ty: string, r: string): string {
    l + " " + op + ty + " " + r
  }

  /** `visitBinExpr` for any other operator: `l op.T r` as the code in direct mode, else into a fresh temporary. */
  function OpLayout(rl: ExprResult, rr: ExprResult, op: string, ty: string, direct: bool, c: Counters): (r: (ExprResult, Counters))
    ensures Grows(c, r.1)
  {
    var operation := Operation(rl.code, op, ty, rr.code);
    if direct then (ExprResult(operation, rl.computation + rr.computation), c)
    else
      var (tmp, c1) := TakeTemp(c, "tmp");
      var code := tmp + ty;
      (ExprResult(code, rl.computation + rr.computation + code + " :=" + ty + " " + operation + ";\n"), c1)
  }

  /** `visitVarRef`: a field that is no local or parameter is copied by `getfield` into a fresh temporary. */
  function VarRefLayout(n: string, ty: string, w: Where, c: Counters): (r: (ExprResult, Counters))
    ensures Grows(c, r.1)
  {
    if w == InFields then
      var (tmp, c1) := TakeTemp(c, "tmp");
      var code := tmp + ty;
      (ExprResult(code, code + " :=" + ty + " getfield(this, " + n + ty + ")" + ty + ";\n"), c1)
    else (ExprResult(n + ty, ""), c)
  }

  /** `visit(node)` from counters `c`: the result and the counters after it. */
  function Visit(x: Ctx, e: Expr, p: Parent, direct: bool, c: Counters): (r: Result<(ExprResult, Counters), JavaError>)
    ensures r.Success? ==> Grows(c, r.value.1)
    decreases e, 1
  {
    var d := Inherit(x, direct);
    match e
    case IntegerLiteral(v) => Success((ExprResult(v + ToOllirType(IntType()), ""), c))
    case BooleanLiteral(v) =>
      Success((ExprResult((if v == "true" then "1" else "0") + ToOllirType(BooleanType()), ""), c))
    case This => Success((ExprResult("this." + x.table.className, ""), c))
    case Paren(a) => Visit(x, a, InExpr, d, c)
    case Not(_) => NotNode(x, e, d, c)
    case MethodCall(_, _, _) => CallNode(x, e, p, d, c)
    case NewClass(cn) => Success(NewClassLayout(cn, c))
    case NewArray(_) => NewArrayNode(x, e, d, c)
    case ArrayInit(_) => ArrayInitNode(x, e, d, c)
    case ArrayAccess(_, _) => AccessNode(x, e, d, c)
    case ArrayLength(_) => LengthNode(x, e, d, c)
    case BinaryExpr(_, _, _) => BinaryNode(x, e, direct, c)
    case VarRef(n) => VarRefNode(x, n, c)
  }

  /** `visitNot`. */
  function NotNode(x: Ctx, e: Expr, d: bool, c: Counters): (r: Result<(ExprResult, Counters), JavaError>)
    requires e.Not?
    ensures r.Success? ==> Grows(c, r.value.1)
    decreases e, 0
  {
    var ra :- Visit(x, e.operand, InExpr, d, c);
    Success(NotLayout(ra.0, ra.1))
  }

  /** `visitMethodCall`: the caller, the arguments in order, the type, then the invocation head. */
  function CallNode(x: Ctx, e: Expr, p: Parent, d: bool, c: Counters): (r: Result<(ExprResult, Counters), JavaError>)
    requires e.MethodCall?
    ensures r.Success? ==> Grows(c, r.value.1)
    decreases e, 0
  {
    var rc :- Visit(x, e.caller, InExpr, d, c);
    var ra :- VisitArgs(x, e.args, d, rc.1);
    var ty :- CallType(x, e, p);
    var head :- Invocation(x, e.caller, rc.0.code);
    Success(CallLayout(rc.0, ra.0, e.name, ty, head, p, ra.1))
  }

  /** `visitNewArray`. */
  function NewArrayNode(x: Ctx, e: Expr, d: bool, c: Counters): (r: Result<(ExprResult, Counters), JavaError>)
    requires e.NewArray?
    ensures r.Success? ==> Grows(c, r.value.1)
    decreases e, 0
  {
    var rs :- Visit(x, e.size, InExpr, d, c);
    Success(NewArrayLayout(rs.0, rs.1))
  }

  /** `visitArrayInit`: the temporary is taken before any element is visited. */
  function ArrayInitNode(x: Ctx, e: Expr, d: bool, c: Counters): (r: Result<(ExprResult, Counters), JavaError>)
    requires e.ArrayInit?
    ensures r.Success? ==> Grows(c, r.value.1)
    decreases e, 0
  {
    var (tmp, c1) := TakeTemp(c, "tmp");
    var re :- VisitElems(x, e.elems, tmp, 0, d, c1);
    Success((ExprResult(tmp + ".array.i32", ArrayInitHeader(tmp, |e.elems|) + re.0), re.1))
  }

  /** `visitArrayAcess`: the array, then the index. */
  function AccessNode(x: Ctx, e: Expr, d: bool, c: Counters): (r: Result<(ExprResult, Counters), JavaError>)
    requires e.ArrayAccess?
    ensures r.Success? ==> Grows(c, r.value.1)
    decreases e, 0
  {
    var ArrayAccess(a, i) := e;
    var ra :- Visit(x, a, InExpr, d, c);
    var ri :- Visit(x, i, InExpr, d, ra.1);
    Success(AccessLayout(ra.0, ri.0, ri.1))
  }

  /** `visitArrayLength`. */
  function LengthNode(x: Ctx, e: Expr, d: bool, c: Counters): (r: Result<(ExprResult, Counters), JavaError>)
    requires e.ArrayLength?
    ensures r.Success? ==> Grows(c, r.value.1)
    decreases e, 0
  {
    var ArrayLength(a) := e;
    var ra :- Visit(x, a, InExpr, d, c);
    Success(LengthLayout(ra.0, ra.1))
  }

  /** `visitBinExpr` and `visitShortCircuit`: both operands first, left to right; only a non-`&&` operator consults its type. */
  function BinaryNode(x: Ctx, e: Expr, direct: bool, c: Counters): (r: Result<(ExprResult, Counters), JavaError>)
    requires e.BinaryExpr?
    ensures r.Success? ==> Grows(c, r.value.1)
    decreases e, 0
  {
    var d := Inherit(x, direct);
    var rl :- Visit(x, e.left, InExpr, d, c);
    var rr :- Visit(x, e.right, InExpr, d, rl.1);
    if e.op == "&&" then Success(AndLayout(rl.0, rr.0, rr.1))
    else
      var ot := GetExprType(x.table, e, Some(x.current)).value;
      var ty :- OllirTypeOf(ot);
      Success(OpLayout(rl.0, rr.0, e.op, ty, direct, rr.1))
  }

  /** `visitVarRef`: the type must not be null; a field read needs the locals and parameters to exist. */
  function VarRefNode(x: Ctx, n: string, c: Counters): (r: Result<(ExprResult, Counters), JavaError>)
    ensures r.Success? ==> Grows(c, r.value.1)
  {
    var ot :- GetVarRefType(x.table, n, Some(x.current));
    var ty :- OllirTypeOf(ot);
    var w :- Lookup(x.table, x.current, ot, n);
    Success(VarRefLayout(n, ty, w, c))
  }

  /** The call's argument loop: the codes, each after ", ", and the computations, in order. */
  function VisitArgs(x: Ctx, args: seq<Expr>, d: bool, c: Counters): (r: Result<(ExprResult, Counters), JavaError>)
    ensures r.Success? ==> Grows(c, r.value.1)
    decreases args, 0
  {
    if |args| == 0 then Success((ExprResult("", ""), c))
    else
      var ra :- Visit(x, args[0], InExpr, d, c);
      var rs :- VisitArgs(x, args[1..], d, ra.1);
      Success((ExprResult(", " + ra.0.code + rs.0.code, ra.0.computation + rs.0.computation), rs.1))
  }

  /** The initialiser's loop from index `i`: each element's computation, then its store into `temp`. */
  function VisitElems(x: Ctx, elems: seq<Expr>, temp: string, i: nat, d: bool, c: Counters): (r: Result<(string, Counters), JavaError>)
    ensures r.Success? ==> Grows(c, r.value.1)
    decreases elems, 0
  {
    if |elems| == 0 then Success(("", c))
    else
      var re :- Visit(x, elems[0], InExpr, d, c);
      var rs :- VisitElems(x, elems[1..], temp, i + 1, d, re.1);
      Success((re.0.computation + ElementStore(temp, i, re.0.code) + rs.0, rs.1))
  }
}
