/**
 * Lowering of Jmm statements, methods, the class and its imports to OLLIR
 * text.
 *
 * Statements share the expression generator's counters: the labels of `if`
 * and `while` and the temporaries of their expressions are numbered by the
 * same `Counters`, threaded in the order the generator takes them. The
 * direct-assignment flag is set only for the right-hand side of an
 * assignment to a non-field whose right-hand side is a simple binary
 * expression.
 */
module OllirGen {
  import opened Wrappers
  import opened Ast
  import opened TypeUtils
  import opened OptUtils
  import opened OllirExprGen

  // ---- assignments ----

  /** `isSimpleOperand`: a variable, a literal, `this`, or any parenthesised expression whatever it holds. */
  predicate IsSimpleOperand(e: Expr) {
    e.VarRef? || e.IntegerLiteral? || e.BooleanLiteral? || e.This? || e.Paren?
  }

  /** `isSimpleBinaryExpression`: an operator other than `&&` between two simple operands. */
  predicate IsSimpleBinary(e: Expr) {
    e.BinaryExpr? && e.op != "&&" && IsSimpleOperand(e.left) && IsSimpleOperand(e.right)
  }

  /** `id.T :=.T code;`. */
  function Move(id: string, ty: string, code: string): string {
    id + ty + " :=" + ty + " " + code + ";\n"
  }

  /** `putfield(this, id.T, code).V;`. */
  function PutField(id: string, ty: string, code: string): string {
    "putfield(this, " + id + ty + ", " + code + ").V;\n"
  }

  /**
   * What `visitAssignStmt` knows of the target before it visits the
   * right-hand side: its name, its type suffix, and whether it is a field
   * that is no local or parameter.
   */
  function Target(x: Ctx, left: Expr): (r: Result<(string, string, bool), JavaError>)
    ensures r.Success? ==> (GetExprType(x.table, left, Some(x.current)).Success?
      && (r.value.2 <==> Lookup(x.table, x.current, GetExprType(x.table, left, Some(x.current)).value, r.value.0) == Success(InFields)))
  {
    var id :- NameAttr(left);
    var ot :- GetExprType(x.table, left, Some(x.current));
    var ty :- OllirTypeOf(ot);
    var w :- Lookup(x.table, x.current, ot, id);
    Success((id, ty, w == InFields))
  }

  /** Whether the right-hand side of an assignment is visited in direct mode. */
  predicate DirectAssign(rhs: Expr, isField: bool) {
    IsSimpleBinary(rhs) && !isField
  }

  /** `visitAssignStmt`: a field gets `putfield`, anything else a move. */
  function AssignCode(x: Ctx, left: Expr, rhs: Expr, c: Counters): (r: Result<(string, Counters), JavaError>)
    ensures r.Success? ==> Grows(c, r.value.1)
  {
    var (id, ty, isField) :- Target(x, left);
    var rr :- Visit(x, rhs, InAssign(left), DirectAssign(rhs, isField), c);
    var store := if isField then PutField(id, ty, rr.0.code) else Move(id, ty, rr.0.code);
    Success((rr.0.computation + store, rr.1))
  }

  // ---- array stores ----

  /**
   * The array a store `name[i] = v` writes to, and what comes before it: a
   * field that is no local or parameter of type `int[]` is first copied by
   * `getfield` into a fresh temporary.
   */
  function StoreTarget(name: string, w: Where, c: Counters): (r: (string, string, Counters))
    ensures Grows(c, r.2)
  {
    if w == InFields then
      var (tmp, c1) := TakeTemp(c, "tmp");
      (tmp + ".array.i32", tmp + ".array.i32 :=.array.i32 getfield(this, " + name + ".array.i32).array.i32;\n", c1)
    else (name, "", c)
  }

  /** The element store itself. */
  function ElementMove(target: string, index: string, value: string): string {
    target + "[" + index + "].i32 :=.i32 " + value + ";\n"
  }

  /** `visitArrayAssignStmt`: the copy if any, then the index, then the value. */
  function ArrayAssignCode(x: Ctx, name: string, index: Expr, value: Expr, c: Counters): (r: Result<(string, Counters), JavaError>)
    ensures r.Success? ==> Grows(c, r.value.1)
  {
    var w :- Lookup(x.table, x.current, Some(IntArrayType()), name);
    var (target, copy, c1) := StoreTarget(name, w, c);
    var ri :- Visit(x, index, InArrayAssign(name), false, c1);
    var rv :- Visit(x, value, InArrayAssign(name), false, ri.1);
    Success((copy + ri.0.computation + rv.0.computation + ElementMove(target, ri.0.code, rv.0.code), rv.1))
  }

  // ---- control flow ----

  /** `visitIfStmt` once its parts are generated: the else body comes first, the then body after its label. */
  function IfLayout(rc: ExprResult, thenL: string, endL: string, elseCode: string, thenCode: string): string {
    rc.computation + "if (" + rc.code + ") goto " + thenL + ";\n"
    + elseCode + "goto " + endL + ";\n"
    + thenL + ":\n" + thenCode + endL + ":\n"
  }

  /** The loop test of `visitWhileStmt`: the condition's computation and the exit on false. */
  function WhileTest(rc: ExprResult, endL: string): string {
    rc.computation + "if (!.bool " + rc.code + ") goto " + endL + ";\n"
  }

  /** `visitWhileStmt` once its parts are generated. */
  function WhileLayout(whileL: string, rc: ExprResult, endL: string, bodyCode: string): string {
    whileL + ":\n" + WhileTest(rc, endL) + bodyCode + "goto " + whileL + ";\n" + endL + ":\n"
  }

  /** `visit(stmt)`: the statement's code and the counters after it. */
  function StmtCode(x: Ctx, s: Stmt, c: Counters): (r: Result<(string, Counters), JavaError>)
    ensures r.Success? ==> Grows(c, r.value.1)
    decreases s, 1
  {
    match s
    case AssignStmt(left, rhs) => AssignCode(x, left, rhs, c)
    case ArrayAssignStmt(name, index, value) => ArrayAssignCode(x, name, index, value, c)
    case IfStmt(_, _, _) => IfNode(x, s, c)
    case WhileStmt(_, _) => WhileNode(x, s, c)
    case ExprStmt(e) =>
      var re :- Visit(x, e, InExprStmt, false, c);
      Success((re.0.computation, re.1))
    case ScopeStmt(ss) => StmtsCode(x, ss, c)
  }

  /** `visitIfStmt`: the condition, the then label, the end label, the else body, the then body. */
  function IfNode(x: Ctx, s: Stmt, c: Counters): (r: Result<(string, Counters), JavaError>)
    requires s.IfStmt?
    ensures r.Success? ==> Grows(c, r.value.1)
    decreases s, 0
  {
    var rc :- Visit(x, s.cond, InExpr, false, c);
    var (thenL, c1) := TakeThen(rc.1, "then");
    var (endL, c2) := TakeEnd(c1, "endif");
    var re :- StmtCode(x, s.elseBody, c2);
    var rt :- StmtCode(x, s.thenBody, re.1);
    Success((IfLayout(rc.0, thenL, endL, re.0, rt.0), rt.1))
  }

  /** `visitWhileStmt`: the while label, the condition, the end label from the counter `if` uses, the body. */
  function WhileNode(x: Ctx, s: Stmt, c: Counters): (r: Result<(string, Counters), JavaError>)
    requires s.WhileStmt?
    ensures r.Success? ==> Grows(c, r.value.1)
    decreases s, 0
  {
    var (whileL, c1) := TakeWhile(c, "while");
    var rc :- Visit(x, s.cond, InExpr, false, c1);
    var (endL, c2) := TakeEnd(rc.1, "endif");
    var rb :- StmtCode(x, s.body, c2);
    Success((WhileLayout(whileL, rc.0, endL, rb.0), rb.1))
  }

  /** `visitScopeStmt`: the children's codes one after another. */
  function StmtsCode(x: Ctx, ss: seq<Stmt>, c: Counters): (r: Result<(string, Counters), JavaError>)
    ensures r.Success? ==> Grows(c, r.value.1)
    decreases ss, 0
  {
    if |ss| == 0 then Success(("", c))
    else
      var r0 :- StmtCode(x, ss[0], c);
      var rs :- StmtsCode(x, ss[1..], r0.1);
      Success((r0.0 + rs.0, rs.1))
  }

  /** The statements of a method, each generated on its own, in order. */
  function StmtCodes(x: Ctx, ss: seq<Stmt>, c: Counters): (r: Result<(seq<string>, Counters), JavaError>)
    ensures r.Success? ==> |r.value.0| == |ss| && Grows(c, r.value.1)
  {
    if |ss| == 0 then Success(([], c))
    else
      var r0 :- StmtCode(x, ss[0], c);
      var rs :- StmtCodes(x, ss[1..], r0.1);
      Success(([r0.0] + rs.0, rs.1))
  }

  /** `visitReturn`: the expression first, then its type. */
  function ReturnCode(x: Ctx, e: Expr, c: Counters): (r: Result<(string, Counters), JavaError>)
    ensures r.Success? ==> Grows(c, r.value.1)
  {
    var rr :- Visit(x, e, InReturn, false, c);
    var ot :- GetExprType(x.table, e, Some(x.current));
    var ty :- OllirTypeOf(ot);
    Success((rr.0.computation + "ret" + ty + " " + rr.0.code + ";\n", rr.1))
  }

  /** The return statements of a method, in order. */
  function ReturnCodes(x: Ctx, es: seq<Expr>, c: Counters): (r: Result<(seq<string>, Counters), JavaError>)
    ensures r.Success? ==> |r.value.0| == |es| && Grows(c, r.value.1)
  {
    if |es| == 0 then Success(([], c))
    else
      var r0 :- ReturnCode(x, es[0], c);
      var rs :- ReturnCodes(x, es[1..], r0.1);
      Success(([r0.0] + rs.0, rs.1))
  }

  // ---- joining ----

  /** `parts` with `sep` between neighbours. */
  function Join(parts: seq<string>, sep: string): string
    decreases |parts|
  {
    if |parts| == 0 then ""
    else if |parts| == 1 then parts[0]
    else Join(parts[..|parts| - 1], sep) + sep + parts[|parts| - 1]
  }

  /** `Collectors.joining("\n   ", "   ", "")`: the prefix even for no parts. */
  function Indented(parts: seq<string>): string {
    "   " + Join(parts, "\n   ")
  }

  /** Appending a part to a non-empty list adds the separator and the part. */
  lemma JoinSnoc(parts: seq<string>, p: string, sep: string)
    requires |parts| >= 1
    ensures Join(parts + [p], sep) == Join(parts, sep) + sep + p
  {
    assert (parts + [p])[..|parts|] == parts;
  }

  // ---- methods ----

  /** `visitParam`: the name and its type suffix. */
  function ParamCode(p: VarDecl): string {
    p.name + ToOllirType(p.typ)
  }

  function ParamCodes(ps: seq<VarDecl>): (r: seq<string>)
    ensures |r| == |ps| && forall i :: 0 <= i < |ps| ==> r[i] == ParamCode(ps[i])
  {
    seq(|ps|, i requires 0 <= i < |ps| => ParamCode(ps[i]))
  }

  /**
   * The parameter loop of `visitMethodDecl`: each parameter's code, followed
   * by ", " unless it is the last one.
   */
  method ParamList(ps: seq<VarDecl>) returns (s: string)
    ensures s == Join(ParamCodes(ps), ", ")
  {
    ghost var codes := ParamCodes(ps);
    s := "";
    var i := 0;
    while i < |ps|
      invariant 0 <= i <= |ps|
      invariant i == 0 ==> s == ""
      invariant 0 < i < |ps| ==> s == Join(codes[..i], ", ") + ", "
      invariant i == |ps| ==> s == Join(codes[..i], ", ")
    {
      var before := s;
      s := s + ParamCode(ps[i]);
      if i > 0 {
        JoinSnoc(codes[..i], codes[i], ", ");
        assert codes[..i] + [codes[i]] == codes[..i + 1];
      } else {
        assert codes[..1] == [codes[0]];
      }
      if i != |ps| - 1 {
        s := s + ", ";
      }
      i := i + 1;
    }
    assert codes[..|ps|] == codes;
  }

  /** Whether the last parameter is a vararg. */
  predicate LastIsVararg(ps: seq<VarDecl>) {
    |ps| > 0 && ps[|ps| - 1].typ.isVararg
  }

  /** The modifiers of the header: `public`, `static`, and `varargs` when the last parameter is a vararg. */
  function Modifiers(m: MethodDecl): string {
    (if m.isPublic then "public " else "")
    + (if m.isStatic then "static " else "")
    + (if LastIsVararg(m.params) then "varargs " else "")
  }

  /** The name in the header, quoted when a vararg method is itself called "varargs". */
  function ShownName(m: MethodDecl): string {
    if LastIsVararg(m.params) && m.name == "varargs" then "\"varargs\"" else m.name
  }

  /** The parameter list, and main's `args` as a String array. */
  function ParamsText(m: MethodDecl, params: string): string {
    params + (if m.name == "main" then m.args + ".array.String" else "")
  }

  /** The method's header line. */
  function Header(m: MethodDecl, params: string, retCode: string): string {
    ".method " + Modifiers(m) + ShownName(m) + "(" + ParamsText(m, params) + ")" + retCode + " {\n"
  }

  /**
   * `visitMethodDecl`: the header, then the statements and then the return
   * statements, each group joined at an indentation of three spaces, main's
   * `ret.V;`, and the closing brace. The return type comes from the table,
   * by the method's name; a null map fails, and so does a missing entry.
   */
  function MethodCode(x: Ctx, m: MethodDecl, c: Counters): (r: Result<(string, Counters), JavaError>)
    ensures r.Success? ==> Grows(c, r.value.1)
  {
    var rt :- ReturnTypeOf(x.table, m.name);
    var retCode :- OllirTypeOf(rt);
    var xm := x.(current := m.name);
    var rs :- StmtCodes(xm, m.stmts, c);
    var rr :- ReturnCodes(xm, m.returnExprs, rs.1);
    Success((Header(m, Join(ParamCodes(m.params), ", "), retCode)
      + Indented(rs.0) + Indented(rr.0) + (if m.name == "main" then "ret.V;" else "") + "}\n" + "\n", rr.1))
  }

  function MethodsCode(x: Ctx, ms: seq<MethodDecl>, c: Counters): (r: Result<(string, Counters), JavaError>)
    ensures r.Success? ==> Grows(c, r.value.1)
  {
    if |ms| == 0 then Success(("", c))
    else
      var r0 :- MethodCode(x, ms[0], c);
      var rs :- MethodsCode(x, ms[1..], r0.1);
      Success((r0.0 + rs.0, rs.1))
  }

  // ---- the class and the program ----

  /** The field declarations, one line per field of the table, in order. */
  function FieldsCode(fs: seq<Symbol>): string {
    if |fs| == 0 then "" else ".field private " + fs[0].name + ToOllirType(fs[0].typ) + ";\n" + FieldsCode(fs[1..])
  }

  /** `buildConstructor`. */
  function Constructor(className: string): string {
    ".construct " + className + "().V {\n    invokespecial(this, \"<init>\").V;\n}\n"
  }

  /** What `visitClass` writes before the methods. */
  function ClassHeader(t: SymbolTable): string {
    "\n" + t.className + (if t.superName.Some? then " extends " + t.superName.value else "") + " {\n" + "\n" + "\n"
    + FieldsCode(t.fields) + "\n" + Constructor(t.className) + "\n"
  }

  /** `visitClass`: the header, the class's methods in order, the closing brace. */
  function ClassCode(x: Ctx, cls: ClassDecl, c: Counters): (r: Result<(string, Counters), JavaError>)
    ensures r.Success? ==> Grows(c, r.value.1)
  {
    var rm :- MethodsCode(x, cls.methods, c);
    Success((ClassHeader(x.table) + rm.0 + "}\n", rm.1))
  }

  /** `visitImport`: the package path joined by ".". */
  function ImportLine(path: seq<string>): string
    requires |path| >= 1
  {
    "import " + Join(path, ".") + ";\n"
  }

  /** The loop of `visitImport`: the first segment, then "." and each later one. */
  method ImportCode(path: seq<string>) returns (s: string)
    requires |path| >= 1
    ensures s == ImportLine(path)
  {
    var joined := path[0];
    var i := 1;
    assert path[..1] == [path[0]];
    while i < |path|
      invariant 1 <= i <= |path|
      invariant joined == Join(path[..i], ".")
    {
      JoinSnoc(path[..i], path[i], ".");
      assert path[..i] + [path[i]] == path[..i + 1];
      joined := joined + "." + path[i];
      i := i + 1;
    }
    assert path[..|path|] == path;
    s := "import " + joined + ";\n";
  }

  function ImportsCode(imports: seq<seq<string>>): string
    requires forall i :: 0 <= i < |imports| ==> |imports[i]| >= 1
  {
    if |imports| == 0 then "" else ImportLine(imports[0]) + ImportsCode(imports[1..])
  }

  /** `visitProgram`: the imports, then the class. */
  function ProgramCode(x: Ctx, p: Program, c: Counters): (r: Result<(string, Counters), JavaError>)
    requires forall i :: 0 <= i < |p.imports| ==> |p.imports[i]| >= 1
    ensures r.Success? ==> Grows(c, r.value.1)
  {
    var rc :- ClassCode(x, p.cls, c);
    Success((ImportsCode(p.imports) + rc.0, rc.1))
  }
}
