/**
 * The Jmm syntax tree after symbol resolution, the symbol table built from it,
 * and the error reports the semantic passes append.
 *
 * A Jmm syntax node is a tagged tree with ordered children and string
 * attributes; here each node kind is a constructor and its attributes and
 * children are its fields, in the order the passes read them.
 */
module Ast {
  import opened Wrappers

  /**
   * A Jmm type: a name, the array flag and the vararg attribute. Java's
   * `Type.equals` compares the name and the array flag only, so that is what
   * `SameType` does; the vararg flag travels as an extra attribute.
   */
  datatype Type = Type(name: string, isArray: bool, isVararg: bool)

  predicate SameType(a: Type, b: Type) { a.name == b.name && a.isArray == b.isArray }

  function IntType(): Type { Type("int", false, false) }
  function BooleanType(): Type { Type("boolean", false, false) }
  function VoidType(): Type { Type("void", false, false) }
  function SingleObject(name: string): Type { Type(name, false, false) }
  function StringArrayType(): Type { Type("String", true, false) }
  function IntArrayType(): Type { Type("int", true, false) }

  datatype Expr =
    | IntegerLiteral(value: string)
    | BooleanLiteral(value: string)
    | VarRef(name: string)
    | BinaryExpr(op: string, left: Expr, right: Expr)
    | Paren(inner: Expr)
    | Not(operand: Expr)
    | This
    | MethodCall(caller: Expr, name: string, args: seq<Expr>)
    | NewClass(className: string)
    | NewArray(size: Expr)
    | ArrayInit(elems: seq<Expr>)
    | ArrayAccess(base: Expr, index: Expr)
    | ArrayLength(base: Expr)

  predicate IsLiteral(e: Expr) { e.IntegerLiteral? || e.BooleanLiteral? }

  /** `ifStmt` children are condition, then-body, else-body; an assignment's children are target, value. */
  datatype Stmt =
    | AssignStmt(target: Expr, rhs: Expr)
    | ArrayAssignStmt(name: string, index: Expr, value: Expr)
    | IfStmt(cond: Expr, thenBody: Stmt, elseBody: Stmt)
    | WhileStmt(cond: Expr, body: Stmt)
    | ExprStmt(expr: Expr)
    | ScopeStmt(stmts: seq<Stmt>)

  datatype VarDecl = VarDecl(typ: Type, name: string)

  /**
   * A method declaration. `args` is main's parameter name attribute; the
   * statements and the return statements are listed apart, in source order.
   */
  datatype MethodDecl = MethodDecl(
    name: string,
    isPublic: bool,
    isStatic: bool,
    retType: Type,
    params: seq<VarDecl>,
    varDecls: seq<VarDecl>,
    stmts: seq<Stmt>,
    returnExprs: seq<Expr>,
    args: string)

  datatype ClassDecl = ClassDecl(
    name: string,
    superName: Option<string>,
    fields: seq<VarDecl>,
    methods: seq<MethodDecl>)

  /** An import declaration holds the segments of its package path. */
  datatype Program = Program(imports: seq<seq<string>>, cls: ClassDecl)

  // ---- symbol table ----

  /** A symbol-table entry: a typed name. */
  datatype Symbol = Symbol(typ: Type, name: string)

  /**
   * `List.contains(new Symbol(t, n))`, where `t` may be Java's null (`None`):
   * Symbol equality is type equality and name equality, so a null type matches nothing.
   */
  predicate ContainsSymbol(syms: seq<Symbol>, t: Option<Type>, n: string) {
    t.Some? && exists i :: 0 <= i < |syms| && syms[i].name == n && SameType(syms[i].typ, t.value)
  }

  predicate HasName(syms: seq<Symbol>, n: string) {
    exists i :: 0 <= i < |syms| && syms[i].name == n
  }

  /**
   * The class's symbol table. The return-type map is `None` when the
   * builder gave up on it (a vararg return type makes it null). Lookups of a
   * method that is not a key give Java's null, `None` here.
   */
  datatype SymbolTable = SymbolTable(
    className: string,
    methods: seq<string>,
    returnTypes: Option<map<string, Type>>,
    params: map<string, seq<Symbol>>,
    locals: map<string, seq<Symbol>>,
    fields: seq<Symbol>,
    imports: seq<string>,
    superName: Option<string>)
  {
    function Params(m: string): Option<seq<Symbol>> {
      if m in params then Some(params[m]) else None
    }

    function Locals(m: string): Option<seq<Symbol>> {
      if m in locals then Some(locals[m]) else None
    }
  }

  // ---- reports ----

  /** Where a report is positioned: the node whose line and column it carries. */
  datatype Site =
    | ExprSite(e: Expr)
    | StmtSite(s: Stmt)
    | ReturnSite(r: Expr)
    | MethodSite(m: MethodDecl)
    | ParamSite(p: VarDecl)
    | FieldSite(f: VarDecl)
    | LocalSite(v: VarDecl)
    | ClassSite(c: ClassDecl)
    | ImportSite(segments: seq<string>)

  /** A semantic error report. */
  datatype Report = Report(site: Site, message: string)

  /** Java's unchecked failures that the passes can run into. */
  datatype JavaError = NullPointer | NumberFormat | Arithmetic | MissingAttribute | IndexOutOfBounds | NotImplemented
}
