/**
 * Expression typing and name lookup over the symbol table.
 *
 * Java's null results become `None`; a dereference of null (a lookup had no
 * entry and the code calls a method on the result) becomes
 * `Failure(NullPointer)`. The current method is `None` when it is Java's null.
 */
module TypeUtils {
  import opened Wrappers
  import opened Ast

  // ---- imports ----

  function LastIndexOf(s: string, c: char): (r: int)
    ensures -1 <= r < |s|
    ensures r >= 0 ==> s[r] == c
    ensures forall i :: r < i < |s| ==> s[i] != c
  {
    if |s| == 0 then -1 else if s[|s| - 1] == c then |s| - 1 else LastIndexOf(s[..|s| - 1], c)
  }

  /** `shortenImport`: the text after the last '.', or all of it when there is none. */
  function ShortenImport(s: string): (r: string)
    ensures forall i :: 0 <= i < |r| ==> r[i] != '.'
    ensures |r| <= |s| && r == s[|s| - |r|..]
    ensures (forall i :: 0 <= i < |s| ==> s[i] != '.') ==> r == s
  {
    s[LastIndexOf(s, '.') + 1..]
  }

  lemma ShortenImportIdempotent(s: string)
    ensures ShortenImport(ShortenImport(s)) == ShortenImport(s)
  {
  }

  function ShortNames(imports: seq<string>): (r: seq<string>)
    ensures |r| == |imports|
    ensures forall i :: 0 <= i < |r| ==> r[i] == ShortenImport(imports[i])
  {
    seq(|imports|, i requires 0 <= i < |imports| => ShortenImport(imports[i]))
  }

  // ---- symbol lookups ----

  /** The type of the first symbol named `n`, scanning in list order. */
  function LookupName(syms: seq<Symbol>, n: string): (r: Option<Type>)
    ensures r.Some? <==> HasName(syms, n)
    ensures r.Some? ==> exists i :: (0 <= i < |syms| && syms[i].name == n && syms[i].typ == r.value
      && forall j :: 0 <= j < i ==> syms[j].name != n)
  {
    if |syms| == 0 then None
    else if syms[0].name == n then Some(syms[0].typ)
    else
      var r := LookupName(syms[1..], n);
      assert HasName(syms[1..], n) ==> HasName(syms, n);
      assert HasName(syms, n) ==> HasName(syms[1..], n) by {
        if HasName(syms, n) {
          var i :| 0 <= i < |syms| && syms[i].name == n;
          assert syms[1..][i - 1].name == n;
        }
      }
      if r.Some? then
        var i :| 0 <= i < |syms[1..]| && syms[1..][i].name == n && syms[1..][i].typ == r.value
          && forall j :: 0 <= j < i ==> syms[1..][j].name != n;
        assert syms[i + 1].name == n && syms[i + 1].typ == r.value;
        assert forall j :: 0 <= j < i + 1 ==> syms[j].name != n by {
          forall j | 0 <= j < i + 1 ensures syms[j].name != n {
            if j > 0 { assert syms[j] == syms[1..][j - 1]; }
          }
        }
        r
      else r
  }

  function LocalsOf(t: SymbolTable, m: Option<string>): Option<seq<Symbol>> {
    if m.None? then None else t.Locals(m.value)
  }

  function ParamsOf(t: SymbolTable, m: Option<string>): Option<seq<Symbol>> {
    if m.None? then None else t.Params(m.value)
  }

  /**
   * `getVarRefType`: the method's locals, then its parameters (both only when
   * there is a current method), then the fields, then the short names of the
   * imports, which type as a plain object of that name; otherwise null.
   */
  function GetVarRefType(t: SymbolTable, n: string, m: Option<string>): Result<Option<Type>, JavaError> {
    if m.Some? && LocalsOf(t, m).None? then Failure(NullPointer)
    else if m.Some? && LookupName(LocalsOf(t, m).value, n).Some? then Success(LookupName(LocalsOf(t, m).value, n))
    else if m.Some? && ParamsOf(t, m).None? then Failure(NullPointer)
    else if m.Some? && LookupName(ParamsOf(t, m).value, n).Some? then Success(LookupName(ParamsOf(t, m).value, n))
    else if LookupName(t.fields, n).Some? then Success(LookupName(t.fields, n))
    else if n in ShortNames(t.imports) then Success(Some(SingleObject(n)))
    else Success(None)
  }

  /** A local shadows a parameter, a field and an import of the same name. */
  lemma LocalShadows(t: SymbolTable, n: string, m: string, i: nat)
    requires m in t.locals && i < |t.locals[m]| && t.locals[m][i].name == n
    requires forall j :: 0 <= j < i ==> t.locals[m][j].name != n
    ensures GetVarRefType(t, n, Some(m)) == Success(Some(t.locals[m][i].typ))
  {
    var r := LookupName(t.locals[m], n);
    assert HasName(t.locals[m], n);
    var k :| 0 <= k < |t.locals[m]| && t.locals[m][k].name == n && t.locals[m][k].typ == r.value
      && forall j :: 0 <= j < k ==> t.locals[m][j].name != n;
    assert k == i;
  }

  /** A parameter that no local hides is found before any field or import. */
  lemma ParamShadowsField(t: SymbolTable, n: string, m: string, i: nat)
    requires m in t.locals && !HasName(t.locals[m], n)
    requires m in t.params && i < |t.params[m]| && t.params[m][i].name == n
    requires forall j :: 0 <= j < i ==> t.params[m][j].name != n
    ensures GetVarRefType(t, n, Some(m)) == Success(Some(t.params[m][i].typ))
  {
    var r := LookupName(t.params[m], n);
    assert HasName(t.params[m], n);
    var k :| 0 <= k < |t.params[m]| && t.params[m][k].name == n && t.params[m][k].typ == r.value
      && forall j :: 0 <= j < k ==> t.params[m][j].name != n;
    assert k == i;
  }

  /** Without a current method only fields and imports are consulted, and nothing can fail. */
  lemma NoMethodLooksAtFieldsAndImports(t: SymbolTable, n: string)
    ensures GetVarRefType(t, n, None).Success?
    ensures GetVarRefType(t, n, None).value.Some? <==> HasName(t.fields, n) || n in ShortNames(t.imports)
  {
  }

  // ---- expression types ----

  function ArithmeticOps(): set<string> { {"+", "-", "/", "*"} }
  function BooleanOps(): set<string> { {">", "<", "&&"} }

  /**
   * `getExprType`. A binary operator outside both groups falls through every
   * other case and types as null. An array access dereferences its base's
   * type, and a call dereferences the return-type map.
   */
  function GetExprType(t: SymbolTable, e: Expr, m: Option<string>): Result<Option<Type>, JavaError> {
    match e
    case BinaryExpr(op, _, _) =>
      if op in ArithmeticOps() then Success(Some(IntType()))
      else if op in BooleanOps() then Success(Some(BooleanType()))
      else Success(None)
    case VarRef(n) => GetVarRefType(t, n, m)
    case Paren(inner) => GetExprType(t, inner, m)
    case IntegerLiteral(_) => Success(Some(IntType()))
    case ArrayLength(_) => Success(Some(IntType()))
    case This => Success(Some(SingleObject(t.className)))
    case BooleanLiteral(_) => Success(Some(BooleanType()))
    case Not(_) => Success(Some(BooleanType()))
    case ArrayInit(_) => Success(Some(IntArrayType()))
    case NewArray(_) => Success(Some(IntArrayType()))
    case ArrayAccess(a, _) =>
      var ta :- GetExprType(t, a, m);
      if ta.None? then Failure(NullPointer) else Success(Some(SingleObject(ta.value.name)))
    case MethodCall(_, name, _) =>
      if t.returnTypes.None? then Failure(NullPointer)
      else if name in t.returnTypes.value then Success(Some(t.returnTypes.value[name]))
      else Success(None)
    case NewClass(n) => Success(Some(SingleObject(n)))
  }

  function Parens(k: nat, e: Expr): Expr {
    if k == 0 then e else Paren(Parens(k - 1, e))
  }

  /** Any number of parentheses leaves the type unchanged. */
  lemma {:induction false} ParensKeepType(t: SymbolTable, k: nat, e: Expr, m: Option<string>)
    ensures GetExprType(t, Parens(k, e), m) == GetExprType(t, e, m)
  {
    if k > 0 {
      ParensKeepType(t, k - 1, e, m);
    }
  }

  /** Literals, operators and constructions never consult the symbol table's entries. */
  lemma LiteralTypes(t: SymbolTable, m: Option<string>, v: string, op: string, l: Expr, r: Expr)
    ensures GetExprType(t, IntegerLiteral(v), m) == Success(Some(IntType()))
    ensures GetExprType(t, BooleanLiteral(v), m) == Success(Some(BooleanType()))
    ensures op in ArithmeticOps() ==> GetExprType(t, BinaryExpr(op, l, r), m) == Success(Some(IntType()))
    ensures op in BooleanOps() ==> GetExprType(t, BinaryExpr(op, l, r), m) == Success(Some(BooleanType()))
    ensures op !in ArithmeticOps() + BooleanOps() ==> GetExprType(t, BinaryExpr(op, l, r), m) == Success(None)
  {
  }

  // ---- class membership ----

  /** `isImportedOrSuper`: the own class when it has a superclass, or an imported short name. */
  function IsImportedOrSuper(t: SymbolTable, ot: Option<Type>): Result<bool, JavaError> {
    if ot.None? then Failure(NullPointer)
    else Success((ot.value.name == t.className && t.superName.Some?) || ot.value.name in ShortNames(t.imports))
  }

  /** `belongsToMainClass`: the method is declared in this class and the caller types as this class. */
  function BelongsToMainClass(t: SymbolTable, caller: Expr, name: string, m: Option<string>): Result<bool, JavaError> {
    var ot :- GetExprType(t, caller, m);
    if name !in t.methods then Success(false)
    else if ot.None? then Failure(NullPointer)
    else Success(ot.value.name == t.className)
  }

  /** `methodExists`. */
  function MethodExists(t: SymbolTable, caller: Expr, name: string, m: Option<string>): Result<bool, JavaError> {
    var ot :- GetExprType(t, caller, m);
    var imported :- IsImportedOrSuper(t, ot);
    if imported then Success(true) else BelongsToMainClass(t, caller, name, m)
  }

  /** A call on `this` to a declared method always exists; on an undeclared one it exists exactly when the class extends something. */
  lemma MethodExistsOnThis(t: SymbolTable, name: string, m: Option<string>)
    requires t.className !in ShortNames(t.imports)
    ensures MethodExists(t, This, name, m) == Success(t.superName.Some? || name in t.methods)
  {
    assert GetExprType(t, This, m) == Success(Some(SingleObject(t.className)));
  }

  /**
   * `verifyTypeCompatibility(assignType, assigneeType)`: equal types, the own
   * class assigned to its superclass, or an imported short name assigned to a
   * name that appears verbatim among the imports. All three tests run, so a
   * null on either side fails wherever the code dereferences it.
   */
  function VerifyTypeCompatibility(t: SymbolTable, assignType: Option<Type>, assigneeType: Option<Type>): Result<bool, JavaError> {
    if assignType.None? then Failure(NullPointer)
    else
      var a := assignType.value;
      if a.name == t.className && assigneeType.None? then Failure(NullPointer)
      else if a.name in ShortNames(t.imports) && assigneeType.None? then Failure(NullPointer)
      else
        var sameType := assigneeType.Some? && SameType(a, assigneeType.value);
        var extendsCurrentClass := a.name == t.className && t.superName.Some? && assigneeType.value.name == t.superName.value;
        var doubleImport := a.name in ShortNames(t.imports) && assigneeType.value.name in t.imports;
        Success(sameType || extendsCurrentClass || doubleImport)
  }

  lemma CompatibilityReflexive(t: SymbolTable, a: Type)
    ensures VerifyTypeCompatibility(t, Some(a), Some(a)) == Success(true)
  {
  }

  /** Compatibility is not symmetric: the own class goes to its superclass, not back. */
  lemma CompatibilityToSuperOnly(t: SymbolTable)
    requires t.superName.Some? && t.superName.value != t.className
    requires t.superName.value !in ShortNames(t.imports)
    ensures VerifyTypeCompatibility(t, Some(SingleObject(t.className)), Some(SingleObject(t.superName.value))) == Success(true)
    ensures VerifyTypeCompatibility(t, Some(SingleObject(t.superName.value)), Some(SingleObject(t.className))) == Success(false)
  {
  }

  /**
   * `acessFieldInStaticMethod`: the node is a variable that is not among the
   * method's locals (with the type the lookup gives it) but is a field, and
   * the enclosing method is static. Parameters are not excluded.
   */
  function AccessFieldInStaticMethod(t: SymbolTable, e: Expr, m: Option<string>, enclosingStatic: bool): Result<bool, JavaError> {
    if !e.VarRef? then Success(false)
    else
      var ty :- GetVarRefType(t, e.name, m);
      var locals := LocalsOf(t, m);
      if locals.None? then Failure(NullPointer)
      else Success(!ContainsSymbol(locals.value, ty, e.name) && ContainsSymbol(t.fields, ty, e.name) && enclosingStatic)
  }

  /** A field read in an instance method, and any non-variable, is never reported as a static access. */
  lemma StaticAccessNeedsStaticVar(t: SymbolTable, e: Expr, m: Option<string>, enclosingStatic: bool)
    requires AccessFieldInStaticMethod(t, e, m, enclosingStatic) == Success(true)
    ensures enclosingStatic && e.VarRef? && HasName(t.fields, e.name)
  {
  }
}
