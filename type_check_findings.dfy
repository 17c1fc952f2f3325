/**
 * Three places where the type-checking pass, as written, decides otherwise
 * than it evidently means to, each against the repaired reading.
 *
 * The boolean right operand: the exemption test for the right operand of a
 * boolean operator asks whether the LEFT operand is a call and then types
 * the right operand's first child. A call on an imported object `&&` a
 * literal then fails on the literal's missing child, and a literal `&&` such
 * a call types the call through the return-type map, where an imported
 * method has no entry, and dereferences the null it gets.
 *
 * The static condition: the static-field test of a condition is asked of the
 * `if` or `while` node, which is never a variable, so a static field read as
 * a condition in a static method goes unreported.
 *
 * The field array assignment: assigning into an element of a field array is
 * reported as a static access whether or not the method is static.
 */
module TypeCheckFindings {
  import opened Wrappers
  import opened Ast
  import opened TypeUtils
  import opened TypeCheck

  // ---- the boolean right operand ----

  /** A call on a fresh object of an imported class has an imported receiver; with no return type recorded it types as null. */
  lemma ImportedObjectCall(t: SymbolTable, c: string, name: string, args: seq<Expr>, m: Option<string>)
    requires c in ShortNames(t.imports)
    ensures ReceiverImported(t, MethodCall(NewClass(c), name, args), m) == Success(true)
    ensures t.returnTypes.Some? && name !in t.returnTypes.value ==> GetExprType(t, MethodCall(NewClass(c), name, args), m) == Success(None)
  {
    assert GetExprType(t, NewClass(c), m) == Success(Some(SingleObject(c)));
  }

  /**
   * A call with an imported receiver `&&` a boolean leaf, such as a literal:
   * as written the leaf's first child is fetched and there is none.
   */
  lemma LeftCallRightLeaf(t: SymbolTable, op: string, l: Expr, r: Expr, m: Option<string>, isStatic: bool)
    requires op !in IntOps() && ReceiverImported(t, l, m) == Success(true)
    requires FirstChild(r).None? && !r.VarRef? && GetExprType(t, r, m) == Success(Some(BooleanType()))
    ensures BinaryReports(AsWritten, t, BinaryExpr(op, l, r), m, isStatic) == Failure(IndexOutOfBounds)
    ensures BinaryReports(Repaired, t, BinaryExpr(op, l, r), m, isStatic) == Success([])
  {
    assert ReceiverImported(t, r, m) == Success(false);
  }

  /**
   * A plain boolean `&&` a call with an imported receiver whose return type
   * is not recorded: as written the call's null type is dereferenced.
   */
  lemma PlainLeftCallRight(t: SymbolTable, op: string, l: Expr, r: Expr, m: Option<string>, isStatic: bool)
    requires op !in IntOps() && !l.MethodCall? && AccessFieldInStaticMethod(t, l, m, isStatic) == Success(false)
    requires GetExprType(t, l, m) == Success(Some(BooleanType()))
    requires ReceiverImported(t, r, m) == Success(true) && GetExprType(t, r, m) == Success(None)
    ensures BinaryReports(AsWritten, t, BinaryExpr(op, l, r), m, isStatic) == Failure(NullPointer)
    ensures BinaryReports(Repaired, t, BinaryExpr(op, l, r), m, isStatic) == Success([])
  {
  }

  /** So `new C().f() && true` and `true && new C().f()`, with `C` imported and `f` not a method of this class, as written throw and repaired pass. */
  lemma ImportedCallBesideLiteral(t: SymbolTable, c: string, name: string, args: seq<Expr>, m: Option<string>, isStatic: bool)
    requires c in ShortNames(t.imports) && t.returnTypes.Some? && name !in t.returnTypes.value
    ensures BinaryReports(AsWritten, t, BinaryExpr("&&", MethodCall(NewClass(c), name, args), BooleanLiteral("true")), m, isStatic)
      == Failure(IndexOutOfBounds)
    ensures BinaryReports(AsWritten, t, BinaryExpr("&&", BooleanLiteral("true"), MethodCall(NewClass(c), name, args)), m, isStatic)
      == Failure(NullPointer)
    ensures BinaryReports(Repaired, t, BinaryExpr("&&", MethodCall(NewClass(c), name, args), BooleanLiteral("true")), m, isStatic)
      == Success([])
    ensures BinaryReports(Repaired, t, BinaryExpr("&&", BooleanLiteral("true"), MethodCall(NewClass(c), name, args)), m, isStatic)
      == Success([])
  {
    ImportedObjectCall(t, c, name, args, m);
    LeftCallRightLeaf(t, "&&", MethodCall(NewClass(c), name, args), BooleanLiteral("true"), m, isStatic);
    PlainLeftCallRight(t, "&&", BooleanLiteral("true"), MethodCall(NewClass(c), name, args), m, isStatic);
  }

  /** Repaired, the right operand's exemption is its own receiver's, as the left operand's is. */
  lemma RepairedRightExemption(t: SymbolTable, e: Expr, m: Option<string>)
    requires e.BinaryExpr?
    ensures RightBooleanExempt(Repaired, t, e, m) == ReceiverImported(t, e.right, m)
  {
  }

  // ---- the static condition ----

  /** A static field read as a condition in a static method: unreported as written, reported repaired. */
  lemma StaticCondition(t: SymbolTable, s: Stmt, m: Option<string>)
    requires s.IfStmt? || s.WhileStmt?
    requires AccessFieldInStaticMethod(t, s.cond, m, true) == Success(true)
    requires GetExprType(t, s.cond, m) == Success(Some(BooleanType()))
    ensures ConditionReports(AsWritten, t, s, m, true) == Success([])
    ensures ConditionReports(Repaired, t, s, m, true) == Success(One(StmtSite(s), StaticFieldMessage))
  {
  }

  /** Such a condition exists: a boolean field `flag` read in a method with no locals and no parameters. */
  lemma FlagIsStaticRead(t: SymbolTable, mn: string)
    requires t.fields == [Symbol(BooleanType(), "flag")]
    requires t.Locals(mn) == Some([]) && t.Params(mn) == Some([])
    ensures AccessFieldInStaticMethod(t, VarRef("flag"), Some(mn), true) == Success(true)
    ensures GetExprType(t, VarRef("flag"), Some(mn)) == Success(Some(BooleanType()))
  {
    assert GetVarRefType(t, "flag", Some(mn)) == Success(Some(BooleanType()));
    assert t.fields[0].name == "flag";
  }

  /** As written no condition is ever reported as a static access. */
  lemma AsWrittenConditionNeverStatic(t: SymbolTable, s: Stmt, m: Option<string>, isStatic: bool)
    requires s.IfStmt? || s.WhileStmt?
    requires ConditionReports(AsWritten, t, s, m, isStatic).Success?
    ensures Report(StmtSite(s), StaticFieldMessage) !in ConditionReports(AsWritten, t, s, m, isStatic).value
  {
  }

  // ---- the field array assignment ----

  /** `arr[0] = 1` on an `int[]` field from an instance method: reported as written, accepted repaired. */
  lemma FieldArrayAssign(t: SymbolTable, mn: string)
    requires t.fields == [Symbol(IntArrayType(), "arr")]
    requires t.Locals(mn) == Some([]) && t.Params(mn) == Some([])
    ensures ArrayAssignReports(AsWritten, t, ArrayAssignStmt("arr", IntegerLiteral("0"), IntegerLiteral("1")), Some(mn), false)
      == Success(One(StmtSite(ArrayAssignStmt("arr", IntegerLiteral("0"), IntegerLiteral("1"))), StaticFieldMessage))
    ensures ArrayAssignReports(Repaired, t, ArrayAssignStmt("arr", IntegerLiteral("0"), IntegerLiteral("1")), Some(mn), false)
      == Success([])
  {
    assert GetVarRefType(t, "arr", Some(mn)) == Success(Some(IntArrayType()));
    assert t.fields[0].name == "arr";
  }

  /** Repaired, an instance method's array assignment is never a static access. */
  lemma RepairedInstanceAssignNotStatic(t: SymbolTable, s: Stmt, m: Option<string>)
    requires s.ArrayAssignStmt? && ArrayAssignReports(Repaired, t, s, m, false).Success?
    ensures Report(StmtSite(s), StaticFieldMessage) !in ArrayAssignReports(Repaired, t, s, m, false).value
  {
  }
}
