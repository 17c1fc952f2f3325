/**
 * Properties of the statement lowering: the layout and numbering of the
 * labels of `if` and `while`, which assignments are generated without a
 * temporary, the field copy before an array store, the method header and
 * the import lines.
 */
module OllirGenFacts {
  import opened Wrappers
  import opened Ast
  import opened JavaInt
  import opened TypeUtils
  import opened OptUtils
  import opened OllirExprGen
  import opened OllirDirectFindings
  import opened OllirGen

  predicate StartsWith(s: string, t: string) {
    |t| <= |s| && s[..|t|] == t
  }

  predicate EndsWith(s: string, t: string) {
    |t| <= |s| && s[|s| - |t|..] == t
  }

  /** The end label number `k`. */
  function EndName(k: nat): string {
    "endif" + NatToDigits(k)
  }

  // ---- labels ----

  /**
   * An `if` or a `while` ends with the line of its end label, whose number is
   * taken after everything before the statement and before anything inside
   * it.
   */
  lemma EndLabel(x: Ctx, s: Stmt, c: Counters) returns (k: nat, pre: string)
    requires (s.IfStmt? || s.WhileStmt?) && StmtCode(x, s, c).Success?
    ensures Count(c.ends, "endif") <= k < Count(StmtCode(x, s, c).value.1.ends, "endif")
    ensures StmtCode(x, s, c).value.0 == pre + EndName(k) + ":\n"
  {
    if s.IfStmt? {
      assert StmtCode(x, s, c) == IfNode(x, s, c);
      var rc := Visit(x, s.cond, InExpr, false, c).value;
      var (thenL, c1) := TakeThen(rc.1, "then");
      k := Count(c1.ends, "endif");
      var c2 := TakeEnd(c1, "endif").1;
      var re := StmtCode(x, s.elseBody, c2).value;
      var rt := StmtCode(x, s.thenBody, re.1).value;
      pre := rc.0.computation + "if (" + rc.0.code + ") goto " + thenL + ";\n"
        + re.0 + "goto " + EndName(k) + ";\n" + thenL + ":\n" + rt.0;
      assert IfNode(x, s, c).value == (IfLayout(rc.0, thenL, EndName(k), re.0, rt.0), rt.1);
    } else {
      assert StmtCode(x, s, c) == WhileNode(x, s, c);
      var (whileL, c1) := TakeWhile(c, "while");
      var rc := Visit(x, s.cond, InExpr, false, c1).value;
      k := Count(rc.1.ends, "endif");
      var c2 := TakeEnd(rc.1, "endif").1;
      var rb := StmtCode(x, s.body, c2).value;
      pre := whileL + ":\n" + WhileTest(rc.0, EndName(k)) + rb.0 + "goto " + whileL + ";\n";
      assert WhileNode(x, s, c).value == (WhileLayout(whileL, rc.0, EndName(k), rb.0), rb.1);
    }
  }

  /**
   * `if` and `while` draw their end labels from one counter, so two of them
   * in a row, in any combination, end with different labels.
   */
  lemma ConsecutiveEndsDiffer(x: Ctx, s1: Stmt, s2: Stmt, c: Counters) returns (k1: nat, k2: nat)
    requires (s1.IfStmt? || s1.WhileStmt?) && (s2.IfStmt? || s2.WhileStmt?)
    requires StmtCode(x, s1, c).Success? && StmtCode(x, s2, StmtCode(x, s1, c).value.1).Success?
    ensures var r1 := StmtCode(x, s1, c).value;
      var r2 := StmtCode(x, s2, r1.1).value;
      k1 < k2 && EndName(k1) != EndName(k2)
      && (exists pre :: r1.0 == pre + EndName(k1) + ":\n")
      && (exists pre :: r2.0 == pre + EndName(k2) + ":\n")
  {
    var r1 := StmtCode(x, s1, c).value;
    var pre1, pre2;
    k1, pre1 := EndLabel(x, s1, c);
    k2, pre2 := EndLabel(x, s2, r1.1);
    LaterNameDiffers("endif", k1, k2);
  }

  /**
   * A `while` opens with its own label, numbered by the while counter, and
   * closes with a jump back to it followed by its end label, numbered by the
   * counter `if` uses.
   */
  lemma WhileLoopsBack(x: Ctx, s: Stmt, c: Counters) returns (k: nat, test: string, body: string)
    requires s.WhileStmt? && StmtCode(x, s, c).Success?
    ensures var whileL := "while" + NatToDigits(Count(c.whiles, "while"));
      StmtCode(x, s, c).value.0 == whileL + ":\n" + test + body + "goto " + whileL + ";\n" + EndName(k) + ":\n"
    ensures Count(c.ends, "endif") <= k
  {
    assert StmtCode(x, s, c) == WhileNode(x, s, c);
    var (whileL, c1) := TakeWhile(c, "while");
    var rc := Visit(x, s.cond, InExpr, false, c1).value;
    k := Count(rc.1.ends, "endif");
    var c2 := TakeEnd(rc.1, "endif").1;
    body := StmtCode(x, s.body, c2).value.0;
    test := WhileTest(rc.0, EndName(k));
    assert WhileNode(x, s, c).value.0 == WhileLayout(whileL, rc.0, EndName(k), body);
  }

  // ---- assignments ----

  /**
   * `id = a op b` on two integer literals, to a target that is not a field:
   * one move of the operation itself, with nothing computed before it and
   * no temporary taken.
   */
  lemma SimpleAssignInline(x: Ctx, left: Expr, id: string, ty: string, op: string, a: string, b: string, c: Counters)
    requires Target(x, left) == Success((id, ty, false)) && op in ArithmeticOps()
    ensures AssignCode(x, left, BinaryExpr(op, IntegerLiteral(a), IntegerLiteral(b)), c)
      == Success((Move(id, ty, Operation(a + ".i32", op, ".i32", b + ".i32")), c))
  {
    var rhs := BinaryExpr(op, IntegerLiteral(a), IntegerLiteral(b));
    IntOperation(x, op, a, b, true, c);
    assert Visit(x, rhs, InAssign(left), true, c) == BinaryNode(x, rhs, true, c);
    assert "" + Move(id, ty, Operation(a + ".i32", op, ".i32", b + ".i32")) == Move(id, ty, Operation(a + ".i32", op, ".i32", b + ".i32"));
  }

  /**
   * The same right-hand side assigned to a field goes to a fresh temporary
   * first, and the field is written by `putfield`.
   */
  lemma FieldAssignPutfield(x: Ctx, left: Expr, id: string, ty: string, op: string, a: string, b: string, c: Counters)
    requires Target(x, left) == Success((id, ty, true)) && op in ArithmeticOps()
    ensures var (tmp, c1) := TakeTemp(c, "tmp");
      AssignCode(x, left, BinaryExpr(op, IntegerLiteral(a), IntegerLiteral(b)), c)
      == Success((tmp + ".i32" + " :=" + ".i32" + " " + Operation(a + ".i32", op, ".i32", b + ".i32") + ";\n"
        + PutField(id, ty, tmp + ".i32"), c1))
  {
    var rhs := BinaryExpr(op, IntegerLiteral(a), IntegerLiteral(b));
    IntOperation(x, op, a, b, false, c);
    assert Visit(x, rhs, InAssign(left), false, c) == BinaryNode(x, rhs, false, c);
  }

  /**
   * `id = i op (j op2 k)` to a non-field: the parenthesised operand makes the
   * right-hand side simple, so as written the whole expression becomes one
   * move holding two operators.
   */
  lemma AsWrittenNestedAssign(x: Ctx, left: Expr, id: string, ty: string, op: string, i: string, op2: string, j: string, k: string, c: Counters)
    requires x.mode == AsWritten && Target(x, left) == Success((id, ty, false))
    requires op in ArithmeticOps() && op2 in ArithmeticOps()
    ensures AssignCode(x, left, BinaryExpr(op, IntegerLiteral(i), Paren(BinaryExpr(op2, IntegerLiteral(j), IntegerLiteral(k)))), c)
      == Success((Move(id, ty, Operation(i + ".i32", op, ".i32", Operation(j + ".i32", op2, ".i32", k + ".i32"))), c))
  {
    var rhs := BinaryExpr(op, IntegerLiteral(i), Paren(BinaryExpr(op2, IntegerLiteral(j), IntegerLiteral(k))));
    AsWrittenInlinesParenthesised(x, op, i, op2, j, k, c);
    assert Visit(x, rhs, InAssign(left), true, c) == BinaryNode(x, rhs, true, c);
    var m := Move(id, ty, Operation(i + ".i32", op, ".i32", Operation(j + ".i32", op2, ".i32", k + ".i32")));
    assert "" + m == m;
  }

  /** Repaired, the parenthesised operator goes to a temporary and the move holds one operator. */
  lemma RepairedNestedAssign(x: Ctx, left: Expr, id: string, ty: string, op: string, i: string, op2: string, j: string, k: string, c: Counters)
    requires x.mode == Repaired && Target(x, left) == Success((id, ty, false))
    requires op in ArithmeticOps() && op2 in ArithmeticOps()
    ensures var (tmp, c1) := TakeTemp(c, "tmp");
      AssignCode(x, left, BinaryExpr(op, IntegerLiteral(i), Paren(BinaryExpr(op2, IntegerLiteral(j), IntegerLiteral(k)))), c)
      == Success((tmp + ".i32" + " :=" + ".i32" + " " + Operation(j + ".i32", op2, ".i32", k + ".i32") + ";\n"
        + Move(id, ty, Operation(i + ".i32", op, ".i32", tmp + ".i32")), c1))
  {
    var rhs := BinaryExpr(op, IntegerLiteral(i), Paren(BinaryExpr(op2, IntegerLiteral(j), IntegerLiteral(k))));
    RepairedParenthesisedIsTemp(x, op, i, op2, j, k, c);
    assert Visit(x, rhs, InAssign(left), true, c) == BinaryNode(x, rhs, true, c);
  }

  // ---- array stores ----

  /**
   * A store into an `int[]` field that is no local or parameter first copies
   * the field into a fresh temporary by `getfield`; the index and value are
   * visited after the copy, and the element store writes to the temporary.
   */
  lemma FieldArrayCopied(x: Ctx, name: string, index: Expr, value: Expr, c: Counters)
    requires Lookup(x.table, x.current, Some(IntArrayType()), name) == Success(InFields)
    requires ArrayAssignCode(x, name, index, value, c).Success?
    ensures var (tmp, c1) := TakeTemp(c, "tmp");
      var ri := Visit(x, index, InArrayAssign(name), false, c1).value;
      var rv := Visit(x, value, InArrayAssign(name), false, ri.1).value;
      ArrayAssignCode(x, name, index, value, c).value
        == (tmp + ".array.i32 :=.array.i32 getfield(this, " + name + ".array.i32).array.i32;\n"
          + ri.0.computation + rv.0.computation + ElementMove(tmp + ".array.i32", ri.0.code, rv.0.code), rv.1)
  {
  }

  /** Any other array is stored into by its bare name, with nothing before the index and value. */
  lemma OtherArrayDirect(x: Ctx, name: string, index: Expr, value: Expr, c: Counters)
    requires Lookup(x.table, x.current, Some(IntArrayType()), name).Success?
    requires Lookup(x.table, x.current, Some(IntArrayType()), name) != Success(InFields)
    requires ArrayAssignCode(x, name, index, value, c).Success?
    ensures var ri := Visit(x, index, InArrayAssign(name), false, c).value;
      var rv := Visit(x, value, InArrayAssign(name), false, ri.1).value;
      ArrayAssignCode(x, name, index, value, c).value
        == (ri.0.computation + rv.0.computation + ElementMove(name, ri.0.code, rv.0.code), rv.1)
  {
    var ri := Visit(x, index, InArrayAssign(name), false, c).value;
    assert "" + ri.0.computation == ri.0.computation;
  }

  // ---- methods ----

  /** The name in the header differs from the method's exactly when a vararg method is called "varargs". */
  lemma QuotedName(m: MethodDecl)
    ensures ShownName(m) != m.name <==> LastIsVararg(m.params) && m.name == "varargs"
  {
  }

  /** The modifiers end with the `varargs` keyword exactly when the last parameter is a vararg. */
  lemma VarargsKeyword(m: MethodDecl)
    ensures EndsWith(Modifiers(m), "varargs ") <==> LastIsVararg(m.params)
  {
    var front := (if m.isPublic then "public " else "") + (if m.isStatic then "static " else "");
    var s := Modifiers(m);
    if LastIsVararg(m.params) {
      assert s == front + "varargs ";
      assert (front + "varargs ")[|front|..] == "varargs ";
    } else {
      assert s == front + "";
      if m.isPublic && m.isStatic {
        assert front == "public static ";
        assert front[|front| - 8] != "varargs "[0];
      } else if m.isPublic {
        assert |front| < 8;
      } else if m.isStatic {
        assert |front| < 8;
      } else {
        assert |front| < 8;
      }
    }
  }

  /** `public static void main(String[] args)`: the parameter named by `args` as a String array. */
  lemma MainHeader(m: MethodDecl)
    requires m.name == "main" && m.isPublic && m.isStatic && m.params == []
    ensures Header(m, "", ".V") == ".method " + "public static " + "main" + "(" + (m.args + ".array.String") + ")" + ".V" + " {\n"
  {
    assert Modifiers(m) == "public " + "static " + "";
    assert "public " + "static " + "" == "public static ";
    assert ShownName(m) == "main";
    assert ParamsText(m, "") == "" + (m.args + ".array.String");
    assert "" + (m.args + ".array.String") == m.args + ".array.String";
  }

  lemma VoidSuffix()
    ensures ToOllirType(VoidType()) == ".V"
  {
    assert OllirName("void") == "V";
    assert ToOllirType(VoidType()) == "" + "." + "V";
  }

  /** main's code starts with its header, the parameter list empty, and ends with `ret.V;` and the closing brace. */
  lemma MainMethod(x: Ctx, m: MethodDecl, c: Counters) returns (body: string)
    requires m.name == "main" && m.params == []
    requires MethodCode(x, m, c).Success? && ReturnTypeOf(x.table, "main") == Success(Some(VoidType()))
    ensures MethodCode(x, m, c).value.0 == Header(m, "", ".V") + body + "ret.V;" + "}\n" + "\n"
  {
    VoidSuffix();
    assert ParamCodes(m.params) == [];
    assert Join(ParamCodes(m.params), ", ") == "";
    var xm := x.(current := m.name);
    var rs := StmtCodes(xm, m.stmts, c).value;
    var rr := ReturnCodes(xm, m.returnExprs, rs.1).value;
    body := Indented(rs.0) + Indented(rr.0);
    assert Header(m, "", ".V") + Indented(rs.0) + Indented(rr.0) == Header(m, "", ".V") + body;
  }

  /** A method without statements still gets the indentation of both groups, and takes no name. */
  lemma EmptyBody(x: Ctx, m: MethodDecl, c: Counters)
    requires m.stmts == [] && m.returnExprs == [] && m.name != "main" && MethodCode(x, m, c).Success?
    ensures var retCode := OllirTypeOf(ReturnTypeOf(x.table, m.name).value).value;
      MethodCode(x, m, c).value == (Header(m, Join(ParamCodes(m.params), ", "), retCode) + "   " + "   " + "" + "}\n" + "\n", c)
  {
    assert Indented([]) == "   " + "";
    assert "   " + "" == "   ";
  }

  // ---- fields and imports ----

  /** The field lines of two lists are the lines of each, in order. */
  lemma {:induction false} FieldsAppend(fs: seq<Symbol>, gs: seq<Symbol>)
    ensures FieldsCode(fs + gs) == FieldsCode(fs) + FieldsCode(gs)
  {
    if |fs| == 0 {
      assert fs + gs == gs;
    } else {
      assert (fs + gs)[0] == fs[0] && (fs + gs)[1..] == fs[1..] + gs;
      FieldsAppend(fs[1..], gs);
    }
  }

  /** The last "." of a path joined by "." is the one before its last segment. */
  lemma LastDot(front: string, last: string)
    requires forall i :: 0 <= i < |last| ==> last[i] != '.'
    ensures LastIndexOf(front + "." + last, '.') == |front|
    decreases |last|
  {
    var s := front + "." + last;
    if |last| == 0 {
      assert s[|s| - 1] == '.';
    } else {
      assert s[|s| - 1] == last[|last| - 1];
      assert s[..|s| - 1] == front + "." + last[..|last| - 1];
      LastDot(front, last[..|last| - 1]);
    }
  }

  /**
   * The short name `shortenImport` gives to an import's joined path is its
   * last segment, when no segment has a "." of its own.
   */
  lemma ImportShortName(path: seq<string>)
    requires |path| >= 1 && forall k :: 0 <= k < |path| ==> forall i :: 0 <= i < |path[k]| ==> path[k][i] != '.'
    ensures ShortenImport(Join(path, ".")) == path[|path| - 1]
  {
    var last := path[|path| - 1];
    if |path| > 1 {
      var front := Join(path[..|path| - 1], ".");
      assert Join(path, ".") == front + "." + last;
      LastDot(front, last);
      assert (front + "." + last)[|front| + 1..] == last;
    }
  }
}
