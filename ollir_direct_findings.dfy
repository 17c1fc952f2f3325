/**
 * The direct-assignment flag of the expression generator.
 *
 * `visitAssignStmt` sets the flag for a right-hand side that is a simple
 * binary expression, and clears it only after the whole right-hand side is
 * visited. A parenthesised operand counts as simple whatever it holds, and
 * while the flag is set every operator below it is returned inline too, so
 * `a = b + (c * d)` becomes `a.i32 :=.i32 b.i32 +.i32 c.i32 *.i32 d.i32;`,
 * which is not a three-address instruction. The evident intent is that only
 * the outermost operator is returned without a temporary: `Repaired` visits
 * the operands outside direct mode, and `c * d` goes to a temporary first.
 */
module OllirDirectFindings {
  import opened Wrappers
  import opened Ast
  import opened TypeUtils
  import opened OptUtils
  import opened OllirExprGen
  import opened JavaInt

  /** A parenthesised operator as an operand is visited in the direct mode it inherits. */
  lemma ParenOperand(x: Ctx, inner: Expr, d: bool, c: Counters)
    requires inner.BinaryExpr?
    ensures Visit(x, Paren(inner), InExpr, d, c) == BinaryNode(x, inner, Inherit(x, d), c)
  {
  }

  lemma IntSuffix()
    ensures ToOllirType(IntType()) == ".i32"
  {
    assert OllirName("int") == "i32";
    assert ToOllirType(IntType()) == "" + "." + "i32";
  }

  /** The code of `l op r` for two integer literals, inline or through a fresh temporary. */
  lemma IntOperation(x: Ctx, op: string, j: string, k: string, direct: bool, c: Counters)
    requires op in ArithmeticOps()
    ensures var operation := Operation(j + ".i32", op, ".i32", k + ".i32");
      var (tmp, c1) := TakeTemp(c, "tmp");
      BinaryNode(x, BinaryExpr(op, IntegerLiteral(j), IntegerLiteral(k)), direct, c)
      == if direct then Success((ExprResult(operation, ""), c))
         else Success((ExprResult(tmp + ".i32", tmp + ".i32" + " :=" + ".i32" + " " + operation + ";\n"), c1))
  {
    var e := BinaryExpr(op, IntegerLiteral(j), IntegerLiteral(k));
    var d := Inherit(x, direct);
    IntSuffix();
    LiteralTypes(x.table, Some(x.current), j, op, IntegerLiteral(j), IntegerLiteral(k));
    assert Visit(x, IntegerLiteral(j), InExpr, d, c) == Success((ExprResult(j + ".i32", ""), c));
    assert Visit(x, IntegerLiteral(k), InExpr, d, c) == Success((ExprResult(k + ".i32", ""), c));
    assert BinaryNode(x, e, direct, c)
      == Success(OpLayout(ExprResult(j + ".i32", ""), ExprResult(k + ".i32", ""), op, ".i32", direct, c));
    assert "" + "" + (TakeTemp(c, "tmp").0 + ".i32") == TakeTemp(c, "tmp").0 + ".i32";
  }

  /**
   * As written: with the flag set, `i op (j op2 k)` comes out as one code
   * holding both operators, with nothing computed before it and no temporary.
   */
  lemma AsWrittenInlinesParenthesised(x: Ctx, op: string, i: string, op2: string, j: string, k: string, c: Counters)
    requires x.mode == AsWritten && op in ArithmeticOps() && op2 in ArithmeticOps()
    ensures BinaryNode(x, BinaryExpr(op, IntegerLiteral(i), Paren(BinaryExpr(op2, IntegerLiteral(j), IntegerLiteral(k)))), true, c)
      == Success((ExprResult(Operation(i + ".i32", op, ".i32", Operation(j + ".i32", op2, ".i32", k + ".i32")), ""), c))
  {
    var inner := BinaryExpr(op2, IntegerLiteral(j), IntegerLiteral(k));
    var e := BinaryExpr(op, IntegerLiteral(i), Paren(inner));
    ParenOperand(x, inner, true, c);
    IntOperation(x, op2, j, k, true, c);
    IntSuffix();
    LiteralTypes(x.table, Some(x.current), i, op, IntegerLiteral(i), Paren(inner));
    var rl := ExprResult(i + ".i32", "");
    var rr := ExprResult(Operation(j + ".i32", op2, ".i32", k + ".i32"), "");
    assert Visit(x, IntegerLiteral(i), InExpr, true, c) == Success((rl, c));
    assert Visit(x, Paren(inner), InExpr, true, c) == Success((rr, c));
    assert BinaryNode(x, e, true, c) == Success(OpLayout(rl, rr, op, ".i32", true, c));
    assert "" + "" == "";
  }

  /**
   * Repaired: the parenthesised operator goes to a fresh temporary computed
   * first, and the code is one operator between two names.
   */
  lemma RepairedParenthesisedIsTemp(x: Ctx, op: string, i: string, op2: string, j: string, k: string, c: Counters)
    requires x.mode == Repaired && op in ArithmeticOps() && op2 in ArithmeticOps()
    ensures var (tmp, c1) := TakeTemp(c, "tmp");
      BinaryNode(x, BinaryExpr(op, IntegerLiteral(i), Paren(BinaryExpr(op2, IntegerLiteral(j), IntegerLiteral(k)))), true, c)
      == Success((ExprResult(Operation(i + ".i32", op, ".i32", tmp + ".i32"),
        tmp + ".i32" + " :=" + ".i32" + " " + Operation(j + ".i32", op2, ".i32", k + ".i32") + ";\n"), c1))
  {
    var inner := BinaryExpr(op2, IntegerLiteral(j), IntegerLiteral(k));
    var e := BinaryExpr(op, IntegerLiteral(i), Paren(inner));
    ParenOperand(x, inner, false, c);
    IntOperation(x, op2, j, k, false, c);
    IntSuffix();
    LiteralTypes(x.table, Some(x.current), i, op, IntegerLiteral(i), Paren(inner));
    var (tmp, c1) := TakeTemp(c, "tmp");
    var rl := ExprResult(i + ".i32", "");
    var rr := ExprResult(tmp + ".i32", tmp + ".i32" + " :=" + ".i32" + " " + Operation(j + ".i32", op2, ".i32", k + ".i32") + ";\n");
    assert Visit(x, IntegerLiteral(i), InExpr, false, c) == Success((rl, c));
    assert Visit(x, Paren(inner), InExpr, false, c) == Success((rr, c1));
    assert BinaryNode(x, e, true, c) == Success(OpLayout(rl, rr, op, ".i32", true, c1));
    assert "" + rr.computation == rr.computation;
  }

  /** The expression under any number of parentheses. */
  function Unparen(e: Expr): (r: Expr)
    ensures !r.Paren?
  {
    if e.Paren? then Unparen(e.inner) else e
  }

  /** Outside direct mode parentheses change nothing: the operand is visited as the expression it wraps. */
  lemma {:induction false} VisitUnparen(x: Ctx, e: Expr, c: Counters)
    ensures Visit(x, e, InExpr, false, c) == Visit(x, Unparen(e), InExpr, false, c)
  {
    if e.Paren? {
      VisitUnparen(x, e.inner, c);
    }
  }

  /** `code` names the temporary "tmp" followed by a count in `[from, upto)`, with some type suffix. */
  ghost predicate FreshTemp(code: string, from: nat, upto: nat) {
    exists k: nat, ty: string :: from <= k < upto && code == "tmp" + NatToDigits(k) + ty
  }

  /** `r` is the operator `op` between the codes of `rl` and `rr`, after their computations. */
  ghost predicate OneOperator(r: ExprResult, op: string, rl: ExprResult, rr: ExprResult) {
    exists ty: string :: r == ExprResult(Operation(rl.code, op, ty, rr.code), rl.computation + rr.computation)
  }

  /**
   * Outside direct mode an operator other than `&&` is computed into a
   * temporary first, and its code is that temporary's name: "tmp" followed
   * by a count no name issued before the visit carries.
   */
  lemma OperatorIsTemp(x: Ctx, a: Expr, c: Counters)
    requires a.BinaryExpr? && a.op != "&&" && Visit(x, a, InExpr, false, c).Success?
    ensures var (ra, c2) := Visit(x, a, InExpr, false, c).value;
      FreshTemp(ra.code, Count(c.temps, "tmp"), Count(c2.temps, "tmp"))
  {
    var d := Inherit(x, false);
    var rl := Visit(x, a.left, InExpr, d, c).value;
    var rr := Visit(x, a.right, InExpr, d, rl.1).value;
    var ty := OllirTypeOf(GetExprType(x.table, a, Some(x.current)).value).value;
    assert Visit(x, a, InExpr, false, c) == Success(OpLayout(rl.0, rr.0, a.op, ty, false, rr.1));
    var k := Count(rr.1.temps, "tmp");
    assert Visit(x, a, InExpr, false, c).value.0.code == "tmp" + NatToDigits(k) + ty;
  }

  /**
   * Repaired, on any operands: a direct binary operation other than `&&` is
   * the one operator between the codes of its operands visited outside
   * direct mode, after their computations; an operand that is an operator
   * (`&&` aside), parenthesised or not, is a fresh temporary.
   */
  lemma RepairedDirectOperands(x: Ctx, e: Expr, c: Counters)
    requires x.mode == Repaired && e.BinaryExpr? && e.op != "&&" && BinaryNode(x, e, true, c).Success?
    ensures var rl := Visit(x, e.left, InExpr, false, c);
      rl.Success? && var rr := Visit(x, e.right, InExpr, false, rl.value.1);
      rr.Success? && BinaryNode(x, e, true, c).value.1 == rr.value.1 &&
      OneOperator(BinaryNode(x, e, true, c).value.0, e.op, rl.value.0, rr.value.0) &&
      (Unparen(e.left).BinaryExpr? && Unparen(e.left).op != "&&" ==>
        FreshTemp(rl.value.0.code, Count(c.temps, "tmp"), Count(rl.value.1.temps, "tmp"))) &&
      (Unparen(e.right).BinaryExpr? && Unparen(e.right).op != "&&" ==>
        FreshTemp(rr.value.0.code, Count(rl.value.1.temps, "tmp"), Count(rr.value.1.temps, "tmp")))
  {
    var rl := Visit(x, e.left, InExpr, false, c).value;
    var rr := Visit(x, e.right, InExpr, false, rl.1).value;
    var ty := OllirTypeOf(GetExprType(x.table, e, Some(x.current)).value).value;
    assert BinaryNode(x, e, true, c).value == OpLayout(rl.0, rr.0, e.op, ty, true, rr.1);
    VisitUnparen(x, e.left, c);
    VisitUnparen(x, e.right, rl.1);
    if Unparen(e.left).BinaryExpr? && Unparen(e.left).op != "&&" {
      OperatorIsTemp(x, Unparen(e.left), c);
    }
    if Unparen(e.right).BinaryExpr? && Unparen(e.right).op != "&&" {
      OperatorIsTemp(x, Unparen(e.right), rl.1);
    }
  }
}
