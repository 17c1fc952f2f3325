/**
 * Inputs on which constant propagation as written rewrites a method into one
 * that can return a different value, or throws, next to what the repaired
 * join rules do with the same inputs.
 *
 * The method is `int foo()` with locals `int x` and `boolean b`; a branch
 * or loop body written without braces is the statement itself.
 */
module PropagationFindings {
  import opened Wrappers
  import opened JavaInt
  import opened Ast
  import opened TypeUtils
  import opened ConstantFolding
  import opened ConstantPropagation
  import opened PropagationSoundness

  function Table(): SymbolTable {
    SymbolTable("A", ["foo"], Some(map["foo" := IntType()]), map["foo" := []],
      map["foo" := [Symbol(IntType(), "x"), Symbol(BooleanType(), "b")]], [], [], None)
  }

  function SetX(v: string): Stmt { AssignStmt(VarRef("x"), IntegerLiteral(v)) }

  function Foo(stmts: seq<Stmt>): MethodDecl {
    MethodDecl("foo", true, false, IntType(), [],
      [VarDecl(IntType(), "x"), VarDecl(BooleanType(), "b")], stmts, [VarRef("x")], "")
  }

  lemma XIsLocal()
    ensures IsLocal(Table(), Some("foo"), "x") == Success(true)
    ensures IsLocal(Table(), Some("foo"), "b") == Success(true)
  {
    assert Table().locals["foo"][0].name == "x";
    assert Table().locals["foo"][1].name == "b";
  }

  lemma AssignedSetX(v: string)
    ensures Assigned(SetX(v)) == {"x"}
  {
    assert [VarRef("x")][0] == VarRef("x");
  }

  /** `x = v` with `x` a local records the literal. */
  lemma PropSetX(mode: Mode, c: Constants, v: string)
    ensures PropStmt(mode, Table(), Some("foo"), c, SetX(v))
      == Success(StmtOut(SetX(v), c["x" := IntegerLiteral(v)], false, Some({"x"})))
  {
    XIsLocal();
  }

  lemma PropOne(mode: Mode, c: Constants, s: Stmt)
    requires PropStmt(mode, Table(), Some("foo"), c, s).Success?
    ensures var o := PropStmt(mode, Table(), Some("foo"), c, s).value;
      PropStmts(mode, Table(), Some("foo"), c, [s]) == Success(StmtsOut([o.s], o.c, o.substituted, NamesOr(o.written)))
  {
    var t, m := Table(), Some("foo");
    assert [s][..0] == [] && [s][0] == s;
    assert PropStmts(mode, t, m, c, []) == Success(StmtsOut([], c, false, {}));
    var o := PropStmt(mode, t, m, c, s).value;
    assert [] + [o.s] == [o.s];
    assert {} + NamesOr(o.written) == NamesOr(o.written);
  }

  lemma PropTwo(mode: Mode, c: Constants, s1: Stmt, s2: Stmt)
    requires PropStmt(mode, Table(), Some("foo"), c, s1).Success?
    requires PropStmt(mode, Table(), Some("foo"), PropStmt(mode, Table(), Some("foo"), c, s1).value.c, s2).Success?
    ensures var o1 := PropStmt(mode, Table(), Some("foo"), c, s1).value;
      var o2 := PropStmt(mode, Table(), Some("foo"), o1.c, s2).value;
      PropStmts(mode, Table(), Some("foo"), c, [s1, s2])
        == Success(StmtsOut([o1.s, o2.s], o2.c, o1.substituted || o2.substituted, NamesOr(o1.written) + NamesOr(o2.written)))
  {
    var t, m := Table(), Some("foo");
    PropOne(mode, c, s1);
    var o1 := PropStmt(mode, t, m, c, s1).value;
    var o2 := PropStmt(mode, t, m, o1.c, s2).value;
    assert [s1, s2][..1] == [s1] && [s1, s2][1] == s2;
    assert [o1.s] + [o2.s] == [o1.s, o2.s];
  }

  /** Reading `x` (a local) in the map `c`. */
  lemma PropReturnX(c: Constants)
    ensures PropExprs(Table(), Some("foo"), c, [VarRef("x")])
      == Success(ExprsOut([if "x" in c then c["x"] else VarRef("x")], "x" in c))
  {
    XIsLocal();
    var t, m := Table(), Some("foo");
    assert [VarRef("x")][..0] == [] && [VarRef("x")][0] == VarRef("x");
    assert PropExprs(t, m, c, []) == Success(ExprsOut([], false));
    var b := PropExpr(t, m, c, VarRef("x")).value;
    assert b.e == (if "x" in c then c["x"] else VarRef("x")) && b.substituted == ("x" in c);
    assert [] + [b.e] == [b.e];
  }

  /** The method's return expression after its statements leave the map `c`. */
  lemma PropFoo(mode: Mode, stmts: seq<Stmt>)
    requires PropStmts(mode, Table(), Some("foo"), map[], stmts).Success?
    ensures var c := PropStmts(mode, Table(), Some("foo"), map[], stmts).value.c;
      PropMethod(mode, Table(), Foo(stmts)).Success? &&
      PropMethod(mode, Table(), Foo(stmts)).value.md.returnExprs == [if "x" in c then c["x"] else VarRef("x")]
  {
    PropReturnX(PropStmts(mode, Table(), Some("foo"), map[], stmts).value.c);
  }

  lemma RunOne(s: Stmt, env: Env, env': Env)
    requires Exec(s, env, env', 0)
    ensures ExecSeq([s], env, env', 0)
  {
    assert ExecSeq([], env, env, 0);
    ExecSeqJoin([], s, env, env, env', 0);
    assert [] + [s] == [s];
  }

  lemma RunTwo(s1: Stmt, s2: Stmt, env: Env, mid: Env, env': Env)
    requires Exec(s1, env, mid, 0) && Exec(s2, mid, env', 0)
    ensures ExecSeq([s1, s2], env, env', 0)
  {
    RunOne(s1, env, mid);
    ExecSeqJoin([s1], s2, env, mid, env', 0);
    assert [s1] + [s2] == [s1, s2];
  }

  // ---- a literal assigned inside a loop survives the loop ----

  /** `while (b) x = 1;` */
  function Loop(): Stmt { WhileStmt(VarRef("b"), SetX("1")) }

  lemma PropLoop(mode: Mode)
    ensures PropStmt(mode, Table(), Some("foo"), map["x" := IntegerLiteral("5")], Loop()).Success?
    ensures PropStmt(mode, Table(), Some("foo"), map["x" := IntegerLiteral("5")], Loop()).value
      == StmtOut(Loop(), if mode == AsWritten then map["x" := IntegerLiteral("1")] else map[], false,
           if mode == AsWritten then None else Some({"x"}))
  {
    XIsLocal();
    AssignedSetX("1");
    PropSetX(mode, map[], "1");
    assert map["x" := IntegerLiteral("5")] - {"x"} == map[];
    assert map["x" := IntegerLiteral("1")] - {"x"} == map[];
  }

  /**
   * `x = 5; while (b) x = 1; return x;` as written returns the literal 1,
   * though a run that skips the loop ends with `x == 5`.
   */
  lemma LoopConstantEscapes()
    ensures PropMethod(AsWritten, Table(), Foo([SetX("5"), Loop()])).Success?
    ensures PropMethod(AsWritten, Table(), Foo([SetX("5"), Loop()])).value.md.returnExprs == [IntegerLiteral("1")]
    ensures var env, env' := map["b" := BoolVal(false)], map["b" := BoolVal(false), "x" := IntVal(5)];
      ExecSeq([SetX("5"), Loop()], env, env', 0) &&
      EvalIn(env', IntegerLiteral("1")) != EvalIn(env', VarRef("x"))
  {
    LoopConstantAsWritten();
    LoopSkipped();
  }

  /** As written the method returns the literal 1. */
  lemma LoopConstantAsWritten()
    ensures PropMethod(AsWritten, Table(), Foo([SetX("5"), Loop()])).Success?
    ensures PropMethod(AsWritten, Table(), Foo([SetX("5"), Loop()])).value.md.returnExprs == [IntegerLiteral("1")]
  {
    PropSetX(AsWritten, map[], "5");
    assert map[]["x" := IntegerLiteral("5")] == map["x" := IntegerLiteral("5")];
    PropLoop(AsWritten);
    PropTwo(AsWritten, map[], SetX("5"), Loop());
    PropFoo(AsWritten, [SetX("5"), Loop()]);
  }

  /** The literals the examples assign. */
  lemma LiteralValues()
    ensures Eval(IntegerLiteral("1")) == Some(IntVal(1))
    ensures Eval(IntegerLiteral("5")) == Some(IntVal(5))
  {
    assert ParseInt("1") == Some(1);
    assert ParseInt("5") == Some(5);
  }

  /** Running `x = 5;` and then zero rounds of the loop, which ends with `x` other than 1. */
  lemma LoopSkipped()
    ensures var env, env' := map["b" := BoolVal(false)], map["b" := BoolVal(false), "x" := IntVal(5)];
      ExecSeq([SetX("5"), Loop()], env, env', 0) &&
      EvalIn(env', IntegerLiteral("1")) != EvalIn(env', VarRef("x"))
  {
    var env, env' := map["b" := BoolVal(false)], map["b" := BoolVal(false), "x" := IntVal(5)];
    LiteralValues();
    assert Exec(SetX("5"), env, env', 0);
    RunTwo(SetX("5"), Loop(), env, env', env');
  }

  /** With the repaired rules the same method keeps reading `x`. */
  lemma LoopConstantRepaired()
    ensures PropMethod(Repaired, Table(), Foo([SetX("5"), Loop()])).Success?
    ensures PropMethod(Repaired, Table(), Foo([SetX("5"), Loop()])).value.md.returnExprs == [VarRef("x")]
  {
    PropSetX(Repaired, map[], "5");
    assert map[]["x" := IntegerLiteral("5")] == map["x" := IntegerLiteral("5")];
    PropLoop(Repaired);
    PropTwo(Repaired, map[], SetX("5"), Loop());
    PropFoo(Repaired, [SetX("5"), Loop()]);
  }

  // ---- a nested `if` hides its assignments from the enclosing one ----

  /** `if (b) { x = 1; } else { }` */
  function Inner(): Stmt { IfStmt(VarRef("b"), ScopeStmt([SetX("1")]), ScopeStmt([])) }

  /** `if (b) { if (b) { x = 1; } else { } } else { }` */
  function Nested(): Stmt { IfStmt(VarRef("b"), ScopeStmt([Inner()]), ScopeStmt([])) }

  lemma PropInner(mode: Mode, c: Constants)
    requires "b" !in c
    ensures PropStmt(mode, Table(), Some("foo"), c, Inner()).Success?
    ensures PropStmt(mode, Table(), Some("foo"), c, Inner()).value
      == StmtOut(Inner(), c - {"x"}, false, if mode == AsWritten then None else Some({"x"}))
  {
    var t, m := Table(), Some("foo");
    XIsLocal();
    PropSetX(mode, c, "1");
    PropOne(mode, c, SetX("1"));
    assert PropExpr(t, m, c, VarRef("b")) == Success(ExprOut(VarRef("b"), false));
    var th := PropStmt(mode, t, m, c, ScopeStmt([SetX("1")]));
    assert th == Success(StmtOut(ScopeStmt([SetX("1")]), c["x" := IntegerLiteral("1")], false, Some({"x"})));
    assert PropStmts(mode, t, m, c, []) == Success(StmtsOut([], c, false, {}));
    var el := PropStmt(mode, t, m, c, ScopeStmt([]));
    assert el == Success(StmtOut(ScopeStmt([]), c, false, Some({})));
    assert {"x"} + {} == {"x"};
  }

  lemma PropNested(mode: Mode, c: Constants)
    requires "b" !in c
    ensures PropStmt(mode, Table(), Some("foo"), c, Nested()).Success?
    ensures PropStmt(mode, Table(), Some("foo"), c, Nested()).value.s == Nested()
    ensures PropStmt(mode, Table(), Some("foo"), c, Nested()).value.c == if mode == AsWritten then c else c - {"x"}
  {
    XIsLocal();
    PropInner(mode, c);
    PropOne(mode, c, Inner());
  }

  /**
   * `x = 5; if (b) { if (b) { x = 1; } else { } } else { } return x;` as
   * written returns the literal 5, though a run through both then-branches
   * ends with `x == 1`.
   */
  lemma NestedIfConstantEscapes()
    ensures PropMethod(AsWritten, Table(), Foo([SetX("5"), Nested()])).Success?
    ensures PropMethod(AsWritten, Table(), Foo([SetX("5"), Nested()])).value.md.returnExprs == [IntegerLiteral("5")]
    ensures var env, env' := map["b" := BoolVal(true)], map["b" := BoolVal(true), "x" := IntVal(1)];
      ExecSeq([SetX("5"), Nested()], env, env', 0) &&
      EvalIn(env', IntegerLiteral("5")) != EvalIn(env', VarRef("x"))
  {
    NestedIfAsWritten();
    BothThenBranches();
  }

  /** As written the method returns the literal 5. */
  lemma NestedIfAsWritten()
    ensures PropMethod(AsWritten, Table(), Foo([SetX("5"), Nested()])).Success?
    ensures PropMethod(AsWritten, Table(), Foo([SetX("5"), Nested()])).value.md.returnExprs == [IntegerLiteral("5")]
  {
    var c1 := map["x" := IntegerLiteral("5")];
    PropSetX(AsWritten, map[], "5");
    PropNested(AsWritten, c1);
    PropTwo(AsWritten, map[], SetX("5"), Nested());
    PropFoo(AsWritten, [SetX("5"), Nested()]);
  }

  /** Running `x = 1;` from a state where `b` holds, inside both scopes. */
  lemma InnerThenBranch(mid: Env, env': Env)
    requires mid == map["b" := BoolVal(true), "x" := IntVal(5)] && env' == map["b" := BoolVal(true), "x" := IntVal(1)]
    ensures Exec(Nested(), mid, env', 0)
  {
    LiteralValues();
    assert Exec(SetX("1"), mid, env', 0);
    RunOne(SetX("1"), mid, env');
    assert Exec(Inner(), mid, env', 0);
    RunOne(Inner(), mid, env');
  }

  /** Running `x = 5;` and then both then-branches, which ends with `x` other than 5. */
  lemma BothThenBranches()
    ensures var env, env' := map["b" := BoolVal(true)], map["b" := BoolVal(true), "x" := IntVal(1)];
      ExecSeq([SetX("5"), Nested()], env, env', 0) &&
      EvalIn(env', IntegerLiteral("5")) != EvalIn(env', VarRef("x"))
  {
    var env, mid, env' := map["b" := BoolVal(true)], map["b" := BoolVal(true), "x" := IntVal(5)], map["b" := BoolVal(true), "x" := IntVal(1)];
    LiteralValues();
    assert Exec(SetX("5"), env, mid, 0);
    InnerThenBranch(mid, env');
    RunTwo(SetX("5"), Nested(), env, mid, env');
  }

  /** With the repaired rules the same method keeps reading `x`. */
  lemma NestedIfRepaired()
    ensures PropMethod(Repaired, Table(), Foo([SetX("5"), Nested()])).Success?
    ensures PropMethod(Repaired, Table(), Foo([SetX("5"), Nested()])).value.md.returnExprs == [VarRef("x")]
  {
    var c1 := map["x" := IntegerLiteral("5")];
    PropSetX(Repaired, map[], "5");
    PropNested(Repaired, c1);
    PropTwo(Repaired, map[], SetX("5"), Nested());
    assert c1 - {"x"} == map[];
    PropFoo(Repaired, [SetX("5"), Nested()]);
  }

  // ---- an unbraced `if` or `while` as a branch ----

  /** `if (b) x = 1; else if (b) x = 2; else x = 3;` */
  function ElseIf(): Stmt {
    IfStmt(VarRef("b"), SetX("1"), IfStmt(VarRef("b"), SetX("2"), SetX("3")))
  }

  /** As written, the inner `if` reports Java's null and the outer one throws on it. */
  lemma ElseIfThrows()
    ensures PropStmt(AsWritten, Table(), Some("foo"), map[], ElseIf()) == Failure(NullPointer)
  {
    XIsLocal();
  }

  lemma ElseIfRepaired()
    ensures PropStmt(Repaired, Table(), Some("foo"), map[], ElseIf()).Success?
  {
    XIsLocal();
  }
}
