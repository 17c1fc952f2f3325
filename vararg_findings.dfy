/**
 * Two calls on which vararg packing as written goes wrong, and what the
 * corrected decision does with them.
 */
module VarargFindings {
  import opened Wrappers
  import opened Ast
  import opened TypeUtils
  import opened VarargOpt

  /** `class A extends B` (B imported) with one method `int f()` and no params or locals. */
  function InheritingTable(): SymbolTable {
    SymbolTable("A", ["f"], Some(map["f" := IntType()]), map["f" := []], map["f" := []], [], ["B"], Some("B"))
  }

  /** `this.g()` inside `f`, where `g` is inherited from B. */
  function InheritedCall(): Expr { MethodCall(This, "g", []) }

  /** The semantic passes accept the call: a method of a class that extends another may be inherited. */
  lemma InheritedCallAccepted()
    ensures MethodExists(InheritingTable(), This, "g", Some("f")) == Success(true)
  {
    var t := InheritingTable();
    assert GetExprType(t, This, Some("f")) == Success(Some(SingleObject("A")));
    assert IsImportedOrSuper(t, Some(SingleObject("A"))) == Success(true);
  }

  /** As written, the pass then looks up g's parameters, gets null and dereferences it. */
  lemma InheritedCallThrows()
    ensures VarargExpr(AsWritten, InheritingTable(), "f", InheritedCall()) == Failure(NullPointer)
  {
    assert GetExprType(InheritingTable(), This, Some("f")) == Success(Some(SingleObject("A")));
    assert InheritingTable().Params("g") == None;
  }

  /** The corrected pass leaves the call alone. */
  lemma InheritedCallRepaired()
    ensures VarargExpr(Repaired, InheritingTable(), "f", InheritedCall()) == Success(InheritedCall())
  {
    assert GetExprType(InheritingTable(), This, Some("f")) == Success(Some(SingleObject("A")));
    assert InheritingTable().Params("g") == None;
    assert VarargExprs(Repaired, InheritingTable(), "f", []) == Success([]);
  }

  /** `class A { int f() { int[] a; ... } int sum(int... xs) { ... } }`. */
  function VarargTable(): SymbolTable {
    SymbolTable(
      "A", ["f", "sum"], Some(map["f" := IntType(), "sum" := IntType()]),
      map["f" := [], "sum" := [Symbol(Type("int", true, true), "xs")]],
      map["f" := [Symbol(IntArrayType(), "a")], "sum" := []],
      [], [], None)
  }

  /** `this.sum(a)` inside `f`, passing the array variable `a` to the vararg. */
  function ArrayArgumentCall(): Expr { MethodCall(This, "sum", [VarRef("a")]) }

  lemma ArrayArgumentIsArray()
    ensures GetExprType(VarargTable(), VarRef("a"), Some("f")) == Success(Some(IntArrayType()))
  {
    assert LookupName([Symbol(IntArrayType(), "a")], "a") == Some(IntArrayType());
  }

  lemma ArrayArgumentDecision(mode: Mode)
    ensures PackIndex(mode, VarargTable(), "f", This, "sum", [VarRef("a")])
      == if mode.AsWritten? then Success(Some(0)) else Success(None)
  {
    ArrayArgumentIsArray();
    assert VarargTable().Params("sum") == Some([Symbol(Type("int", true, true), "xs")]);
  }

  lemma SingleVariableArgument(mode: Mode, t: SymbolTable, m: string, n: string)
    ensures VarargExprs(mode, t, m, [VarRef(n)]) == Success([VarRef(n)])
  {
    assert [VarRef(n)][1..] == [];
    assert VarargExprs(mode, t, m, []) == Success([]);
    assert VarargExpr(mode, t, m, VarRef(n)) == Success(VarRef(n));
    assert [VarRef(n)] + [] == [VarRef(n)];
  }

  /**
   * As written, the array variable becomes the one element of a new array
   * initialiser, whose elements must be int.
   */
  lemma ArrayArgumentWrapped()
    ensures VarargExpr(AsWritten, VarargTable(), "f", ArrayArgumentCall())
      == Success(MethodCall(This, "sum", [ArrayInit([VarRef("a")])]))
    ensures GetExprType(VarargTable(), VarRef("a"), Some("f")) != Success(Some(IntType()))
  {
    ArrayArgumentDecision(AsWritten);
    ArrayArgumentIsArray();
    SingleVariableArgument(AsWritten, VarargTable(), "f", "a");
    assert Packed([VarRef("a")], 0) == [ArrayInit([VarRef("a")])];
  }

  /** The corrected pass hands the array over unchanged. */
  lemma ArrayArgumentRepaired()
    ensures VarargExpr(Repaired, VarargTable(), "f", ArrayArgumentCall()) == Success(ArrayArgumentCall())
  {
    ArrayArgumentDecision(Repaired);
    SingleVariableArgument(Repaired, VarargTable(), "f", "a");
  }
}
