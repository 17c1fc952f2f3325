/**
 * The pass that requires every element of an array initialiser to be an
 * int: each element that does not type as int adds one report, positioned
 * at the initialiser. The code types the elements as if inside a method
 * named "value" rather than the enclosing method; `AsWritten` keeps that and
 * `Repaired` types them in the enclosing method.
 */
module ArrayInitIsInt {
  import opened Wrappers
  import opened Ast
  import opened TypeUtils

  datatype Mode = AsWritten | Repaired

  const ElementMessage := "Array element must be type int"

  /** The method name the elements are typed in. */
  function ElementMethod(mode: Mode, enclosing: Option<string>): Option<string> {
    if mode.AsWritten? then Some("value") else enclosing
  }

  /** The element's type is int; Java's `null.equals` is the failure. */
  function IsIntElement(t: SymbolTable, m: Option<string>, e: Expr): Result<bool, JavaError> {
    var ty :- GetExprType(t, e, m);
    if ty.None? then Failure(NullPointer) else Success(SameType(ty.value, IntType()))
  }

  /**
   * The reports the loop has added after the elements `es`, and the
   * exception it stopped with; the reports added before an exception stay.
   */
  function InitScan(t: SymbolTable, m: Option<string>, node: Expr, es: seq<Expr>): (r: (seq<Report>, Option<JavaError>))
    ensures forall i :: 0 <= i < |r.0| ==> r.0[i] == Report(ExprSite(node), ElementMessage)
    ensures |r.0| <= |es|
  {
    if |es| == 0 then ([], None)
    else
      var prev := InitScan(t, m, node, es[..|es| - 1]);
      if prev.1.Some? then prev
      else
        match IsIntElement(t, m, es[|es| - 1])
        case Failure(e) => (prev.0, Some(e))
        case Success(isInt) => (prev.0 + (if isInt then [] else [Report(ExprSite(node), ElementMessage)]), None)
  }

  predicate Typed(t: SymbolTable, m: Option<string>, e: Expr) {
    GetExprType(t, e, m).Success? && GetExprType(t, e, m).value.Some?
  }

  /** Counted from the front: how many elements type as something other than int. */
  function NonIntCount(t: SymbolTable, m: Option<string>, es: seq<Expr>): nat
    requires forall i :: 0 <= i < |es| ==> Typed(t, m, es[i])
  {
    if |es| == 0 then 0
    else
      assert Typed(t, m, es[0]);
      (if SameType(GetExprType(t, es[0], m).value.value, IntType()) then 0 else 1) + NonIntCount(t, m, es[1..])
  }

  lemma {:induction false} NonIntCountSnoc(t: SymbolTable, m: Option<string>, es: seq<Expr>)
    requires |es| > 0 && forall i :: 0 <= i < |es| ==> Typed(t, m, es[i])
    ensures NonIntCount(t, m, es) == NonIntCount(t, m, es[..|es| - 1])
      + (if SameType(GetExprType(t, es[|es| - 1], m).value.value, IntType()) then 0 else 1)
  {
    if |es| > 1 {
      assert es[1..][..|es[1..]| - 1] == es[..|es| - 1][1..];
      NonIntCountSnoc(t, m, es[1..]);
    }
  }

  /** When every element has a type, the pass stops with no exception and reports exactly the non-int ones. */
  lemma {:induction false} OneReportPerNonInt(t: SymbolTable, m: Option<string>, node: Expr, es: seq<Expr>)
    requires forall i :: 0 <= i < |es| ==> Typed(t, m, es[i])
    ensures InitScan(t, m, node, es).1.None?
    ensures |InitScan(t, m, node, es).0| == NonIntCount(t, m, es)
  {
    if |es| > 0 {
      OneReportPerNonInt(t, m, node, es[..|es| - 1]);
      NonIntCountSnoc(t, m, es);
    }
  }

  /** An initialiser all of whose elements are ints gets no report. */
  lemma AllIntAccepted(t: SymbolTable, m: Option<string>, node: Expr, es: seq<Expr>)
    requires forall i :: 0 <= i < |es| ==> Typed(t, m, es[i]) && SameType(GetExprType(t, es[i], m).value.value, IntType())
    ensures InitScan(t, m, node, es).0 == [] && InitScan(t, m, node, es).1.None?
  {
    OneReportPerNonInt(t, m, node, es);
    AllIntCountZero(t, m, es);
  }

  lemma {:induction false} AllIntCountZero(t: SymbolTable, m: Option<string>, es: seq<Expr>)
    requires forall i :: 0 <= i < |es| ==> Typed(t, m, es[i]) && SameType(GetExprType(t, es[i], m).value.value, IntType())
    ensures NonIntCount(t, m, es) == 0
  {
    if |es| > 0 {
      AllIntCountZero(t, m, es[1..]);
    }
  }

  /**
   * As written, a variable element is looked up among the locals of a
   * method named "value"; a class without such a method has no entry, and
   * the lookup dereferences null.
   */
  lemma AsWrittenVariableElementFails(t: SymbolTable, x: string, node: Expr)
    requires "value" !in t.locals
    ensures InitScan(t, ElementMethod(AsWritten, None), node, [VarRef(x)]).1 == Some(NullPointer)
  {
    assert [VarRef(x)][..0] == [];
  }

  /** Repaired, an int local of the enclosing method is accepted. */
  lemma RepairedLocalElementAccepted(t: SymbolTable, enclosing: string, x: string, i: nat, node: Expr)
    requires enclosing in t.locals && i < |t.locals[enclosing]| && t.locals[enclosing][i].name == x
    requires forall j :: 0 <= j < i ==> t.locals[enclosing][j].name != x
    requires SameType(t.locals[enclosing][i].typ, IntType())
    ensures InitScan(t, ElementMethod(Repaired, Some(enclosing)), node, [VarRef(x)]).0 == []
    ensures InitScan(t, ElementMethod(Repaired, Some(enclosing)), node, [VarRef(x)]).1.None?
  {
    LocalShadows(t, x, enclosing, i);
    AllIntAccepted(t, Some(enclosing), node, [VarRef(x)]);
  }

  /** The pass: how it types elements, the symbol table and the reports added. */
  class ArrayInitPass {
    const mode: Mode
    const table: SymbolTable
    var reports: seq<Report>

    constructor(mode: Mode, table: SymbolTable)
      ensures this.mode == mode && this.table == table && reports == []
    {
      this.mode := mode;
      this.table := table;
      reports := [];
    }

    /** `visitArrayInit`: the loop over the children, appending one report per non-int element. */
    method VisitArrayInit(node: Expr, enclosing: Option<string>) returns (err: Option<JavaError>)
      requires node.ArrayInit?
      modifies this
      ensures reports == old(reports) + InitScan(table, ElementMethod(mode, enclosing), node, node.elems).0
      ensures err == InitScan(table, ElementMethod(mode, enclosing), node, node.elems).1
    {
      var m := ElementMethod(mode, enclosing);
      var es := node.elems;
      ghost var r0 := reports;
      var i := 0;
      assert es[..0] == [];
      while i < |es|
        invariant 0 <= i <= |es|
        invariant reports == r0 + InitScan(table, m, node, es[..i]).0
        invariant InitScan(table, m, node, es[..i]).1.None?
      {
        assert es[..i + 1][..i] == es[..i];
        var ok := IsIntElement(table, m, es[i]);
        if ok.Failure? {
          assert es[..i + 1][i] == es[i];
          InitScanStops(table, m, node, es, i + 1);
          return Some(ok.error);
        }
        if !ok.value {
          reports := reports + [Report(ExprSite(node), ElementMessage)];
        }
        i := i + 1;
      }
      assert es[..i] == es;
      err := None;
    }
  }

  /** Once the loop has stopped with an exception, later elements change nothing. */
  lemma {:induction false} InitScanStops(t: SymbolTable, m: Option<string>, node: Expr, es: seq<Expr>, i: nat)
    requires i <= |es| && InitScan(t, m, node, es[..i]).1.Some?
    ensures InitScan(t, m, node, es).0 == InitScan(t, m, node, es[..i]).0
    ensures InitScan(t, m, node, es).1 == InitScan(t, m, node, es[..i]).1
    decreases |es| - i
  {
    if i < |es| {
      assert es[..i + 1][..i] == es[..i];
      InitScanStops(t, m, node, es, i + 1);
    } else {
      assert es[..i] == es;
    }
  }
}
