/**
 * Properties of the expression lowering: counters only grow, every
 * temporary a node introduces is newer than any taken before it, atoms need
 * no computation, parentheses are transparent, and the layouts of calls,
 * field reads, array initialisers and `&&`.
 */
module OllirExprFacts {
  import opened Wrappers
  import opened Ast
  import opened JavaInt
  import opened TypeUtils
  import opened OptUtils
  import opened OllirExprGen

  /** The temporary `TakeTemp` gives from `b` differs from every "tmp" name taken before `a`, when `b` was reached from `a`. */
  lemma TempIsNew(a: Counters, b: Counters, k: nat)
    requires Grows(a, b) && k < Count(a.temps, "tmp")
    ensures TakeTemp(b, "tmp").0 != "tmp" + NatToDigits(k)
  {
    LaterNameDiffers("tmp", k, Count(b.temps, "tmp"));
  }

  /** Literals and `this` need no computation and take no name. */
  lemma AtomsTakeNothing(x: Ctx, e: Expr, p: Parent, direct: bool, c: Counters)
    requires e.IntegerLiteral? || e.BooleanLiteral? || e.This?
    ensures Visit(x, e, p, direct, c).Success?
    ensures Visit(x, e, p, direct, c).value.0.computation == "" && Visit(x, e, p, direct, c).value.1 == c
    ensures e.IntegerLiteral? ==> Visit(x, e, p, direct, c).value.0.code == e.value + ".i32"
    ensures e.BooleanLiteral? ==> Visit(x, e, p, direct, c).value.0.code == (if e.value == "true" then "1.bool" else "0.bool")
    ensures e.This? ==> Visit(x, e, p, direct, c).value.0.code == "this." + x.table.className
  {
  }

  /**
   * A variable is read through `getfield` into a fresh temporary exactly when
   * it is a field and neither a local nor a parameter; otherwise its code is
   * the name and its type, with nothing to compute.
   */
  lemma VarRefRead(x: Ctx, n: string, p: Parent, direct: bool, c: Counters)
    requires Visit(x, VarRef(n), p, direct, c).Success?
    ensures var r := Visit(x, VarRef(n), p, direct, c).value;
      var ot := GetVarRefType(x.table, n, Some(x.current)).value;
      ot.Some?
      && (r.0.computation != "" <==> Lookup(x.table, x.current, ot, n) == Success(InFields))
      && (r.0.computation == "" ==> r.0.code == n + ToOllirType(ot.value) && r.1 == c)
      && (r.0.computation != "" ==> r.0.code == TakeTemp(c, "tmp").0 + ToOllirType(ot.value) && r.1 == TakeTemp(c, "tmp").1)
  {
  }

  /** One or more parentheses around a node visit it as an operand, in the direct mode it inherits. */
  lemma {:induction false} ParensTransparent(x: Ctx, k: nat, e: Expr, p: Parent, direct: bool, c: Counters)
    requires k >= 1
    ensures Visit(x, Parens(k, e), p, direct, c) == Visit(x, e, InExpr, Inherit(x, direct), c)
  {
    if k > 1 {
      ParensTransparent(x, k - 1, e, InExpr, Inherit(x, direct), c);
    }
  }

  /**
   * A call takes a result temporary exactly when its parent is not an
   * expression statement; its value then is that temporary with the call's
   * type, and otherwise the call has no code.
   */
  lemma CallTemp(x: Ctx, e: Expr, p: Parent, d: bool, c: Counters)
    requires e.MethodCall? && CallNode(x, e, p, d, c).Success?
    ensures var c1 := Visit(x, e.caller, InExpr, d, c).value.1;
      var c2 := VisitArgs(x, e.args, d, c1).value.1;
      var r := CallNode(x, e, p, d, c).value;
      (r.0.code == "" <==> p == InExprStmt)
      && (p == InExprStmt ==> r.1 == c2)
      && (p != InExprStmt ==> r.0.code == TakeTemp(c2, "tmp").0 + CallType(x, e, p).value && r.1 == TakeTemp(c2, "tmp").1)
  {
  }

  /** `invokestatic` on the caller's name exactly when the caller is neither `this` nor a local, parameter or field; else `invokevirtual` on its code. */
  lemma InvocationKind(x: Ctx, caller: Expr, code: string)
    requires Invocation(x, caller, code).Success?
    ensures var ot := GetExprType(x.table, caller, Some(x.current));
      var isStatic := !caller.This? && ot.Success? && NameAttr(caller).Success?
        && Lookup(x.table, x.current, ot.value, NameAttr(caller).value) == Success(Nowhere);
      (isStatic ==> Invocation(x, caller, code).value == "invokestatic(" + NameAttr(caller).value)
      && (!isStatic ==> Invocation(x, caller, code).value == "invokevirtual(" + code)
  {
  }

  /** The stores of an initialiser's elements `codes`, at indices from `i`, in order. */
  function Stores(temp: string, i: nat, codes: seq<string>): string
    decreases |codes|
  {
    if |codes| == 0 then "" else ElementStore(temp, i, codes[0]) + Stores(temp, i + 1, codes[1..])
  }

  function LiteralCode(e: Expr): string
    requires IsLiteral(e)
  {
    if e.IntegerLiteral? then e.value + ".i32" else if e.value == "true" then "1.bool" else "0.bool"
  }

  function LiteralCodes(es: seq<Expr>): (r: seq<string>)
    requires forall i :: 0 <= i < |es| ==> IsLiteral(es[i])
    ensures |r| == |es| && forall i :: 0 <= i < |es| ==> r[i] == LiteralCode(es[i])
  {
    seq(|es|, i requires 0 <= i < |es| => LiteralCode(es[i]))
  }

  /** An initialiser of literals stores element `i` at index `i`, for every `i` in order, and takes no other name. */
  lemma {:induction false} LiteralElemsInOrder(x: Ctx, elems: seq<Expr>, temp: string, i: nat, d: bool, c: Counters)
    requires forall j :: 0 <= j < |elems| ==> IsLiteral(elems[j])
    ensures VisitElems(x, elems, temp, i, d, c) == Success((Stores(temp, i, LiteralCodes(elems)), c))
    decreases elems
  {
    if |elems| > 0 {
      AtomsTakeNothing(x, elems[0], InExpr, d, c);
      LiteralElemsInOrder(x, elems[1..], temp, i + 1, d, c);
      var codes := LiteralCodes(elems);
      assert codes[1..] == LiteralCodes(elems[1..]);
      assert Visit(x, elems[0], InExpr, d, c).value.0 == ExprResult(codes[0], "");
      assert Stores(temp, i, codes) == ElementStore(temp, i, codes[0]) + Stores(temp, i + 1, codes[1..]);
      assert "" + ElementStore(temp, i, codes[0]) == ElementStore(temp, i, codes[0]);
    }
  }

  /** `{1, 2}` and the like: one allocation of the right length into a fresh temporary, then the stores in order. */
  lemma LiteralArrayInit(x: Ctx, elems: seq<Expr>, p: Parent, direct: bool, c: Counters)
    requires forall j :: 0 <= j < |elems| ==> IsLiteral(elems[j])
    ensures var (tmp, c1) := TakeTemp(c, "tmp");
      Visit(x, ArrayInit(elems), p, direct, c) == Success((ExprResult(tmp + ".array.i32",
        tmp + ".array.i32 :=.array.i32 new(array, " + NatToDigits(|elems|) + ".i32).array.i32;\n"
        + Stores(tmp, 0, LiteralCodes(elems))), c1))
  {
    LiteralElemsInOrder(x, elems, TakeTemp(c, "tmp").0, 0, Inherit(x, direct), TakeTemp(c, "tmp").1);
  }

  /**
   * `l && r`: the left operand's computation, a jump to the then label on
   * true, the false result and a jump to the end, then the then label
   * followed by the right operand's computation, so the right operand is
   * evaluated on the true path only. Labels come from their own counters.
   */
  lemma ShortCircuitLayout(x: Ctx, l: Expr, r: Expr, direct: bool, c: Counters)
    requires BinaryNode(x, BinaryExpr("&&", l, r), direct, c).Success?
    ensures var d := Inherit(x, direct);
      var rl := Visit(x, l, InExpr, d, c).value;
      var rr := Visit(x, r, InExpr, d, rl.1).value;
      var thenL := "then" + NatToDigits(Count(rr.1.thens, "then"));
      var endL := "endif" + NatToDigits(Count(rr.1.ends, "endif"));
      var code := "andTmp" + NatToDigits(Count(rr.1.ands, "andTmp")) + ".bool";
      var res := BinaryNode(x, BinaryExpr("&&", l, r), direct, c).value;
      res.0.code == code
      && res.0.computation == rl.0.computation + "if (" + rl.0.code + ") goto " + thenL + ";\n"
        + code + " :=.bool 0.bool;\n" + "goto " + endL + ";\n"
        + thenL + ":\n" + rr.0.computation + code + " :=.bool " + rr.0.code + ";\n" + endL + ":\n"
      && res.1.temps == rr.1.temps
  {
  }
}
