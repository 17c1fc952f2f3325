/**
 * What vararg packing guarantees: the packed list spreads back to the
 * original arguments and matches the signature, a packed call is not packed
 * again, the pass creates no call and changes no expression's type, and the
 * corrected decision leaves inherited calls and array arguments alone.
 */
module VarargFacts {
  import opened Wrappers
  import opened Ast
  import opened TypeUtils
  import opened VarargOpt

  /** Moving the tail into one initialiser keeps the head in place and loses nothing. */
  lemma PackedRestores(args: seq<Expr>, k: nat)
    ensures k <= |args| ==> |Packed(args, k)| == k + 1 && Packed(args, k)[..k] == args[..k]
    ensures k <= |args| ==> Packed(args, k)[k] == ArrayInit(args[k..]) && Unpacked(Packed(args, k)) == args
    ensures k > |args| ==> Packed(args, k) == args + [ArrayInit([])] && Unpacked(Packed(args, k)) == args
  {
    var p := Packed(args, k);
    if k <= |args| {
      assert p[..|p| - 1] == args[..k];
      assert args[..k] + args[k..] == args;
    } else {
      assert p[..|p| - 1] == args;
      assert args + [] == args;
    }
  }

  /** A call with exactly the fixed arguments gains an empty initialiser. */
  lemma ExactFixedArityGetsEmptyArray(args: seq<Expr>)
    ensures Packed(args, |args|) == args + [ArrayInit([])]
  {
    assert args[..|args|] == args;
    assert args[|args|..] == [];
  }

  /** When a call is packed, `k` indexes the vararg parameter, which is the last one. */
  lemma PackCallShape(mode: Mode, t: SymbolTable, m: string, e: Expr, k: nat)
    requires e.MethodCall?
    requires PackIndex(mode, t, m, e.caller, e.name, e.args) == Success(Some(k))
    ensures t.Params(e.name).Some? && |t.Params(e.name).value| == k + 1
    ensures t.Params(e.name).value[k].typ.isVararg
    ensures GetExprType(t, e.caller, Some(m)).Success? && GetExprType(t, e.caller, Some(m)).value.Some?
    ensures GetExprType(t, e.caller, Some(m)).value.value.name == t.className
    ensures PackCall(mode, t, m, e) == Success(MethodCall(e.caller, e.name, Packed(e.args, k)))
  {
  }

  /** Calls on objects of other classes are never touched. */
  lemma OtherClassUntouched(mode: Mode, t: SymbolTable, m: string, e: Expr)
    requires e.MethodCall?
    requires GetExprType(t, e.caller, Some(m)).Success? && GetExprType(t, e.caller, Some(m)).value.Some?
    requires GetExprType(t, e.caller, Some(m)).value.value.name != t.className
    ensures PackCall(mode, t, m, e) == Success(e)
  {
  }

  /**
   * A call packed with all its arguments present is left alone by a second
   * decision: it now has one argument per parameter, the last an initialiser.
   */
  lemma PackedNotRepacked(mode: Mode, t: SymbolTable, m: string, caller: Expr, name: string, args: seq<Expr>, k: nat)
    requires PackIndex(mode, t, m, caller, name, args) == Success(Some(k))
    requires k <= |args|
    ensures PackIndex(mode, t, m, caller, name, Packed(args, k)) == Success(None)
  {
    PackedRestores(args, k);
    var p := Packed(args, k);
    assert p[|p| - 1] == ArrayInit(args[k..]);
    assert GetExprType(t, ArrayInit(args[k..]), Some(m)) == Success(Some(IntArrayType()));
  }

  /**
   * With two or more arguments missing the call is packed again by a second
   * decision: the pass is not idempotent on calls the type check rejects.
   */
  lemma TooFewArgumentsRepacked(mode: Mode, t: SymbolTable, m: string, caller: Expr, name: string, args: seq<Expr>, k: nat)
    requires PackIndex(mode, t, m, caller, name, args) == Success(Some(k))
    requires |args| < k
    ensures PackIndex(mode, t, m, caller, name, Packed(args, k)) == Success(Some(k))
    ensures |Packed(args, k)| == |args| + 1
  {
  }

  /** The corrected decision skips a call to a method the table does not list, instead of dereferencing null. */
  lemma RepairedSkipsUnknownMethod(t: SymbolTable, m: string, caller: Expr, name: string, args: seq<Expr>)
    requires GetExprType(t, caller, Some(m)).Success? && GetExprType(t, caller, Some(m)).value.Some?
    requires t.Params(name).None?
    ensures PackIndex(Repaired, t, m, caller, name, args) == Success(None)
    ensures GetExprType(t, caller, Some(m)).value.value.name == t.className ==>
      PackIndex(AsWritten, t, m, caller, name, args) == Failure(NullPointer)
  {
  }

  /** The corrected decision passes an argument that is already an array straight through. */
  lemma RepairedKeepsArrayArgument(t: SymbolTable, m: string, caller: Expr, name: string, args: seq<Expr>, ty: Type)
    requires GetExprType(t, caller, Some(m)).Success? && GetExprType(t, caller, Some(m)).value.Some?
    requires t.Params(name).Some? && |args| >= |t.Params(name).value|
    requires |args| > 0 && GetExprType(t, args[|args| - 1], Some(m)) == Success(Some(ty)) && ty.isArray
    ensures PackIndex(Repaired, t, m, caller, name, args) == Success(None)
  {
  }

  /**
   * The two decisions differ only on an unlisted method or on a last argument
   * that may have an array type without being an initialiser.
   */
  lemma ModesAgreeOnLiteralArrays(t: SymbolTable, m: string, caller: Expr, name: string, args: seq<Expr>)
    requires t.Params(name).Some?
    requires |args| > 0 ==> !args[|args| - 1].VarRef? && !args[|args| - 1].ArrayAccess? && !args[|args| - 1].MethodCall? && !args[|args| - 1].Paren? && !args[|args| - 1].NewArray?
    ensures PackIndex(AsWritten, t, m, caller, name, args) == PackIndex(Repaired, t, m, caller, name, args)
  {
  }

  // ---- calls are neither created nor lost ----

  function CallCount(e: Expr): nat
    decreases e, 1
  {
    match e
    case MethodCall(c, _, args) => 1 + CallCount(c) + CallCounts(args)
    case BinaryExpr(_, l, r) => CallCount(l) + CallCount(r)
    case Paren(i) => CallCount(i)
    case Not(o) => CallCount(o)
    case NewArray(s) => CallCount(s)
    case ArrayInit(es) => CallCounts(es)
    case ArrayAccess(a, i) => CallCount(a) + CallCount(i)
    case ArrayLength(a) => CallCount(a)
    case _ => 0
  }

  function CallCounts(es: seq<Expr>): nat
    decreases es, 0
  {
    if |es| == 0 then 0 else CallCount(es[0]) + CallCounts(es[1..])
  }

  lemma {:induction false} CallCountsAppend(a: seq<Expr>, b: seq<Expr>)
    ensures CallCounts(a + b) == CallCounts(a) + CallCounts(b)
    decreases |a|
  {
    if |a| == 0 {
      assert a + b == b;
    } else {
      assert (a + b)[1..] == a[1..] + b;
      CallCountsAppend(a[1..], b);
    }
  }

  lemma PackedKeepsCalls(args: seq<Expr>, k: nat)
    ensures CallCounts(Packed(args, k)) == CallCounts(args)
  {
    var tail := if k <= |args| then args[k..] else [];
    var head := if k <= |args| then args[..k] else args;
    assert Packed(args, k) == head + [ArrayInit(tail)];
    CallCountsAppend(head, [ArrayInit(tail)]);
    assert CallCounts([ArrayInit(tail)]) == CallCounts(tail) by {
      assert [ArrayInit(tail)][1..] == [];
    }
    if k <= |args| {
      assert head + tail == args;
      CallCountsAppend(head, tail);
    }
  }

  /**
   * Packing creates and drops no call, so the calls the pass listed before
   * rewriting are exactly the calls of the rewritten tree.
   */
  lemma {:induction false} VarargKeepsCalls(mode: Mode, t: SymbolTable, m: string, e: Expr)
    requires VarargExpr(mode, t, m, e).Success?
    ensures CallCount(VarargExpr(mode, t, m, e).value) == CallCount(e)
    decreases e, 1
  {
    match e
    case MethodCall(caller, name, args) =>
      VarargKeepsCalls(mode, t, m, caller);
      VarargKeepsCallsSeq(mode, t, m, args);
      var xs := VarargExprs(mode, t, m, args).value;
      var k := PackIndex(mode, t, m, caller, name, args).value;
      if k.Some? {
        PackedKeepsCalls(xs, k.value);
      }
    case BinaryExpr(_, l, r) =>
      VarargKeepsCalls(mode, t, m, l);
      VarargKeepsCalls(mode, t, m, r);
    case Paren(i) => VarargKeepsCalls(mode, t, m, i);
    case Not(o) => VarargKeepsCalls(mode, t, m, o);
    case NewArray(s) => VarargKeepsCalls(mode, t, m, s);
    case ArrayInit(es) => VarargKeepsCallsSeq(mode, t, m, es);
    case ArrayAccess(a, i) =>
      VarargKeepsCalls(mode, t, m, a);
      VarargKeepsCalls(mode, t, m, i);
    case ArrayLength(a) => VarargKeepsCalls(mode, t, m, a);
    case _ =>
  }

  lemma {:induction false} VarargKeepsCallsSeq(mode: Mode, t: SymbolTable, m: string, es: seq<Expr>)
    requires VarargExprs(mode, t, m, es).Success?
    ensures CallCounts(VarargExprs(mode, t, m, es).value) == CallCounts(es)
    decreases es, 0
  {
    if |es| > 0 {
      VarargKeepsCalls(mode, t, m, es[0]);
      VarargKeepsCallsSeq(mode, t, m, es[1..]);
      var r := VarargExprs(mode, t, m, es).value;
      assert r[1..] == VarargExprs(mode, t, m, es[1..]).value;
    }
  }

  /** The pass changes no expression's type, whatever method it is typed in. */
  lemma {:induction false} VarargKeepsType(mode: Mode, t: SymbolTable, m: string, e: Expr, mm: Option<string>)
    requires VarargExpr(mode, t, m, e).Success?
    ensures GetExprType(t, VarargExpr(mode, t, m, e).value, mm) == GetExprType(t, e, mm)
    decreases e
  {
    match e
    case Paren(i) => VarargKeepsType(mode, t, m, i, mm);
    case ArrayAccess(a, _) => VarargKeepsType(mode, t, m, a, mm);
    case _ =>
  }
}
