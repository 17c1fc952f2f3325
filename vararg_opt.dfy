/**
 * Vararg packing: before OLLIR generation, every call to a method of the
 * class whose last parameter is a vararg gets its trailing arguments moved,
 * in order, into one new array initialiser appended as its last argument.
 *
 * The pass visits every call of the tree in pre-order, from a list taken
 * before any rewrite; packing creates no call, so that list is exactly the
 * set of calls of the rewritten tree. Each call is decided on its own,
 * original, children, so the tree rewrite below decides a call first and
 * then rewrites its caller and its arguments, in that order.
 *
 * `mode` selects the code as written or a corrected decision (see `Mode`).
 */
module VarargOpt {
  import opened Wrappers
  import opened Ast
  import opened TypeUtils

  /**
   * `AsWritten`: a call on an object of this class to a method the table has
   * no parameter list for dereferences null, and only an array-initialiser
   * literal counts as an argument that is already an array. `Repaired`: such
   * a call is left alone, and any last argument whose type is an array counts.
   */
  datatype Mode = AsWritten | Repaired

  /** Whether the last argument is taken to be the packed array already. */
  function LastIsArray(mode: Mode, t: SymbolTable, m: string, last: Expr): Result<bool, JavaError> {
    if mode.AsWritten? then Success(last.ArrayInit?)
    else
      var lt :- GetExprType(t, last, Some(m));
      Success(last.ArrayInit? || (lt.Some? && lt.value.isArray))
  }

  /**
   * The decision of `visitMethodCall` for a call inside method `m`: `None`
   * leaves the call as it is, `Some(k)` moves the arguments from index `k`
   * on into a new trailing array initialiser; `k` is the index of the
   * vararg parameter.
   */
  function PackIndex(mode: Mode, t: SymbolTable, m: string, caller: Expr, name: string, args: seq<Expr>)
    : Result<Option<nat>, JavaError>
  {
    var ct :- GetExprType(t, caller, Some(m));
    if ct.None? then Failure(NullPointer)
    else if ct.value.name != t.className then Success(None)
    else if t.Params(name).None? then
      (if mode.AsWritten? then Failure(NullPointer) else Success(None))
    else
      var ps := t.Params(name).value;
      if |ps| == 0 || !ps[|ps| - 1].typ.isVararg then Success(None)
      else if |args| < |ps| then Success(Some(|ps| - 1))
      else
        var packed :- LastIsArray(mode, t, m, args[|args| - 1]);
        if packed then Success(None) else Success(Some(|ps| - 1))
  }

  /**
   * The argument list once the arguments from index `k` on are moved into a
   * trailing array initialiser. With fewer than `k` arguments nothing moves
   * and an empty initialiser is appended.
   */
  function Packed(args: seq<Expr>, k: nat): seq<Expr> {
    if k <= |args| then args[..k] + [ArrayInit(args[k..])] else args + [ArrayInit([])]
  }

  /** The arguments a packed list stands for: its last element spread out again. */
  function Unpacked(args: seq<Expr>): seq<Expr> {
    if |args| > 0 && args[|args| - 1].ArrayInit? then args[..|args| - 1] + args[|args| - 1].elems else args
  }

  /** One call as `visitMethodCall` leaves it, children not yet visited. */
  function PackCall(mode: Mode, t: SymbolTable, m: string, e: Expr): Result<Expr, JavaError>
    requires e.MethodCall?
  {
    var k :- PackIndex(mode, t, m, e.caller, e.name, e.args);
    if k.None? then Success(e) else Success(MethodCall(e.caller, e.name, Packed(e.args, k.value)))
  }

  /**
   * `visitMethodCall`: the decision, then the loop that removes each moved
   * argument from the call (it sits at index `k` each time, as the earlier
   * ones already left) and adds it to the new node, which is appended last.
   */
  method VisitMethodCall(mode: Mode, t: SymbolTable, m: string, call: Expr) returns (r: Result<Expr, JavaError>)
    requires call.MethodCall?
    ensures r == PackCall(mode, t, m, call)
  {
    var d := PackIndex(mode, t, m, call.caller, call.name, call.args);
    if d.Failure? {
      return Failure(d.error);
    }
    if d.value.None? {
      return Success(call);
    }
    var k := d.value.value;
    var args := call.args;
    var children := args;
    var arrayNode: seq<Expr> := [];
    var i := k;
    while i < |args|
      invariant k <= |args| ==> k <= i <= |args| && children == args[..k] + args[i..] && arrayNode == args[k..i]
      invariant k > |args| ==> i == k && children == args && arrayNode == []
      decreases |args| - i
    {
      assert children[k] == args[i];
      children := children[..k] + children[k + 1..];
      assert args[i + 1..] == args[i..][1..];
      arrayNode := arrayNode + [args[i]];
      i := i + 1;
    }
    if k <= |args| {
      assert args[i..] == [];
      assert children == args[..k];
      assert arrayNode == args[k..];
    }
    r := Success(MethodCall(call.caller, call.name, children + [ArrayInit(arrayNode)]));
  }

  // ---- the whole tree ----

  function VarargExpr(mode: Mode, t: SymbolTable, m: string, e: Expr): Result<Expr, JavaError>
    decreases e, 1
  {
    match e
    case MethodCall(caller, name, args) =>
      var k :- PackIndex(mode, t, m, caller, name, args);
      var c :- VarargExpr(mode, t, m, caller);
      var xs :- VarargExprs(mode, t, m, args);
      if k.None? then Success(MethodCall(c, name, xs)) else Success(MethodCall(c, name, Packed(xs, k.value)))
    case BinaryExpr(op, l, r) =>
      var l' :- VarargExpr(mode, t, m, l);
      var r' :- VarargExpr(mode, t, m, r);
      Success(BinaryExpr(op, l', r'))
    case Paren(inner) =>
      var i :- VarargExpr(mode, t, m, inner);
      Success(Paren(i))
    case Not(operand) =>
      var o :- VarargExpr(mode, t, m, operand);
      Success(Not(o))
    case NewArray(size) =>
      var s :- VarargExpr(mode, t, m, size);
      Success(NewArray(s))
    case ArrayInit(elems) =>
      var es :- VarargExprs(mode, t, m, elems);
      Success(ArrayInit(es))
    case ArrayAccess(a, i) =>
      var a' :- VarargExpr(mode, t, m, a);
      var i' :- VarargExpr(mode, t, m, i);
      Success(ArrayAccess(a', i'))
    case ArrayLength(a) =>
      var a' :- VarargExpr(mode, t, m, a);
      Success(ArrayLength(a'))
    case _ => Success(e)
  }

  function VarargExprs(mode: Mode, t: SymbolTable, m: string, es: seq<Expr>): Result<seq<Expr>, JavaError>
    decreases es, 0
  {
    if |es| == 0 then Success([])
    else
      var h :- VarargExpr(mode, t, m, es[0]);
      var rest :- VarargExprs(mode, t, m, es[1..]);
      Success([h] + rest)
  }

  function VarargStmt(mode: Mode, t: SymbolTable, m: string, s: Stmt): Result<Stmt, JavaError>
    decreases s, 1
  {
    match s
    case AssignStmt(target, rhs) =>
      var a :- VarargExpr(mode, t, m, target);
      var b :- VarargExpr(mode, t, m, rhs);
      Success(AssignStmt(a, b))
    case ArrayAssignStmt(name, index, value) =>
      var i :- VarargExpr(mode, t, m, index);
      var v :- VarargExpr(mode, t, m, value);
      Success(ArrayAssignStmt(name, i, v))
    case IfStmt(cond, thenBody, elseBody) =>
      var c :- VarargExpr(mode, t, m, cond);
      var a :- VarargStmt(mode, t, m, thenBody);
      var b :- VarargStmt(mode, t, m, elseBody);
      Success(IfStmt(c, a, b))
    case WhileStmt(cond, body) =>
      var c :- VarargExpr(mode, t, m, cond);
      var b :- VarargStmt(mode, t, m, body);
      Success(WhileStmt(c, b))
    case ExprStmt(expr) =>
      var x :- VarargExpr(mode, t, m, expr);
      Success(ExprStmt(x))
    case ScopeStmt(stmts) =>
      var ss :- VarargStmts(mode, t, m, stmts);
      Success(ScopeStmt(ss))
  }

  function VarargStmts(mode: Mode, t: SymbolTable, m: string, ss: seq<Stmt>): Result<seq<Stmt>, JavaError>
    decreases ss, 0
  {
    if |ss| == 0 then Success([])
    else
      var h :- VarargStmt(mode, t, m, ss[0]);
      var rest :- VarargStmts(mode, t, m, ss[1..]);
      Success([h] + rest)
  }

  /** Every call below a method is packed with that method as the current one. */
  function VarargMethod(mode: Mode, t: SymbolTable, md: MethodDecl): Result<MethodDecl, JavaError> {
    var ss :- VarargStmts(mode, t, md.name, md.stmts);
    var rs :- VarargExprs(mode, t, md.name, md.returnExprs);
    Success(md.(stmts := ss, returnExprs := rs))
  }

  function VarargMethods(mode: Mode, t: SymbolTable, ms: seq<MethodDecl>): Result<seq<MethodDecl>, JavaError> {
    if |ms| == 0 then Success([])
    else
      var h :- VarargMethod(mode, t, ms[0]);
      var rest :- VarargMethods(mode, t, ms[1..]);
      Success([h] + rest)
  }

  /** `VarargOpt.optimize`: only method bodies hold calls; the rest of the program is kept. */
  function VarargProgram(mode: Mode, t: SymbolTable, p: Program): Result<Program, JavaError> {
    var ms :- VarargMethods(mode, t, p.cls.methods);
    Success(p.(cls := p.cls.(methods := ms)))
  }
}
