/**
 * The pass that reports calls to methods that do not exist: a call is
 * checked against the enclosing method declaration, and an undeclared
 * method on a receiver that is neither imported nor the class's own
 * superclass is reported once, by name.
 */
module UndeclaredMethod {
  import opened Wrappers
  import opened Ast
  import opened TypeUtils

  /** The message for a call to `name`. */
  function UndeclaredMessage(name: string): string {
    "Method '" + name + "' does not exist."
  }

  /**
   * The reports one visit of `call` adds, inside the method declaration
   * `enclosing` (`None` when the call has no such ancestor, whose name the
   * code then dereferences).
   */
  function CallReports(t: SymbolTable, call: Expr, enclosing: Option<MethodDecl>): (r: Result<seq<Report>, JavaError>)
    requires call.MethodCall?
    ensures enclosing.None? ==> r == Failure(NullPointer)
    ensures r.Success? ==> |r.value| <= 1
    ensures r.Success? ==> (|r.value| == 1 <==> MethodExists(t, call.caller, call.name, Some(enclosing.value.name)) == Success(false))
    ensures r.Success? && |r.value| == 1 ==> r.value[0] == Report(ExprSite(call), UndeclaredMessage(call.name))
    ensures r.Failure? && enclosing.Some? ==> MethodExists(t, call.caller, call.name, Some(enclosing.value.name)).Failure?
  {
    if enclosing.None? then Failure(NullPointer)
    else
      var exists_ :- MethodExists(t, call.caller, call.name, Some(enclosing.value.name));
      if exists_ then Success([]) else Success([Report(ExprSite(call), UndeclaredMessage(call.name))])
  }

  /** A call on `this` to a method the class declares is never reported, whatever the class extends or imports. */
  lemma DeclaredCallOnThisAccepted(t: SymbolTable, name: string, args: seq<Expr>, m: MethodDecl)
    requires t.className !in ShortNames(t.imports) && name in t.methods
    ensures CallReports(t, MethodCall(This, name, args), Some(m)) == Success([])
  {
    MethodExistsOnThis(t, name, Some(m.name));
  }

  /** Without a superclass, a call on `this` to an undeclared method is reported. */
  lemma UndeclaredCallOnThisReported(t: SymbolTable, name: string, args: seq<Expr>, m: MethodDecl)
    requires t.className !in ShortNames(t.imports) && name !in t.methods && t.superName.None?
    ensures CallReports(t, MethodCall(This, name, args), Some(m)) == Success([Report(ExprSite(MethodCall(This, name, args)), UndeclaredMessage(name))])
  {
    MethodExistsOnThis(t, name, Some(m.name));
  }

  /** The pass: the symbol table it reads and the reports it has added. */
  class UndeclaredMethodPass {
    const table: SymbolTable
    var reports: seq<Report>

    constructor(table: SymbolTable)
      ensures this.table == table && reports == []
    {
      this.table := table;
      reports := [];
    }

    /** `visitMethodCall`: only the reports change, by at most one entry; an exception leaves them as they were. */
    method VisitMethodCall(call: Expr, enclosing: Option<MethodDecl>) returns (err: Option<JavaError>)
      requires call.MethodCall?
      modifies this
      ensures CallReports(table, call, enclosing).Success? ==>
        err.None? && reports == old(reports) + CallReports(table, call, enclosing).value
      ensures CallReports(table, call, enclosing).Failure? ==>
        err == Some(CallReports(table, call, enclosing).error) && reports == old(reports)
    {
      if enclosing.None? {
        return Some(NullPointer);
      }
      var found := MethodExists(table, call.caller, call.name, Some(enclosing.value.name));
      if found.Failure? {
        return Some(found.error);
      }
      if !found.value {
        reports := reports + [Report(ExprSite(call), UndeclaredMessage(call.name))];
      }
      err := None;
    }
  }
}
