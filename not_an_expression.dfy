/**
 * The pass that rejects expression statements that are not calls. A
 * statement whose expression is a method call is accepted; a parenthesised
 * expression is checked again one level down, positioned at the
 * parenthesis; anything else gets one "Not a statement" report.
 */
module NotAnExpression {
  import opened Ast
  import opened TypeUtils

  const NotStatementMessage := "Not a statement"

  /** The reports for a node at `site` whose only child is `child`. */
  function ChildReports(site: Site, child: Expr): (r: seq<Report>)
    ensures |r| <= 1
    ensures |r| == 1 ==> r[0].message == NotStatementMessage
    decreases child
  {
    if child.MethodCall? then []
    else if child.Paren? then ChildReports(ExprSite(child), child.inner)
    else [Report(site, NotStatementMessage)]
  }

  /** `visitExprStmt` on `s`: at most one report. */
  function StmtReports(s: Stmt): (r: seq<Report>)
    requires s.ExprStmt?
    ensures |r| <= 1
  {
    ChildReports(StmtSite(s), s.expr)
  }

  /**
   * Under `k` parentheses, an expression that is not itself parenthesised is
   * accepted exactly when it is a call; when it is rejected, the report sits
   * at the innermost parenthesis, or at the statement when there is none.
   */
  lemma {:induction false} UnderParens(site: Site, k: nat, e: Expr)
    requires !e.Paren?
    ensures ChildReports(site, Parens(k, e)) == [] <==> e.MethodCall?
    ensures !e.MethodCall? ==> ChildReports(site, Parens(k, e)) == [Report(if k == 0 then site else ExprSite(Parens(1, e)), NotStatementMessage)]
    decreases k
  {
    if k > 1 {
      UnderParens(ExprSite(Parens(k, e)), k - 1, e);
    }
  }

  /** A call statement wrapped in any number of parentheses is accepted. */
  lemma CallUnderParensAccepted(k: nat, caller: Expr, name: string, args: seq<Expr>)
    ensures StmtReports(ExprStmt(Parens(k, MethodCall(caller, name, args)))) == []
  {
    UnderParens(StmtSite(ExprStmt(Parens(k, MethodCall(caller, name, args)))), k, MethodCall(caller, name, args));
  }

  /** The pass: the reports it has added. */
  class NotAnExpressionPass {
    var reports: seq<Report>

    constructor()
      ensures reports == []
    {
      reports := [];
    }

    /** `visitExprStmt`: the statement's reports are appended and nothing else changes. */
    method VisitExprStmt(s: Stmt)
      requires s.ExprStmt?
      modifies this
      ensures reports == old(reports) + StmtReports(s)
    {
      reports := reports + StmtReports(s);
    }
  }
}
