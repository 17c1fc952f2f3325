/**
 * The pass that reports `this` inside a static method. A method declaration
 * records whether that method is static; every `this` visited afterwards is
 * reported when the flag is set. The traversal order is the framework's and
 * is given here as the sequence of visits it makes.
 */
module ThisInStaticMethod {
  import opened Ast
  import opened JavaInt

  const ThisMessage := "Cannot use this reference in a static method"

  function ThisReport(): Report { Report(ExprSite(This), ThisMessage) }

  /** A visit the framework makes to this pass: a method declaration, or a `this` node. */
  datatype Visit = MethodVisit(m: MethodDecl) | ThisVisit

  /** The flag and the reports after `vs`, starting from flag `s0` and no reports. */
  function Traced(vs: seq<Visit>, s0: bool): (r: (bool, seq<Report>))
    ensures forall i :: 0 <= i < |r.1| ==> r.1[i] == ThisReport()
    ensures |r.1| <= |vs|
  {
    if |vs| == 0 then (s0, [])
    else
      var prev := Traced(vs[..|vs| - 1], s0);
      match vs[|vs| - 1]
      case MethodVisit(m) => (m.isStatic, prev.1)
      case ThisVisit => (prev.0, prev.1 + (if prev.0 then [ThisReport()] else []))
  }

  /** `k` copies of `x`. */
  function Repeat<T>(k: nat, x: T): (r: seq<T>)
    ensures |r| == k && forall i :: 0 <= i < k ==> r[i] == x
  {
    if k == 0 then [] else Repeat(k - 1, x) + [x]
  }

  /** The visits of one method with `k` `this` nodes: the declaration first, then its body. */
  function MethodVisits(m: MethodDecl, k: nat): seq<Visit> {
    [MethodVisit(m)] + Repeat(k, ThisVisit)
  }

  /** The visits of a class whose `j`-th method holds `ks[j]` `this` nodes. */
  function ClassVisits(ms: seq<MethodDecl>, ks: seq<nat>): seq<Visit>
    requires |ms| == |ks|
  {
    if |ms| == 0 then [] else ClassVisits(ms[..|ms| - 1], ks[..|ks| - 1]) + MethodVisits(ms[|ms| - 1], ks[|ks| - 1])
  }

  /** What the pass should report for such a class: one report per `this` of each static method. */
  function StaticThisReports(ms: seq<MethodDecl>, ks: seq<nat>): seq<Report>
    requires |ms| == |ks|
  {
    if |ms| == 0 then []
    else
      var own := if ms[|ms| - 1].isStatic then Repeat(ks[|ks| - 1], ThisReport()) else [];
      StaticThisReports(ms[..|ms| - 1], ks[..|ks| - 1]) + own
  }

  /** Visits run one after another: the second batch starts from the flag the first left. */
  lemma {:induction false} TracedAppend(a: seq<Visit>, b: seq<Visit>, s0: bool)
    ensures Traced(a + b, s0).0 == Traced(b, Traced(a, s0).0).0
    ensures Traced(a + b, s0).1 == Traced(a, s0).1 + Traced(b, Traced(a, s0).0).1
    decreases |b|
  {
    if |b| == 0 {
      assert a + b == a;
    } else {
      var b' := b[..|b| - 1];
      assert (a + b)[..|a + b| - 1] == a + b';
      assert (a + b)[|a + b| - 1] == b[|b| - 1];
      TracedAppend(a, b', s0);
    }
  }

  /** `k` `this` visits under flag `s` keep the flag and give `k` reports exactly when it is set. */
  lemma {:induction false} TracedThese(k: nat, s: bool)
    ensures Traced(Repeat(k, ThisVisit), s).0 == s
    ensures Traced(Repeat(k, ThisVisit), s).1 == if s then Repeat(k, ThisReport()) else []
  {
    if k > 0 {
      assert Repeat(k, ThisVisit)[..k - 1] == Repeat(k - 1, ThisVisit);
      TracedThese(k - 1, s);
    }
  }

  /** One method: its declaration sets the flag, whatever it was, and its `this` nodes follow it. */
  lemma TracedMethod(m: MethodDecl, k: nat, s0: bool)
    ensures Traced(MethodVisits(m, k), s0).0 == m.isStatic
    ensures Traced(MethodVisits(m, k), s0).1 == if m.isStatic then Repeat(k, ThisReport()) else []
  {
    assert Traced([MethodVisit(m)], s0).0 == m.isStatic && Traced([MethodVisit(m)], s0).1 == [] by {
      assert [MethodVisit(m)][..0] == [];
    }
    TracedAppend([MethodVisit(m)], Repeat(k, ThisVisit), s0);
    TracedThese(k, m.isStatic);
  }

  /**
   * Over a whole class, the pass reports exactly the `this` nodes of static
   * methods, one report each, in order, whatever the flag started as.
   */
  lemma {:induction false} ClassReports(ms: seq<MethodDecl>, ks: seq<nat>, s0: bool)
    requires |ms| == |ks|
    ensures Traced(ClassVisits(ms, ks), s0).1 == StaticThisReports(ms, ks)
    ensures |ms| > 0 ==> Traced(ClassVisits(ms, ks), s0).0 == ms[|ms| - 1].isStatic
  {
    if |ms| > 0 {
      var n := |ms| - 1;
      ClassReports(ms[..n], ks[..n], s0);
      TracedAppend(ClassVisits(ms[..n], ks[..n]), MethodVisits(ms[n], ks[n]), s0);
      TracedMethod(ms[n], ks[n], Traced(ClassVisits(ms[..n], ks[..n]), s0).0);
    }
  }

  /** A class without static methods gets no report, however often it uses `this`. */
  lemma {:induction false} InstanceMethodsAccepted(ms: seq<MethodDecl>, ks: seq<nat>, s0: bool)
    requires |ms| == |ks| && forall j :: 0 <= j < |ms| ==> !ms[j].isStatic
    ensures Traced(ClassVisits(ms, ks), s0).1 == []
  {
    ClassReports(ms, ks, s0);
    NoStaticNoReports(ms, ks);
  }

  lemma {:induction false} NoStaticNoReports(ms: seq<MethodDecl>, ks: seq<nat>)
    requires |ms| == |ks| && forall j :: 0 <= j < |ms| ==> !ms[j].isStatic
    ensures StaticThisReports(ms, ks) == []
  {
    if |ms| > 0 {
      NoStaticNoReports(ms[..|ms| - 1], ks[..|ks| - 1]);
    }
  }

  /** The pass: the flag of the method last visited and the reports added. */
  class ThisInStaticPass {
    var isStatic: bool
    var reports: seq<Report>

    constructor()
      ensures !isStatic && reports == []
    {
      isStatic := false;
      reports := [];
    }

    /** `visitMethodDecl`: the flag becomes the method's `isStatic` attribute, read back as a boolean. */
    method VisitMethodDecl(m: MethodDecl)
      modifies this
      ensures isStatic == m.isStatic && reports == old(reports)
    {
      ParseBooleanToString(m.isStatic);
      isStatic := ParseBoolean(BoolToString(m.isStatic));
    }

    /** `visitThis`: one fixed report when the flag is set, none otherwise. */
    method VisitThis()
      modifies this
      ensures isStatic == old(isStatic)
      ensures reports == old(reports) + (if isStatic then [ThisReport()] else [])
    {
      if isStatic {
        reports := reports + [ThisReport()];
      }
    }

    /** The framework's visits in order: the pass ends where `Traced` says. */
    method Run(vs: seq<Visit>)
      modifies this
      ensures isStatic == Traced(vs, old(isStatic)).0
      ensures reports == old(reports) + Traced(vs, old(isStatic)).1
    {
      ghost var s0 := isStatic;
      ghost var r0 := reports;
      var i := 0;
      assert vs[..0] == [];
      while i < |vs|
        invariant 0 <= i <= |vs|
        invariant isStatic == Traced(vs[..i], s0).0
        invariant reports == r0 + Traced(vs[..i], s0).1
      {
        assert vs[..i + 1][..i] == vs[..i];
        match vs[i] {
          case MethodVisit(m) => VisitMethodDecl(m);
          case ThisVisit => VisitThis();
        }
        i := i + 1;
      }
      assert vs[..i] == vs;
    }
  }
}
