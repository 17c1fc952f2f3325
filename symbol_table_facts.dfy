/**
 * What the symbol table builder guarantees: the import paths it keeps are
 * the dotted package names with distinct short names; method names and
 * field names are kept once each, first occurrence first; the return-type
 * map is null exactly when some method other than main returns a vararg;
 * parameter and local lists hold no two equal symbols; and the vararg
 * rules report what they say they report.
 */
module SymbolTableFacts {
  import opened Wrappers
  import opened Ast
  import opened TypeUtils
  import opened SymbolTableBuilder
  import OllirGen
  import Dedup

  // ---- import paths ----

  predicate Plain(s: string) {
    forall i :: 0 <= i < |s| ==> s[i] != '[' && s[i] != ']' && s[i] != ' ' && s[i] != ','
  }

  lemma {:induction false} NormaliseAppend(a: string, b: string)
    ensures Normalise(a + b) == Normalise(a) + Normalise(b)
    decreases |b|
  {
    if |b| == 0 {
      assert a + b == a;
    } else {
      assert (a + b)[..|a + b| - 1] == a + b[..|b| - 1];
      NormaliseAppend(a, b[..|b| - 1]);
    }
  }

  lemma {:induction false} NormalisePlain(s: string)
    requires Plain(s)
    ensures Normalise(s) == s
    decreases |s|
  {
    if |s| > 0 {
      assert s[..|s| - 1] + [s[|s| - 1]] == s;
      NormalisePlain(s[..|s| - 1]);
    }
  }

  lemma {:induction false} NormaliseJoin(segments: seq<string>)
    requires forall i :: 0 <= i < |segments| ==> Plain(segments[i])
    ensures Normalise(OllirGen.Join(segments, ", ")) == OllirGen.Join(segments, ".")
    decreases |segments|
  {
    if |segments| == 1 {
      NormalisePlain(segments[0]);
    } else if |segments| > 1 {
      var pre := segments[..|segments| - 1];
      var last := segments[|segments| - 1];
      NormaliseJoin(pre);
      NormaliseAppend(OllirGen.Join(pre, ", ") + ", ", last);
      NormaliseAppend(OllirGen.Join(pre, ", "), ", ");
      assert Normalise(", ") == "." by {
        assert ", " == [','] + [' '];
        NormaliseAppend([','], [' ']);
        NormaliseChar(',');
        NormaliseChar(' ');
      }
      NormalisePlain(last);
    }
  }

  lemma NormaliseChar(c: char)
    ensures Normalise([c]) == if c == '[' || c == ']' || c == ' ' then "" else if c == ',' then "." else [c]
  {
    assert [c][..0] == "";
  }

  lemma NormaliseBracketed(j: string)
    ensures Normalise("[" + j + "]") == Normalise(j)
  {
    NormaliseAppend("[" + j, "]");
    NormaliseAppend("[", j);
    NormaliseChar('[');
    NormaliseChar(']');
    assert "[" == ['['] && "]" == [']'];
  }

  /**
   * Taking out brackets and spaces and turning commas into dots recovers the
   * dotted package name from the printed segment list, for segments that
   * hold none of those characters.
   */
  lemma ImportPathIsDotted(segments: seq<string>)
    requires forall i :: 0 <= i < |segments| ==> Plain(segments[i])
    ensures ImportPath(segments) == OllirGen.Join(segments, ".")
  {
    NormaliseBracketed(OllirGen.Join(segments, ", "));
    NormaliseJoin(segments);
  }

  // ---- imports ----

  /** No two kept imports share a short name. */
  lemma KeptImportsDistinct(imps: seq<seq<string>>)
    ensures forall i, j :: 0 <= i < j < |KeptImports(imps)| ==> ShortenImport(KeptImports(imps)[i]) != ShortenImport(KeptImports(imps)[j])
  {
    Dedup.KeptDistinct(ShortenImport, ImportPaths(imps), |imps|);
  }

  /** Every import is kept or reported. */
  lemma ImportsCounted(imps: seq<seq<string>>)
    ensures |KeptImports(imps)| + |ImportReports(imps)| == |imps|
  {
    Dedup.KeptOrDropped(ShortenImport, ImportPaths(imps), |imps|);
  }

  /** Either way, every import's short name is among the kept ones. */
  lemma ImportsCovered(imps: seq<seq<string>>)
    ensures forall k :: 0 <= k < |imps| ==> ShortenImport(ImportPath(imps[k])) in ShortNames(KeptImports(imps))
  {
    var paths := ImportPaths(imps);
    Dedup.KeptCovers(ShortenImport, paths, |imps|);
    ShortNamesAreKeys(KeptImports(imps));
    forall k | 0 <= k < |imps|
      ensures ShortenImport(ImportPath(imps[k])) in ShortNames(KeptImports(imps))
    {
      assert paths[k] == ImportPath(imps[k]);
    }
  }

  /** Each report is a duplicated-import report at one of the import declarations. */
  lemma ImportReportsAtImports(imps: seq<seq<string>>)
    ensures forall r :: r in ImportReports(imps) ==> r.message == DuplicatedImportMessage && exists k :: 0 <= k < |imps| && r.site == ImportSite(imps[k])
  {
    var dropped := Dedup.Dropped(ShortenImport, ImportPaths(imps), |imps|);
    forall r | r in ImportReports(imps)
      ensures r.message == DuplicatedImportMessage && exists k :: 0 <= k < |imps| && r.site == ImportSite(imps[k])
    {
      var j :| 0 <= j < |dropped| && ImportReports(imps)[j] == r;
      assert r.site == ImportSite(imps[dropped[j]]);
    }
  }

  // ---- methods ----

  /** The method list holds each declared name once, and nothing else. */
  lemma {:induction false} KeptMethodsAreNames(ms: seq<MethodDecl>)
    ensures forall i, j :: 0 <= i < j < |KeptMethods(ms)| ==> KeptMethods(ms)[i] != KeptMethods(ms)[j]
    ensures forall j :: 0 <= j < |ms| ==> ms[j].name in KeptMethods(ms)
    ensures forall n :: n in KeptMethods(ms) ==> exists j :: 0 <= j < |ms| && ms[j].name == n
    ensures |KeptMethods(ms)| + |MethodReports(ms)| == |ms|
  {
    if |ms| > 0 {
      var pre := ms[..|ms| - 1];
      KeptMethodsAreNames(pre);
      forall n | n in KeptMethods(ms)
        ensures exists j :: 0 <= j < |ms| && ms[j].name == n
      {
        if n in KeptMethods(pre) {
          var j :| 0 <= j < |pre| && pre[j].name == n;
          assert ms[j].name == n;
        } else {
          assert ms[|ms| - 1].name == n;
        }
      }
    }
  }

  // ---- return types ----

  /** The map is null exactly when some method other than main has a vararg return type, and then there is one report. */
  lemma {:induction false} ReturnMapNull(ms: seq<MethodDecl>)
    ensures ReturnMap(ms).None? <==> exists j :: 0 <= j < |ms| && ms[j].name != "main" && ms[j].retType.isVararg
    ensures |ReturnReports(ms)| == if ReturnMap(ms).None? then 1 else 0
  {
    if |ms| > 0 {
      var pre := ms[..|ms| - 1];
      ReturnMapNull(pre);
      if exists j :: 0 <= j < |pre| && pre[j].name != "main" && pre[j].retType.isVararg {
        var j :| 0 <= j < |pre| && pre[j].name != "main" && pre[j].retType.isVararg;
        assert ms[j] == pre[j];
      }
      if exists j :: 0 <= j < |ms| && ms[j].name != "main" && ms[j].retType.isVararg {
        var j :| 0 <= j < |ms| && ms[j].name != "main" && ms[j].retType.isVararg;
        if j < |pre| {
          assert pre[j] == ms[j];
        }
      }
    }
  }

  /**
   * When the map exists it has one key per declared name; main maps to
   * void and any other name to the return type of its last declaration.
   */
  lemma {:induction false} ReturnMapLastWins(ms: seq<MethodDecl>, j: nat)
    requires ReturnMap(ms).Some? && j < |ms|
    requires forall k :: j < k < |ms| ==> ms[k].name != ms[j].name
    ensures ms[j].name in ReturnMap(ms).value
    ensures ReturnMap(ms).value[ms[j].name] == if ms[j].name == "main" then VoidType() else ms[j].retType
  {
    var pre := ms[..|ms| - 1];
    if j < |ms| - 1 {
      assert ReturnMap(pre).Some?;
      forall k | j < k < |pre| ensures pre[k].name != pre[j].name {
        assert pre[k] == ms[k];
      }
      ReturnMapLastWins(pre, j);
      assert pre[j] == ms[j];
    }
  }

  /** The declared method names. */
  function Names(ms: seq<MethodDecl>): (r: set<string>)
    ensures forall j :: 0 <= j < |ms| ==> ms[j].name in r
    ensures forall n :: n in r ==> exists j :: 0 <= j < |ms| && ms[j].name == n
  {
    if |ms| == 0 then {}
    else
      var pre := ms[..|ms| - 1];
      var r := Names(pre) + {ms[|ms| - 1].name};
      assert forall j :: 0 <= j < |pre| ==> pre[j] == ms[j];
      r
  }

  /** When the map exists its keys are exactly the declared names. */
  lemma {:induction false} ReturnMapKeys(ms: seq<MethodDecl>)
    requires ReturnMap(ms).Some?
    ensures ReturnMap(ms).value.Keys == Names(ms)
  {
    if |ms| > 0 {
      ReturnMapKeys(ms[..|ms| - 1]);
    }
  }

  // ---- parameters ----

  /** Two symbols that a list's `contains` would confuse. */
  predicate SameSymbol(a: Symbol, b: Symbol) {
    a.name == b.name && SameType(a.typ, b.typ)
  }

  /** No two listed parameters are equal symbols. */
  lemma {:induction false} ParamListDistinct(ps: seq<VarDecl>, n: nat)
    requires n <= |ps|
    ensures forall i, j :: 0 <= i < j < |ParamListUpTo(ps, n)| ==> !SameSymbol(ParamListUpTo(ps, n)[i], ParamListUpTo(ps, n)[j])
  {
    if n > 0 {
      ParamListDistinct(ps, n - 1);
    }
  }

  /** The flag is set once some parameter was a vararg. */
  lemma {:induction false} VarargSeenAfter(ps: seq<VarDecl>, i: nat, n: nat)
    requires i < n <= |ps| && ps[i].typ.isVararg
    ensures VarargSeenUpTo(ps, n)
  {
    if i < n - 1 {
      VarargSeenAfter(ps, i, n - 1);
    }
  }

  /** Reports already made stay made. */
  lemma {:induction false} ParamReportKept(ps: seq<VarDecl>, k: nat, n: nat, x: Report)
    requires k <= n <= |ps| && x in ParamReportsUpTo(ps, k)
    ensures x in ParamReportsUpTo(ps, n)
  {
    if k < n {
      ParamReportKept(ps, k, n - 1, x);
    }
  }

  /**
   * Every parameter after a vararg is reported as misplaced, and one that is
   * itself a vararg also as a second vararg.
   */
  lemma AfterVarargReported(ps: seq<VarDecl>, i: nat, k: nat)
    requires i < k < |ps| && ps[i].typ.isVararg
    ensures Report(ParamSite(ps[k]), VarargNotLastMessage) in ParamReports(ps)
    ensures ps[k].typ.isVararg ==> Report(ParamSite(ps[k]), SecondVarargMessage) in ParamReports(ps)
  {
    VarargSeenAfter(ps, i, k);
    var order := OrderReports(VarargSeenUpTo(ps, k), ps[k]);
    var after := ParamReportsUpTo(ps, k + 1);
    assert after == ParamReportsUpTo(ps, k) + order + DuplicateReports(ParamListUpTo(ps, k), ps[k]);
    var misplaced := Report(ParamSite(ps[k]), VarargNotLastMessage);
    assert misplaced in order;
    assert misplaced in after;
    ParamReportKept(ps, k + 1, |ps|, misplaced);
    if ps[k].typ.isVararg {
      var second := Report(ParamSite(ps[k]), SecondVarargMessage);
      assert order[0] == second;
      assert second in after;
      ParamReportKept(ps, k + 1, |ps|, second);
    }
  }

  /** Without a vararg parameter the only reports are for duplicates. */
  lemma {:induction false} NoVarargOnlyDuplicates(ps: seq<VarDecl>, n: nat)
    requires n <= |ps| && forall i :: 0 <= i < |ps| ==> !ps[i].typ.isVararg
    ensures !VarargSeenUpTo(ps, n)
    ensures forall r :: r in ParamReportsUpTo(ps, n) ==> r.message == DuplicateParamMessage
  {
    if n > 0 {
      NoVarargOnlyDuplicates(ps, n - 1);
    }
  }

  // ---- locals ----

  lemma {:induction false} LocalListDistinct(vs: seq<VarDecl>)
    ensures forall i, j :: 0 <= i < j < |LocalList(vs)| ==> !SameSymbol(LocalList(vs)[i], LocalList(vs)[j])
  {
    if |vs| > 0 {
      LocalListDistinct(vs[..|vs| - 1]);
    }
  }

  lemma {:induction false} LocalReportsGrow(m: MethodDecl, vs: seq<VarDecl>, k: nat)
    requires k <= |vs|
    ensures LocalReports(m, vs[..k]) <= LocalReports(m, vs)
    decreases |vs| - k
  {
    if k < |vs| {
      assert vs[..k + 1][..k] == vs[..k];
      LocalReportsGrow(m, vs, k + 1);
    } else {
      assert vs[..k] == vs;
    }
  }

  /** A vararg local is reported, positioned at its method. */
  lemma VarargLocalReported(m: MethodDecl, vs: seq<VarDecl>, k: nat)
    requires k < |vs| && vs[k].typ.isVararg
    ensures Report(MethodSite(m), VarargLocalMessage) in LocalReports(m, vs)
  {
    assert vs[..k + 1][..k] == vs[..k];
    assert vs[..k + 1][k] == vs[k];
    var step := LocalStepReports(m, vs[..k], vs[k]);
    assert step[0] == Report(MethodSite(m), VarargLocalMessage);
    assert LocalReports(m, vs[..k + 1]) == LocalReports(m, vs[..k]) + step;
    LocalReportsGrow(m, vs, k + 1);
  }

  // ---- fields ----

  /** Field names are distinct, and every declared name is present. */
  lemma {:induction false} FieldNames(fs: seq<VarDecl>)
    ensures forall i, j :: 0 <= i < j < |FieldList(fs)| ==> FieldList(fs)[i].name != FieldList(fs)[j].name
    ensures forall j :: 0 <= j < |fs| ==> HasName(FieldList(fs), fs[j].name)
  {
    if |fs| > 0 {
      var pre := fs[..|fs| - 1];
      FieldNames(pre);
      forall j | 0 <= j < |fs| ensures HasName(FieldList(fs), fs[j].name) {
        if j < |pre| {
          assert fs[j] == pre[j];
          var k :| 0 <= k < |FieldList(pre)| && FieldList(pre)[k].name == pre[j].name;
          assert FieldList(fs)[k] == FieldList(pre)[k];
        } else if !HasName(FieldList(pre), fs[j].name) {
          assert FieldList(fs)[|FieldList(fs)| - 1].name == fs[j].name;
        }
      }
    }
  }

  /** The kept field of a name is its first declaration: it is what lookup finds. */
  lemma {:induction false} FirstFieldKept(fs: seq<VarDecl>, j: nat)
    requires j < |fs| && forall i :: 0 <= i < j ==> fs[i].name != fs[j].name
    ensures LookupName(FieldList(fs), fs[j].name) == Some(fs[j].typ)
  {
    var pre := fs[..|fs| - 1];
    if j == |fs| - 1 {
      assert !HasName(FieldList(pre), fs[j].name) by {
        if HasName(FieldList(pre), fs[j].name) {
          var k :| 0 <= k < |FieldList(pre)| && FieldList(pre)[k].name == fs[j].name;
          FieldNamesFrom(pre, k);
        }
      }
      LookupLast(FieldList(pre), Symbol(fs[j].typ, fs[j].name));
    } else {
      assert pre[j] == fs[j];
      FirstFieldKept(pre, j);
      if !HasName(FieldList(pre), fs[|fs| - 1].name) {
        LookupAppend(FieldList(pre), Symbol(fs[|fs| - 1].typ, fs[|fs| - 1].name), fs[j].name);
      }
    }
  }

  /** Every kept field's name was declared. */
  lemma {:induction false} FieldNamesFrom(fs: seq<VarDecl>, k: nat)
    requires k < |FieldList(fs)|
    ensures exists i :: 0 <= i < |fs| && fs[i].name == FieldList(fs)[k].name
  {
    var pre := fs[..|fs| - 1];
    if k < |FieldList(pre)| {
      FieldNamesFrom(pre, k);
      var i :| 0 <= i < |pre| && pre[i].name == FieldList(pre)[k].name;
      assert fs[i] == pre[i];
    } else {
      assert fs[|fs| - 1].name == FieldList(fs)[k].name;
    }
  }

  lemma {:induction false} LookupAppend(syms: seq<Symbol>, s: Symbol, n: string)
    requires HasName(syms, n)
    ensures LookupName(syms + [s], n) == LookupName(syms, n)
  {
    if syms[0].name != n {
      var i :| 0 <= i < |syms| && syms[i].name == n;
      assert syms[1..][i - 1].name == n;
      assert (syms + [s])[1..] == syms[1..] + [s];
      LookupAppend(syms[1..], s, n);
    }
  }

  lemma {:induction false} LookupLast(syms: seq<Symbol>, s: Symbol)
    requires !HasName(syms, s.name)
    ensures LookupName(syms + [s], s.name) == Some(s.typ)
  {
    if |syms| > 0 {
      assert syms[0].name != s.name;
      assert !HasName(syms[1..], s.name);
      assert (syms + [s])[1..] == syms[1..] + [s];
      LookupLast(syms[1..], s);
    }
  }

  /** A field whose name no earlier field has finds its name free in the list kept before it. */
  lemma FirstNameFree(fs: seq<VarDecl>, j: nat)
    requires j < |fs| && forall i :: 0 <= i < j ==> fs[i].name != fs[j].name
    ensures !HasName(FieldList(fs[..j]), fs[j].name)
  {
    var pre := fs[..j];
    if HasName(FieldList(pre), fs[j].name) {
      var k :| 0 <= k < |FieldList(pre)| && FieldList(pre)[k].name == fs[j].name;
      FieldNamesFrom(pre, k);
    }
  }

  /** A vararg field whose name is free is reported by its own turn of the loop. */
  lemma VarargFieldStep(pre: seq<VarDecl>, f: VarDecl)
    requires f.typ.isVararg && !HasName(FieldList(pre), f.name)
    ensures Report(FieldSite(f), VarargFieldMessage) in FieldReports(pre + [f])
  {
    assert (pre + [f])[..|pre|] == pre;
    assert FieldStepReports(FieldList(pre), f) == [Report(FieldSite(f), VarargFieldMessage)];
  }

  /** A vararg field is still added, and reported, when it is the first of its name. */
  lemma {:induction false} VarargFieldReported(fs: seq<VarDecl>, j: nat)
    requires j < |fs| && fs[j].typ.isVararg && forall i :: 0 <= i < j ==> fs[i].name != fs[j].name
    ensures Report(FieldSite(fs[j]), VarargFieldMessage) in FieldReports(fs)
  {
    var pre := fs[..|fs| - 1];
    if j < |fs| - 1 {
      assert pre[j] == fs[j];
      VarargFieldReported(pre, j);
    } else {
      FirstNameFree(fs, j);
      assert fs == pre + [fs[j]];
      VarargFieldStep(pre, fs[j]);
    }
  }

  /** The field loop only appends: a report made within the first `k` fields is still there at the end. */
  lemma {:induction false} FieldReportKept(fs: seq<VarDecl>, k: nat, x: Report)
    requires k <= |fs| && x in FieldReports(fs[..k])
    ensures x in FieldReports(fs)
  {
    if k < |fs| {
      var pre := fs[..|fs| - 1];
      assert pre[..k] == fs[..k];
      FieldReportKept(pre, k, x);
    } else {
      assert fs[..k] == fs;
    }
  }

  // ---- the table ----

  /**
   * Outside any method, looking up a field by name in the built table finds
   * the type of the field's first declaration.
   */
  lemma FieldLookupInTable(p: Program, j: nat)
    requires j < |p.cls.fields| && forall i :: 0 <= i < j ==> p.cls.fields[i].name != p.cls.fields[j].name
    ensures GetVarRefType(Table(p), p.cls.fields[j].name, None) == Success(Some(p.cls.fields[j].typ))
  {
    FirstFieldKept(p.cls.fields, j);
  }
}
