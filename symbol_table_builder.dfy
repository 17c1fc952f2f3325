/**
 * Building the symbol table from the tree, with the reports the builder
 * adds on the way: duplicated imports, an unimported superclass, duplicated
 * methods, vararg return types, misplaced vararg parameters, duplicated
 * parameters and locals, vararg locals, and duplicated or vararg fields.
 *
 * Each `build*` loop is a method of `Builder` proved against a function
 * that defines its result on the prefix it has seen; maps filled by `put`
 * keep the last value written for a name.
 */
module SymbolTableBuilder {
  import opened Wrappers
  import opened Ast
  import opened TypeUtils
  import OllirGen
  import Dedup

  const DuplicatedImportMessage := "Duplicated import declarations"
  const DuplicatedFieldMessage := "Duplicated fields"
  const VarargFieldMessage := "Field type cannot be vararg"
  const VarargReturnMessage := "Return type cannot be vararg"
  const SecondVarargMessage := "Cannot have more than one vararg parameter"
  const VarargNotLastMessage := "Vararg parameter must be the last one"
  const DuplicateParamMessage := "Duplicate Parameter"
  const VarargLocalMessage := "Variable type cannot be vararg"
  const DuplicateLocalMessage := "Duplicate Local Variable"
  const DuplicatedMethodMessage := "Duplicated methods"

  function SuperMessage(s: string): string {
    "Super class '" + s + "' not imported"
  }

  // ---- imports ----

  /** The `packageName` attribute: the segment list as Java's `List.toString` prints it. */
  function PackageAttribute(segments: seq<string>): string {
    "[" + OllirGen.Join(segments, ", ") + "]"
  }

  /** `replaceAll("[\\[\\] ]", "")` then `replaceAll(",", ".")`. */
  function Normalise(s: string): (r: string)
    ensures |r| <= |s|
  {
    if |s| == 0 then ""
    else
      var c := s[|s| - 1];
      Normalise(s[..|s| - 1]) + (if c == '[' || c == ']' || c == ' ' then "" else if c == ',' then "." else [c])
  }

  /** The normalised package path of an import declaration. */
  function ImportPath(segments: seq<string>): string {
    Normalise(PackageAttribute(segments))
  }

  /** The normalised package paths of the import declarations, in order. */
  function ImportPaths(imps: seq<seq<string>>): (r: seq<string>)
    ensures |r| == |imps| && forall i :: 0 <= i < |imps| ==> r[i] == ImportPath(imps[i])
  {
    if |imps| == 0 then [] else ImportPaths(imps[..|imps| - 1]) + [ImportPath(imps[|imps| - 1])]
  }

  /** The imports kept after the first `n`: a path whose short name is already kept is dropped. */
  function KeptImportsUpTo(imps: seq<seq<string>>, n: nat): seq<string>
    requires n <= |imps|
  {
    Dedup.Kept(ShortenImport, ImportPaths(imps), n)
  }

  /** One report per dropped import, at its declaration, in order. */
  function DropReports(imps: seq<seq<string>>, dropped: seq<nat>): (r: seq<Report>)
    requires forall j :: 0 <= j < |dropped| ==> dropped[j] < |imps|
    ensures |r| == |dropped|
    ensures forall j :: 0 <= j < |dropped| ==> r[j] == Report(ImportSite(imps[dropped[j]]), DuplicatedImportMessage)
  {
    if |dropped| == 0 then []
    else DropReports(imps, dropped[..|dropped| - 1]) + [Report(ImportSite(imps[dropped[|dropped| - 1]]), DuplicatedImportMessage)]
  }

  /** The reports for the first `n` imports. */
  function ImportReportsUpTo(imps: seq<seq<string>>, n: nat): seq<Report>
    requires n <= |imps|
  {
    DropReports(imps, Dedup.Dropped(ShortenImport, ImportPaths(imps), n))
  }

  function KeptImports(imps: seq<seq<string>>): seq<string> {
    KeptImportsUpTo(imps, |imps|)
  }

  function ImportReports(imps: seq<seq<string>>): seq<Report> {
    ImportReportsUpTo(imps, |imps|)
  }

  /** The stream of short names the loop builds is the key list of the kept paths. */
  lemma ShortNamesAreKeys(kept: seq<string>)
    ensures ShortNames(kept) == Dedup.Keys(ShortenImport, kept)
  {
  }

  /** One turn of the import loop, on the prefix functions. */
  lemma ImportStep(imps: seq<seq<string>>, i: nat)
    requires i < |imps|
    ensures ShortenImport(ImportPath(imps[i])) in ShortNames(KeptImportsUpTo(imps, i)) ==>
      KeptImportsUpTo(imps, i + 1) == KeptImportsUpTo(imps, i)
      && ImportReportsUpTo(imps, i + 1) == ImportReportsUpTo(imps, i) + [Report(ImportSite(imps[i]), DuplicatedImportMessage)]
    ensures ShortenImport(ImportPath(imps[i])) !in ShortNames(KeptImportsUpTo(imps, i)) ==>
      KeptImportsUpTo(imps, i + 1) == KeptImportsUpTo(imps, i) + [ImportPath(imps[i])]
      && ImportReportsUpTo(imps, i + 1) == ImportReportsUpTo(imps, i)
  {
    var paths := ImportPaths(imps);
    var kept := KeptImportsUpTo(imps, i);
    var dropped := Dedup.Dropped(ShortenImport, paths, i);
    ShortNamesAreKeys(kept);
    assert paths[i] == ImportPath(imps[i]);
    if ShortenImport(paths[i]) in Dedup.Keys(ShortenImport, kept) {
      assert Dedup.Dropped(ShortenImport, paths, i + 1) == dropped + [i];
      assert (dropped + [i])[..|dropped|] == dropped;
    } else {
      assert Dedup.Dropped(ShortenImport, paths, i + 1) == dropped + [];
      assert dropped + [] == dropped;
    }
  }

  // ---- superclass ----

  /** A superclass that is not among the kept imports' short names is reported; building goes on. */
  function SuperReports(imports: seq<string>, cls: ClassDecl): (r: seq<Report>)
    ensures |r| <= 1
    ensures |r| == 1 <==> cls.superName.Some? && cls.superName.value !in ShortNames(imports)
    ensures |r| == 1 ==> r[0] == Report(ClassSite(cls), SuperMessage(cls.superName.value))
  {
    if cls.superName.Some? && cls.superName.value !in ShortNames(imports) then [Report(ClassSite(cls), SuperMessage(cls.superName.value))]
    else []
  }

  // ---- methods ----

  /** The method names kept so far: a name already kept is not added again. */
  function KeptMethods(ms: seq<MethodDecl>): seq<string> {
    if |ms| == 0 then []
    else
      var prev := KeptMethods(ms[..|ms| - 1]);
      if ms[|ms| - 1].name in prev then prev else prev + [ms[|ms| - 1].name]
  }

  /** One report per method whose name was already kept. */
  function MethodReports(ms: seq<MethodDecl>): seq<Report> {
    if |ms| == 0 then []
    else
      var last := ms[|ms| - 1];
      MethodReports(ms[..|ms| - 1])
        + (if last.name in KeptMethods(ms[..|ms| - 1]) then [Report(MethodSite(last), DuplicatedMethodMessage)] else [])
  }

  // ---- return types ----

  /**
   * The return-type map so far, `None` once the builder has returned null:
   * main returns void, a vararg return type outside main gives null, and
   * otherwise the declared type is put.
   */
  function ReturnMap(ms: seq<MethodDecl>): Option<map<string, Type>> {
    if |ms| == 0 then Some(map[])
    else
      var prev := ReturnMap(ms[..|ms| - 1]);
      var last := ms[|ms| - 1];
      if prev.None? then None
      else if last.name == "main" then Some(prev.value[last.name := VoidType()])
      else if last.retType.isVararg then None
      else Some(prev.value[last.name := last.retType])
  }

  /** The one report for the vararg return type that ended the loop, if any. */
  function ReturnReports(ms: seq<MethodDecl>): seq<Report> {
    if |ms| == 0 then []
    else
      var last := ms[|ms| - 1];
      if ReturnMap(ms[..|ms| - 1]).Some? && last.name != "main" && last.retType.isVararg then [Report(MethodSite(last), VarargReturnMessage)]
      else ReturnReports(ms[..|ms| - 1])
  }

  // ---- parameters ----

  /** The `varargFound` flag after the first `n` parameters. */
  function VarargSeenUpTo(ps: seq<VarDecl>, n: nat): bool
    requires n <= |ps|
  {
    n > 0 && (VarargSeenUpTo(ps, n - 1) || ps[n - 1].typ.isVararg)
  }

  /** The parameter list after the first `n`: a parameter equal as a Symbol to one listed is not added. */
  function ParamListUpTo(ps: seq<VarDecl>, n: nat): seq<Symbol>
    requires n <= |ps|
  {
    if n == 0 then []
    else
      var prev := ParamListUpTo(ps, n - 1);
      var p := ps[n - 1];
      if ContainsSymbol(prev, Some(p.typ), p.name) then prev else prev + [Symbol(p.typ, p.name)]
  }

  /** The reports for parameter `p` when a vararg has or has not been seen before it. */
  function OrderReports(varargFound: bool, p: VarDecl): seq<Report> {
    if varargFound then
      (if p.typ.isVararg then [Report(ParamSite(p), SecondVarargMessage)] else []) + [Report(ParamSite(p), VarargNotLastMessage)]
    else []
  }

  /** Parameter `p`'s duplicate report against the list so far. */
  function DuplicateReports(list: seq<Symbol>, p: VarDecl): seq<Report> {
    if ContainsSymbol(list, Some(p.typ), p.name) then [Report(ParamSite(p), DuplicateParamMessage)] else []
  }

  /** The reports for the first `n` parameters: each one's order reports, then its duplicate report. */
  function ParamReportsUpTo(ps: seq<VarDecl>, n: nat): seq<Report>
    requires n <= |ps|
  {
    if n == 0 then []
    else
      var prev := ParamReportsUpTo(ps, n - 1);
      prev + OrderReports(VarargSeenUpTo(ps, n - 1), ps[n - 1]) + DuplicateReports(ParamListUpTo(ps, n - 1), ps[n - 1])
  }

  function ParamList(ps: seq<VarDecl>): seq<Symbol> {
    ParamListUpTo(ps, |ps|)
  }

  function ParamReports(ps: seq<VarDecl>): seq<Report> {
    ParamReportsUpTo(ps, |ps|)
  }

  /** One method's parameter list: main gets one `String[]` named by its `args` attribute. */
  function MethodParams(m: MethodDecl): seq<Symbol> {
    if m.name == "main" then [Symbol(StringArrayType(), m.args)] else ParamList(m.params)
  }

  function MethodParamReports(m: MethodDecl): seq<Report> {
    if m.name == "main" then [] else ParamReports(m.params)
  }

  /** The parameter map over the methods so far, each name holding the list of its last declaration. */
  function ParamsMap(ms: seq<MethodDecl>): map<string, seq<Symbol>> {
    if |ms| == 0 then map[] else ParamsMap(ms[..|ms| - 1])[ms[|ms| - 1].name := MethodParams(ms[|ms| - 1])]
  }

  function ParamsReports(ms: seq<MethodDecl>): seq<Report> {
    if |ms| == 0 then [] else ParamsReports(ms[..|ms| - 1]) + MethodParamReports(ms[|ms| - 1])
  }

  // ---- locals ----

  /** A method's local list so far: a local equal as a Symbol to one listed is not added. */
  function LocalList(vs: seq<VarDecl>): seq<Symbol> {
    if |vs| == 0 then []
    else
      var prev := LocalList(vs[..|vs| - 1]);
      var v := vs[|vs| - 1];
      if ContainsSymbol(prev, Some(v.typ), v.name) then prev else prev + [Symbol(v.typ, v.name)]
  }

  /** A vararg local is reported at the method; a duplicate at its declaration. */
  function LocalStepReports(m: MethodDecl, prefix: seq<VarDecl>, v: VarDecl): seq<Report> {
    (if v.typ.isVararg then [Report(MethodSite(m), VarargLocalMessage)] else [])
      + (if ContainsSymbol(LocalList(prefix), Some(v.typ), v.name) then [Report(LocalSite(v), DuplicateLocalMessage)] else [])
  }

  function LocalReports(m: MethodDecl, vs: seq<VarDecl>): seq<Report> {
    if |vs| == 0 then [] else LocalReports(m, vs[..|vs| - 1]) + LocalStepReports(m, vs[..|vs| - 1], vs[|vs| - 1])
  }

  function LocalsMap(ms: seq<MethodDecl>): map<string, seq<Symbol>> {
    if |ms| == 0 then map[] else LocalsMap(ms[..|ms| - 1])[ms[|ms| - 1].name := LocalList(ms[|ms| - 1].varDecls)]
  }

  function LocalsReports(ms: seq<MethodDecl>): seq<Report> {
    if |ms| == 0 then [] else LocalsReports(ms[..|ms| - 1]) + LocalReports(ms[|ms| - 1], ms[|ms| - 1].varDecls)
  }

  // ---- fields ----

  /** The fields so far: a field whose name is already present is not added. */
  function FieldList(fs: seq<VarDecl>): seq<Symbol> {
    if |fs| == 0 then []
    else
      var prev := FieldList(fs[..|fs| - 1]);
      var f := fs[|fs| - 1];
      if HasName(prev, f.name) then prev else prev + [Symbol(f.typ, f.name)]
  }

  /** A duplicate is reported; a vararg field that is added is reported too. */
  function FieldStepReports(kept: seq<Symbol>, f: VarDecl): seq<Report> {
    if HasName(kept, f.name) then [Report(FieldSite(f), DuplicatedFieldMessage)]
    else if f.typ.isVararg then [Report(FieldSite(f), VarargFieldMessage)] else []
  }

  function FieldReports(fs: seq<VarDecl>): seq<Report> {
    if |fs| == 0 then [] else FieldReports(fs[..|fs| - 1]) + FieldStepReports(FieldList(fs[..|fs| - 1]), fs[|fs| - 1])
  }

  // ---- the table ----

  /** The table `build` returns. */
  function Table(p: Program): SymbolTable {
    SymbolTable(p.cls.name, KeptMethods(p.cls.methods), ReturnMap(p.cls.methods),
      ParamsMap(p.cls.methods), LocalsMap(p.cls.methods), FieldList(p.cls.fields),
      KeptImports(p.imports), p.cls.superName)
  }

  /** The reports `build` leaves, in the order its steps add them. */
  function TableReports(p: Program): seq<Report> {
    ImportReports(p.imports) + SuperReports(KeptImports(p.imports), p.cls)
      + MethodReports(p.cls.methods) + ReturnReports(p.cls.methods) + ParamsReports(p.cls.methods)
      + LocalsReports(p.cls.methods) + FieldReports(p.cls.fields)
  }

  /** The builder: the reports list that `build` starts afresh. */
  class Builder {
    var reports: seq<Report>

    constructor()
      ensures reports == []
    {
      reports := [];
    }

    /** `build`. */
    method Build(p: Program) returns (t: SymbolTable)
      modifies this
      ensures t == Table(p) && reports == TableReports(p)
    {
      reports := [];
      var imports := BuildImports(p.imports);
      assert reports == ImportReports(p.imports);
      ghost var r1 := reports;
      if p.cls.superName.Some? && p.cls.superName.value !in ShortNames(imports) {
        reports := reports + [Report(ClassSite(p.cls), SuperMessage(p.cls.superName.value))];
      }
      assert reports == r1 + SuperReports(imports, p.cls);
      ghost var r2 := reports;
      var methods := BuildMethods(p.cls.methods);
      ghost var r3 := reports;
      var returnTypes := BuildReturnTypes(p.cls.methods);
      ghost var r4 := reports;
      var params := BuildParams(p.cls.methods);
      ghost var r5 := reports;
      var locals := BuildLocals(p.cls.methods);
      ghost var r6 := reports;
      var fields := BuildFields(p.cls.fields);
      assert reports == r6 + FieldReports(p.cls.fields);
      assert r6 == r2 + MethodReports(p.cls.methods) + ReturnReports(p.cls.methods) + ParamsReports(p.cls.methods)
        + LocalsReports(p.cls.methods);
      t := SymbolTable(p.cls.name, methods, returnTypes, params, locals, fields, imports, p.cls.superName);
    }

    /** `buildImports`; the loop collects its reports and they are added to the list at the end. */
    method BuildImports(imps: seq<seq<string>>) returns (imports: seq<string>)
      modifies this
      ensures imports == KeptImports(imps) && reports == old(reports) + ImportReports(imps)
    {
      imports := [];
      var added := [];
      var i := 0;
      assert ImportReportsUpTo(imps, 0) == [];
      while i < |imps|
        invariant 0 <= i <= |imps|
        invariant imports == KeptImportsUpTo(imps, i) && added == ImportReportsUpTo(imps, i)
        modifies {}
      {
        var more;
        imports, more := AddImport(imps, i, imports);
        added := added + more;
        i := i + 1;
      }
      reports := reports + added;
    }

    /** `buildMethods`. */
    method BuildMethods(ms: seq<MethodDecl>) returns (methods: seq<string>)
      modifies this
      ensures methods == KeptMethods(ms) && reports == old(reports) + MethodReports(ms)
    {
      methods := [];
      var added := [];
      var i := 0;
      assert ms[..0] == [];
      while i < |ms|
        invariant 0 <= i <= |ms|
        invariant methods == KeptMethods(ms[..i]) && added == MethodReports(ms[..i])
        modifies {}
      {
        assert ms[..i + 1][..i] == ms[..i];
        if ms[i].name in methods {
          added := added + [Report(MethodSite(ms[i]), DuplicatedMethodMessage)];
        } else {
          methods := methods + [ms[i].name];
        }
        i := i + 1;
      }
      assert ms[..i] == ms;
      reports := reports + added;
    }

    /** `buildReturnTypes`: gives up, returning null, at the first vararg return type outside main. */
    method BuildReturnTypes(ms: seq<MethodDecl>) returns (types: Option<map<string, Type>>)
      modifies this
      ensures types == ReturnMap(ms) && reports == old(reports) + ReturnReports(ms)
    {
      var m: map<string, Type> := map[];
      var added := [];
      var stopped := false;
      var i := 0;
      assert ms[..0] == [];
      while i < |ms| && !stopped
        invariant 0 <= i <= |ms|
        invariant !stopped ==> ReturnMap(ms[..i]) == Some(m) && added == [] && ReturnReports(ms[..i]) == []
        invariant stopped ==> ReturnMap(ms).None? && added == ReturnReports(ms)
        modifies {}
      {
        assert ms[..i + 1][..i] == ms[..i];
        if ms[i].name == "main" {
          m := m[ms[i].name := VoidType()];
        } else if ms[i].retType.isVararg {
          added := [Report(MethodSite(ms[i]), VarargReturnMessage)];
          ReturnMapStops(ms, i + 1);
          stopped := true;
        } else {
          m := m[ms[i].name := ms[i].retType];
        }
        i := i + 1;
      }
      reports := reports + added;
      if stopped {
        return None;
      }
      assert ms[..i] == ms;
      types := Some(m);
    }

    /** `buildParams`. */
    method BuildParams(ms: seq<MethodDecl>) returns (params: map<string, seq<Symbol>>)
      modifies this
      ensures params == ParamsMap(ms) && reports == old(reports) + ParamsReports(ms)
    {
      params := map[];
      var added := [];
      var i := 0;
      assert ms[..0] == [];
      while i < |ms|
        invariant 0 <= i <= |ms|
        invariant params == ParamsMap(ms[..i]) && added == ParamsReports(ms[..i])
        modifies {}
      {
        ParamsStep(ms, i);
        var list, more := MethodParamsOf(ms[i]);
        params := params[ms[i].name := list];
        added := added + more;
        i := i + 1;
      }
      assert ms[..i] == ms;
      reports := reports + added;
    }

    /** One method's turn in `buildParams`, with the reports it adds. */
    method MethodParamsOf(m: MethodDecl) returns (list: seq<Symbol>, added: seq<Report>)
      ensures list == MethodParams(m) && added == MethodParamReports(m)
    {
      if m.name == "main" {
        list, added := [Symbol(StringArrayType(), m.args)], [];
      } else {
        list, added := ParamListOf(m.params);
      }
    }

    /** The inner loop of `buildParams` over one method's parameters, with its `varargFound` flag. */
    method ParamListOf(ps: seq<VarDecl>) returns (list: seq<Symbol>, added: seq<Report>)
      ensures list == ParamList(ps) && added == ParamReports(ps)
    {
      list, added := [], [];
      var varargFound := false;
      var i := 0;
      while i < |ps|
        invariant 0 <= i <= |ps|
        invariant list == ParamListUpTo(ps, i) && varargFound == VarargSeenUpTo(ps, i)
        invariant added == ParamReportsUpTo(ps, i)
      {
        var order, duplicate;
        varargFound, order := CheckOrder(varargFound, ps[i]);
        list, duplicate := CheckDuplicate(list, ps[i]);
        added := added + order + duplicate;
        i := i + 1;
      }
    }

    /** The vararg-order checks of one parameter, with the updated `varargFound` flag. */
    method CheckOrder(varargFound: bool, p: VarDecl) returns (varargFound': bool, added: seq<Report>)
      ensures varargFound' == (varargFound || p.typ.isVararg)
      ensures added == OrderReports(varargFound, p)
    {
      varargFound', added := varargFound, [];
      var vararg := p.typ.isVararg;
      if varargFound {
        if vararg {
          added := added + [Report(ParamSite(p), SecondVarargMessage)];
        }
        added := added + [Report(ParamSite(p), VarargNotLastMessage)];
      } else if vararg {
        varargFound' := true;
      }
    }

    /** The duplicate check of one parameter against the list so far. */
    method CheckDuplicate(list: seq<Symbol>, p: VarDecl) returns (list': seq<Symbol>, added: seq<Report>)
      ensures list' == if ContainsSymbol(list, Some(p.typ), p.name) then list else list + [Symbol(p.typ, p.name)]
      ensures added == DuplicateReports(list, p)
    {
      list', added := list, [];
      if ContainsSymbol(list, Some(p.typ), p.name) {
        added := [Report(ParamSite(p), DuplicateParamMessage)];
      } else {
        list' := list + [Symbol(p.typ, p.name)];
      }
    }

    /** `buildLocals`. */
    method BuildLocals(ms: seq<MethodDecl>) returns (locals: map<string, seq<Symbol>>)
      modifies this
      ensures locals == LocalsMap(ms) && reports == old(reports) + LocalsReports(ms)
    {
      locals := map[];
      var added := [];
      var i := 0;
      assert ms[..0] == [];
      while i < |ms|
        invariant 0 <= i <= |ms|
        invariant locals == LocalsMap(ms[..i]) && added == LocalsReports(ms[..i])
        modifies {}
      {
        LocalsStep(ms, i);
        var list, more := LocalListOf(ms[i]);
        locals := locals[ms[i].name := list];
        added := added + more;
        i := i + 1;
      }
      assert ms[..i] == ms;
      reports := reports + added;
    }

    /** The inner loop of `buildLocals` over one method's variable declarations. */
    method LocalListOf(m: MethodDecl) returns (list: seq<Symbol>, added: seq<Report>)
      ensures list == LocalList(m.varDecls) && added == LocalReports(m, m.varDecls)
    {
      var vs := m.varDecls;
      list, added := [], [];
      var i := 0;
      assert vs[..0] == [];
      while i < |vs|
        invariant 0 <= i <= |vs|
        invariant list == LocalList(vs[..i]) && added == LocalReports(m, vs[..i])
      {
        assert vs[..i + 1][..i] == vs[..i];
        var v := vs[i];
        var more := [];
        if v.typ.isVararg {
          more := [Report(MethodSite(m), VarargLocalMessage)];
        }
        if ContainsSymbol(list, Some(v.typ), v.name) {
          more := more + [Report(LocalSite(v), DuplicateLocalMessage)];
        } else {
          list := list + [Symbol(v.typ, v.name)];
        }
        assert more == LocalStepReports(m, vs[..i], v);
        added := added + more;
        i := i + 1;
      }
      assert vs[..i] == vs;
    }

    /** `buildFields`, with its inner search for an earlier field of the same name. */
    method BuildFields(fs: seq<VarDecl>) returns (fields: seq<Symbol>)
      modifies this
      ensures fields == FieldList(fs) && reports == old(reports) + FieldReports(fs)
    {
      fields := [];
      var added := [];
      var i := 0;
      assert fs[..0] == [];
      while i < |fs|
        invariant 0 <= i <= |fs|
        invariant fields == FieldList(fs[..i]) && added == FieldReports(fs[..i])
        modifies {}
      {
        assert fs[..i + 1][..i] == fs[..i];
        var taken := NameTaken(fields, fs[i].name);
        if !taken {
          if fs[i].typ.isVararg {
            added := added + [Report(FieldSite(fs[i]), VarargFieldMessage)];
          }
          fields := fields + [Symbol(fs[i].typ, fs[i].name)];
        } else {
          added := added + [Report(FieldSite(fs[i]), DuplicatedFieldMessage)];
        }
        i := i + 1;
      }
      assert fs[..i] == fs;
      reports := reports + added;
    }
  }

  /** One turn of the import loop: a path whose short name is already kept is reported instead of added. */
  method AddImport(imps: seq<seq<string>>, i: nat, kept: seq<string>) returns (imports: seq<string>, added: seq<Report>)
    requires i < |imps| && kept == KeptImportsUpTo(imps, i)
    ensures imports == KeptImportsUpTo(imps, i + 1) && ImportReportsUpTo(imps, i + 1) == ImportReportsUpTo(imps, i) + added
  {
    ImportStep(imps, i);
    imports := kept;
    added := [];
    var path := ImportPath(imps[i]);
    if ShortenImport(path) in ShortNames(imports) {
      added := [Report(ImportSite(imps[i]), DuplicatedImportMessage)];
    } else {
      imports := imports + [path];
    }
  }

  /** The search loop with `break`: some symbol already has the name. */
  method NameTaken(syms: seq<Symbol>, n: string) returns (found: bool)
    ensures found == HasName(syms, n)
  {
    found := false;
    var j := 0;
    while j < |syms|
      invariant 0 <= j <= |syms|
      invariant !found ==> forall k :: 0 <= k < j ==> syms[k].name != n
      invariant found ==> HasName(syms, n)
    {
      if syms[j].name == n {
        found := true;
        break;
      }
      j := j + 1;
    }
  }

  lemma ParamsStep(ms: seq<MethodDecl>, i: nat)
    requires i < |ms|
    ensures ParamsMap(ms[..i + 1]) == ParamsMap(ms[..i])[ms[i].name := MethodParams(ms[i])]
    ensures ParamsReports(ms[..i + 1]) == ParamsReports(ms[..i]) + MethodParamReports(ms[i])
  {
    assert ms[..i + 1][..i] == ms[..i];
    assert ms[..i + 1][i] == ms[i];
  }

  lemma LocalsStep(ms: seq<MethodDecl>, i: nat)
    requires i < |ms|
    ensures LocalsMap(ms[..i + 1]) == LocalsMap(ms[..i])[ms[i].name := LocalList(ms[i].varDecls)]
    ensures LocalsReports(ms[..i + 1]) == LocalsReports(ms[..i]) + LocalReports(ms[i], ms[i].varDecls)
  {
    assert ms[..i + 1][..i] == ms[..i];
    assert ms[..i + 1][i] == ms[i];
  }

  /** Once the return-type map is null, later methods change neither it nor the reports. */
  lemma {:induction false} ReturnMapStops(ms: seq<MethodDecl>, i: nat)
    requires i <= |ms| && ReturnMap(ms[..i]).None?
    ensures ReturnMap(ms).None? && ReturnReports(ms) == ReturnReports(ms[..i])
    decreases |ms| - i
  {
    if i < |ms| {
      assert ms[..i + 1][..i] == ms[..i];
      ReturnMapStops(ms, i + 1);
    } else {
      assert ms[..i] == ms;
    }
  }
}
