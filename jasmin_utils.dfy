/**
 * The Jasmin backend's helpers: JVM type descriptors of OLLIR types, access
 * modifiers, the class path of a class name, the test for a literal zero,
 * and the helper object's counters (compare labels and the operand stack).
 *
 * Descriptors follow the field descriptor grammar of section 4.3.2 of the
 * Java Virtual Machine Specification: `I`, `Z`, `V`, `L<class name>;` and
 * `[` before the component's descriptor.
 */
module JasminUtils {
  import opened Wrappers
  import opened JavaInt
  import opened Ast
  import opened TypeUtils
  import Ollir
  import OllirGen

  // ---- OLLIR types ----

  datatype BuiltinKind = Int32 | Boolean | StringKind | Void

  /** A class type is the class itself (`this`), a class named for a static call, or an object reference. */
  datatype ClassKind = ThisClass | StaticClass | ObjectRef

  datatype OllirType = Builtin(kind: BuiltinKind) | ArrayOf(elem: OllirType) | ClassType(ckind: ClassKind, name: string)

  datatype AccessModifier = Public | Private | Protected | Default

  /** `getModifier`: nothing for package access, else the keyword and a space. */
  function Modifier(m: AccessModifier): (r: string)
    ensures r == "" <==> m == Default
    ensures r != "" ==> r[|r| - 1] == ' ' && forall i :: 0 <= i < |r| - 1 ==> 'a' <= r[i] <= 'z'
  {
    match m
    case Public => "public "
    case Private => "private "
    case Protected => "protected "
    case Default => ""
  }

  // ---- descriptors ----

  /** `convertType`. */
  function Descriptor(t: OllirType): (r: string)
    ensures |r| >= 1
  {
    match t
    case Builtin(k) => (match k case Int32 => "I" case Boolean => "Z" case StringKind => "Ljava/lang/String;" case Void => "V")
    case ArrayOf(e) => "[" + Descriptor(e)
    case ClassType(_, n) => "L" + n + ";"
  }

  /** A JVM field type, or void, as a descriptor denotes it. */
  datatype JvmType = JvmInt | JvmBoolean | JvmVoid | JvmClass(className: string) | JvmArray(component: JvmType)

  /** The JVM type an OLLIR type stands for: the class kind does not reach the descriptor. */
  function Denotes(t: OllirType): JvmType {
    match t
    case Builtin(k) => (match k case Int32 => JvmInt case Boolean => JvmBoolean
                                case StringKind => JvmClass("java/lang/String") case Void => JvmVoid)
    case ArrayOf(e) => JvmArray(Denotes(e))
    case ClassType(_, n) => JvmClass(n)
  }

  /** Class names in the type have no ';', which ends a class name in a descriptor. */
  predicate Plain(t: OllirType) {
    match t
    case Builtin(_) => true
    case ArrayOf(e) => Plain(e)
    case ClassType(_, n) => ';' !in n
  }

  /** The index of the first `c` in `s`, if any. */
  function IndexOf(s: string, c: char): (r: Option<nat>)
    ensures r.Some? ==> r.value < |s| && s[r.value] == c && forall i :: 0 <= i < r.value ==> s[i] != c
    ensures r.None? ==> c !in s
  {
    if |s| == 0 then None
    else if s[0] == c then Some(0)
    else match IndexOf(s[1..], c)
      case None => None
      case Some(k) => Some(k + 1)
  }

  /** Reads one descriptor from the front of `s`, giving the type and what follows it. */
  function ReadDescriptor(s: string): (r: Option<(JvmType, string)>)
    ensures r.Some? ==> |r.value.1| < |s|
    decreases |s|
  {
    if |s| == 0 then None
    else if s[0] == 'I' then Some((JvmInt, s[1..]))
    else if s[0] == 'Z' then Some((JvmBoolean, s[1..]))
    else if s[0] == 'V' then Some((JvmVoid, s[1..]))
    else if s[0] == '[' then
      match ReadDescriptor(s[1..])
      case None => None
      case Some((c, rest)) => Some((JvmArray(c), rest))
    else if s[0] == 'L' then
      match IndexOf(s[1..], ';')
      case None => None
      case Some(k) => Some((JvmClass(s[1..k + 1]), s[k + 2..]))
    else None
  }

  /** A descriptor reads back as the JVM type of its OLLIR type, and the reading stops right after it. */
  lemma {:induction false} DescriptorReadsBack(t: OllirType, rest: string)
    requires Plain(t)
    ensures ReadDescriptor(Descriptor(t) + rest) == Some((Denotes(t), rest))
  {
    match t
    case Builtin(k) =>
      if k == StringKind {
        assert Descriptor(t) == "L" + "java/lang/String" + ";";
        ClassReadsBack("java/lang/String", rest);
      } else {
        var s := Descriptor(t) + rest;
        assert s[1..] == rest;
      }
    case ArrayOf(e) =>
      var s := Descriptor(t) + rest;
      assert s[0] == '[' && s[1..] == Descriptor(e) + rest;
      DescriptorReadsBack(e, rest);
    case ClassType(_, n) =>
      ClassReadsBack(n, rest);
  }

  lemma ClassReadsBack(n: string, rest: string)
    requires ';' !in n
    ensures ReadDescriptor("L" + n + ";" + rest) == Some((JvmClass(n), rest))
  {
    var s := "L" + n + ";" + rest;
    assert s[0] == 'L';
    ClassNameEnds(n, rest);
  }

  lemma ClassNameEnds(n: string, rest: string)
    requires ';' !in n
    ensures var s := "L" + n + ";" + rest;
      IndexOf(s[1..], ';') == Some(|n|) && s[1..|n| + 1] == n && s[|n| + 2..] == rest
  {
    var s := "L" + n + ";" + rest;
    assert s[1..] == n + (";" + rest);
    IndexOfAfter(n, ";" + rest);
  }

  lemma {:induction false} IndexOfAfter(n: string, tail: string)
    requires ';' !in n && |tail| >= 1 && tail[0] == ';'
    ensures IndexOf(n + tail, ';') == Some(|n|)
  {
    if |n| > 0 {
      assert (n + tail)[1..] == n[1..] + tail;
      IndexOfAfter(n[1..], tail);
    }
  }

  /** Descriptors of several types, one after another, as `generateMethod` writes the parameters. */
  function Descriptors(ts: seq<OllirType>): (r: string)
    decreases |ts|
  {
    if |ts| == 0 then "" else Descriptor(ts[0]) + Descriptors(ts[1..])
  }

  lemma {:induction false} DescriptorsSnoc(ts: seq<OllirType>, t: OllirType)
    ensures Descriptors(ts + [t]) == Descriptors(ts) + Descriptor(t)
    decreases |ts|
  {
    if |ts| > 0 {
      assert (ts + [t])[1..] == ts[1..] + [t];
      DescriptorsSnoc(ts[1..], t);
    } else {
      assert ts + [t] == [t];
    }
  }

  /** Reads descriptors until the text runs out. */
  function ReadDescriptors(s: string): (r: Option<seq<JvmType>>)
    decreases |s|
  {
    if |s| == 0 then Some([])
    else match ReadDescriptor(s)
      case None => None
      case Some((t, rest)) =>
        match ReadDescriptors(rest)
        case None => None
        case Some(ts) => Some([t] + ts)
  }

  function DenotesAll(ts: seq<OllirType>): (r: seq<JvmType>)
    ensures |r| == |ts| && forall i :: 0 <= i < |ts| ==> r[i] == Denotes(ts[i])
  {
    if |ts| == 0 then [] else [Denotes(ts[0])] + DenotesAll(ts[1..])
  }

  /** The parameter descriptors of a method read back as its parameters' types, in order. */
  lemma {:induction false} DescriptorsReadBack(ts: seq<OllirType>)
    requires forall i :: 0 <= i < |ts| ==> Plain(ts[i])
    ensures ReadDescriptors(Descriptors(ts)) == Some(DenotesAll(ts))
    decreases |ts|
  {
    if |ts| > 0 {
      DescriptorReadsBack(ts[0], Descriptors(ts[1..]));
      DescriptorsReadBack(ts[1..]);
    }
  }

  /** The `(params)ret` descriptor of a method. */
  function MethodDescriptor(params: seq<OllirType>, ret: OllirType): string {
    "(" + Descriptors(params) + ")" + Descriptor(ret)
  }

  /** The parameter loop of `generateMethod`. */
  method ParamsDescriptor(params: seq<OllirType>) returns (s: string)
    ensures s == Descriptors(params)
  {
    s := "";
    var i := 0;
    while i < |params|
      invariant 0 <= i <= |params|
      invariant s == Descriptors(params[..i])
    {
      assert params[..i + 1] == params[..i] + [params[i]];
      DescriptorsSnoc(params[..i], params[i]);
      s := s + Descriptor(params[i]);
      i := i + 1;
    }
    assert params[..|params|] == params;
  }

  // ---- literals ----

  /** `isLiteralZero`: a literal whose text is exactly "0"; "00" or "-0" are not. */
  predicate IsLiteralZero(e: Ollir.Element) {
    e.Literal? && e.text == "0"
  }

  lemma LiteralZeroIsZero(e: Ollir.Element)
    requires IsLiteralZero(e)
    ensures ParseInt(e.text) == Some(0)
  {
    assert DigitsValue(e.text) == DigitsValue(e.text[..0]) * 10 + DigitValue('0');
  }

  // ---- class paths ----

  /** The pieces of `s` between dots, empty ones included. */
  function SplitDots(s: string): (r: seq<string>)
    ensures |r| >= 1
    decreases |s|
  {
    if |s| == 0 then [""]
    else
      var front := SplitDots(s[..|s| - 1]);
      if s[|s| - 1] == '.' then front + [""]
      else front[..|front| - 1] + [front[|front| - 1] + [s[|s| - 1]]]
  }

  function DropTrailingEmpty(parts: seq<string>): (r: seq<string>)
    ensures |r| <= |parts| && r == parts[..|r|]
    ensures |r| > 0 ==> r[|r| - 1] != ""
    decreases |parts|
  {
    if |parts| == 0 || parts[|parts| - 1] != "" then parts else DropTrailingEmpty(parts[..|parts| - 1])
  }

  /**
   * Java's `split("\\.")`: the whole string when there is no dot, else the
   * pieces with the trailing empty ones removed.
   */
  function JavaSplit(s: string): (r: seq<string>) {
    if '.' !in s then [s] else DropTrailingEmpty(SplitDots(s))
  }

  /** One step of the import scan: whether the import's last segment is the name; no segment at all throws. */
  function ImportMatches(imp: string, name: string): (r: Result<bool, JavaError>)
    ensures r.Failure? <==> |JavaSplit(imp)| == 0
  {
    var parts := JavaSplit(imp);
    if |parts| == 0 then Failure(IndexOutOfBounds) else Success(parts[|parts| - 1] == name)
  }

  /** The scan over the imports: the first import whose last segment matches, joined with "/", else "". */
  function SearchImports(imports: seq<string>, name: string): (r: Result<string, JavaError>)
    decreases |imports|
  {
    if |imports| == 0 then Success("")
    else match ImportMatches(imports[0], name)
      case Failure(e) => Failure(e)
      case Success(true) => Success(OllirGen.Join(JavaSplit(imports[0]), "/"))
      case Success(false) => SearchImports(imports[1..], name)
  }

  /** `getClassPath`: the class's own name as it is, else the import scan. */
  function ClassPath(className: string, imports: seq<string>, name: string): Result<string, JavaError> {
    if className == name then Success(name) else SearchImports(imports, name)
  }

  /** A well-formed import: segments are non-empty. */
  predicate WellFormedImport(s: string) {
    |s| >= 1 && s[0] != '.' && s[|s| - 1] != '.' && forall i :: 0 <= i < |s| - 1 ==> !(s[i] == '.' && s[i + 1] == '.')
  }

  /** `s` with every '.' replaced by '/'. */
  function Slashed(s: string): (r: string)
    ensures |r| == |s|
    ensures forall i :: 0 <= i < |s| ==> r[i] == (if s[i] == '.' then '/' else s[i])
  {
    if |s| == 0 then "" else Slashed(s[..|s| - 1]) + [if s[|s| - 1] == '.' then '/' else s[|s| - 1]]
  }

  /** The last piece is the text after the last dot. */
  lemma SplitLast(s: string)
    ensures SplitDots(s)[|SplitDots(s)| - 1] == ShortenImport(s)
  {
    AfterLastDot(s);
  }

  lemma {:induction false} AfterLastDot(s: string)
    ensures SplitDots(s)[|SplitDots(s)| - 1] == s[LastIndexOf(s, '.') + 1..]
    decreases |s|
  {
    if |s| > 0 {
      var f := s[..|s| - 1];
      var c := s[|s| - 1];
      var front := SplitDots(f);
      var parts := SplitDots(s);
      if c != '.' {
        assert parts == front[..|front| - 1] + [front[|front| - 1] + [c]];
        assert parts[|parts| - 1] == front[|front| - 1] + [c];
        AfterLastDot(f);
        var k := LastIndexOf(f, '.');
        assert LastIndexOf(s, '.') == k;
        assert front[|front| - 1] == f[k + 1..];
        assert s[k + 1..] == f[k + 1..] + [c];
      } else {
        assert parts == front + [""];
        assert LastIndexOf(s, '.') == |s| - 1;
      }
    }
  }

  /** Appending a character to the last piece appends it to the joined text. */
  lemma JoinExtendLast(parts: seq<string>, c: char, sep: string)
    requires |parts| >= 1
    ensures OllirGen.Join(parts[..|parts| - 1] + [parts[|parts| - 1] + [c]], sep) == OllirGen.Join(parts, sep) + [c]
  {
    var n := |parts|;
    var parts' := parts[..n - 1] + [parts[n - 1] + [c]];
    if n > 1 {
      assert parts'[..n - 1] == parts[..n - 1];
      var j := OllirGen.Join(parts[..n - 1], sep);
      assert OllirGen.Join(parts', sep) == j + sep + (parts[n - 1] + [c]);
      assert OllirGen.Join(parts, sep) == j + sep + parts[n - 1];
    }
  }

  /** Joining the pieces with "/" turns each dot into a slash. */
  lemma {:induction false} SplitJoin(s: string)
    ensures OllirGen.Join(SplitDots(s), "/") == Slashed(s)
    decreases |s|
  {
    if |s| > 0 {
      var f := s[..|s| - 1];
      var c := s[|s| - 1];
      SplitJoin(f);
      var front := SplitDots(f);
      if c == '.' {
        OllirGen.JoinSnoc(front, "", "/");
        assert Slashed(s) == Slashed(f) + "/";
      } else {
        JoinExtendLast(front, c, "/");
        assert Slashed(s) == Slashed(f) + [c];
      }
    }
  }

  /** Without a dot there is one piece, the whole text. */
  lemma {:induction false} SplitNoDot(s: string)
    requires '.' !in s
    ensures SplitDots(s) == [s]
    decreases |s|
  {
    if |s| > 0 {
      var f := s[..|s| - 1];
      assert '.' !in f by {
        forall i | 0 <= i < |f| ensures f[i] != '.' { assert f[i] == s[i]; }
      }
      SplitNoDot(f);
      assert s == f + [s[|s| - 1]];
    }
  }

  /** A well-formed import's last piece is not empty, so the split keeps every piece. */
  lemma WellFormedSplit(s: string)
    requires WellFormedImport(s)
    ensures JavaSplit(s) == SplitDots(s)
  {
    SplitLast(s);
    if '.' in s {
      assert |ShortenImport(s)| == |s| - 1 - LastIndexOf(s, '.') > 0;
    }
  }

  /**
   * The class path of an imported class is its import with '/' for '.', and
   * it is found by the same short name the semantic passes use.
   */
  lemma ImportClassPath(imp: string)
    requires WellFormedImport(imp)
    ensures ImportMatches(imp, ShortenImport(imp)) == Success(true)
    ensures OllirGen.Join(JavaSplit(imp), "/") == Slashed(imp)
  {
    WellFormedSplit(imp);
    SplitLast(imp);
    SplitJoin(imp);
  }

  /** The search gives the first matching import's path; "" when no import matches. */
  lemma {:induction false} SearchFirst(imports: seq<string>, name: string, k: nat)
    requires k < |imports|
    requires forall i :: 0 <= i < k ==> ImportMatches(imports[i], name) == Success(false)
    requires ImportMatches(imports[k], name) == Success(true)
    ensures SearchImports(imports, name) == Success(OllirGen.Join(JavaSplit(imports[k]), "/"))
    decreases k
  {
    if k > 0 {
      SearchFirst(imports[1..], name, k - 1);
    }
  }

  lemma {:induction false} SearchNone(imports: seq<string>, name: string)
    requires forall i :: 0 <= i < |imports| ==> ImportMatches(imports[i], name) == Success(false)
    ensures SearchImports(imports, name) == Success("")
    decreases |imports|
  {
    if |imports| > 0 {
      SearchNone(imports[1..], name);
    }
  }

  // ---- the helper object ----

  /** The helper object of one Jasmin generator: the OLLIR class's name and imports, and three counters. */
  class Utils {
    const className: string
    const imports: seq<string>
    var jumpTrueLabelIdx: nat
    var stackCounter: int
    var maxStackCounter: int

    /** The maximum is at least the current counter and never below its start, 0. */
    predicate Valid()
      reads this
    {
      maxStackCounter >= stackCounter && maxStackCounter >= 0
    }

    constructor(className: string, imports: seq<string>)
      ensures this.className == className && this.imports == imports
      ensures jumpTrueLabelIdx == 0 && stackCounter == 0 && maxStackCounter == 0 && Valid()
    {
      this.className := className;
      this.imports := imports;
      jumpTrueLabelIdx := 0;
      stackCounter := 0;
      maxStackCounter := 0;
    }

    /** `nextCompareIdx`: the counter's value as text, then one more. */
    method NextCompareIdx() returns (s: string)
      modifies this
      ensures s == NatToDigits(old(jumpTrueLabelIdx)) && jumpTrueLabelIdx == old(jumpTrueLabelIdx) + 1
      ensures stackCounter == old(stackCounter) && maxStackCounter == old(maxStackCounter)
    {
      s := NatToDigits(jumpTrueLabelIdx);
      jumpTrueLabelIdx := jumpTrueLabelIdx + 1;
    }

    /** `setStackCounter`: the counter takes the value and the maximum rises to it. */
    method SetStackCounter(n: int)
      requires Valid()
      modifies this
      ensures Valid() && stackCounter == n
      ensures maxStackCounter == (if n > old(maxStackCounter) then n else old(maxStackCounter))
      ensures jumpTrueLabelIdx == old(jumpTrueLabelIdx)
    {
      stackCounter := n;
      if n > maxStackCounter {
        maxStackCounter := n;
      }
    }

    /** `getClassPath(name)`, with the import scan's early return. */
    method GetClassPath(name: string) returns (r: Result<string, JavaError>)
      ensures r == ClassPath(className, imports, name)
    {
      if className == name {
        return Success(name);
      }
      var i := 0;
      while i < |imports|
        invariant 0 <= i <= |imports|
        invariant SearchImports(imports, name) == SearchImports(imports[i..], name)
      {
        var parts := JavaSplit(imports[i]);
        if |parts| == 0 {
          return Failure(IndexOutOfBounds);
        }
        if parts[|parts| - 1] == name {
          return Success(OllirGen.Join(parts, "/"));
        }
        assert imports[i..][1..] == imports[i + 1..];
        i := i + 1;
      }
      r := Success("");
    }
  }

  /** Labels from two calls of `nextCompareIdx` differ: the index text is injective. */
  lemma CompareIdxDistinct(a: nat, b: nat)
    requires a != b
    ensures NatToDigits(a) != NatToDigits(b)
  {
    if NatToDigits(a) == NatToDigits(b) {
      NatToDigitsInjective(a, b);
    }
  }
}
