/**
 * The instruction choices of the Jasmin generator: the constant push for an
 * integer literal, the short forms of loads and stores, the `.limit`
 * directives of a method, the `iinc` peephole of an assignment, the
 * comparisons against a literal zero, and the return instruction; and the
 * generator's cache of the class's text.
 *
 * Instruction forms and their operand ranges are those of chapter 6 of the
 * Java Virtual Machine Specification (section 6.5: `iconst_<i>`, `bipush`,
 * `sipush`, `ldc`, `iload_<n>`, `iinc`, `iflt`, `if_icmplt` and the others).
 * A method's var table is the list of its entries, in the hash map's
 * iteration order.
 */
module JasminGenerator {
  import opened Wrappers
  import opened JavaInt
  import opened Ast
  import opened JasminUtils
  import Ollir

  /** A var-table entry: the name, the virtual register and the type. */
  datatype JasminVar = JasminVar(name: string, reg: int, varType: OllirType)

  type JasminVarTable = seq<JasminVar>

  /** `varTable.get(name)`: the entry with that name, or null. */
  function Get(vt: JasminVarTable, name: string): (r: Option<JasminVar>)
    ensures r.Some? ==> r.value in vt && r.value.name == name
    ensures r.None? ==> forall i :: 0 <= i < |vt| ==> vt[i].name != name
  {
    if |vt| == 0 then None else if vt[0].name == name then Some(vt[0]) else Get(vt[1..], name)
  }

  // ---- the cache ----

  /** The generator's state: the class's text once it is built. */
  class Generator {
    var code: Option<string>
    const utils: Utils

    constructor(className: string, imports: seq<string>)
      ensures code.None? && fresh(utils) && utils.className == className && utils.imports == imports
      ensures utils.Valid() && utils.maxStackCounter == 0 && utils.jumpTrueLabelIdx == 0
    {
      code := None;
      utils := new Utils(className, imports);
    }

    /**
     * `build`: the first call generates the class (its text, `classText`, is
     * what the class unit's generation gives; that generation is not part of
     * this model) and keeps it; every later call returns the kept text.
     */
    method Build(classText: string) returns (s: string)
      modifies this
      ensures old(code).Some? ==> s == old(code).value && code == old(code)
      ensures old(code).None? ==> s == classText && code == Some(classText)
    {
      if code.None? {
        code := Some(classText);
      }
      s := code.value;
    }

    /**
     * The `.limit` lines of `generateMethod`. The method's instructions set
     * the shared stack counter to `settings`, in order, before the lines are
     * written; the stack limit is the object's running maximum, which no
     * method resets. `regs` are the var table's registers.
     */
    method Limits(settings: seq<int>, regs: seq<int>) returns (text: string)
      requires utils.Valid()
      modifies utils
      ensures utils.Valid() && utils.maxStackCounter == RunningMax(old(utils.maxStackCounter), settings)
      ensures text == "   .limit stack " + IntToString(utils.maxStackCounter) + "\n"
        + "   .limit locals " + IntToString(LocalsLimitOf(regs)) + "\n"
    {
      var i := 0;
      while i < |settings|
        invariant 0 <= i <= |settings|
        invariant utils.Valid()
        invariant utils.maxStackCounter == RunningMax(old(utils.maxStackCounter), settings[..i])
      {
        RunningMaxSnoc(old(utils.maxStackCounter), settings[..i], settings[i]);
        assert settings[..i + 1] == settings[..i] + [settings[i]];
        utils.SetStackCounter(settings[i]);
        i := i + 1;
      }
      assert settings[..|settings|] == settings;
      var locals := LocalsLimit(regs);
      text := "   .limit stack " + IntToString(utils.maxStackCounter) + "\n"
        + "   .limit locals " + IntToString(locals) + "\n";
    }
  }

  // ---- stack and locals limits ----

  /** The maximum after setting the counter to each value in turn, from `start`. */
  function RunningMax(start: int, settings: seq<int>): (r: int)
    decreases |settings|
  {
    if |settings| == 0 then start
    else
      var m := RunningMax(start, settings[..|settings| - 1]);
      if settings[|settings| - 1] > m then settings[|settings| - 1] else m
  }

  lemma RunningMaxSnoc(start: int, settings: seq<int>, n: int)
    ensures RunningMax(start, settings + [n]) == (if n > RunningMax(start, settings) then n else RunningMax(start, settings))
  {
    assert (settings + [n])[..|settings|] == settings;
  }

  /** The running maximum is the largest of the start and every value. */
  lemma {:induction false} RunningMaxIsMax(start: int, settings: seq<int>)
    ensures RunningMax(start, settings) >= start
    ensures forall i :: 0 <= i < |settings| ==> RunningMax(start, settings) >= settings[i]
    ensures RunningMax(start, settings) == start || exists i :: 0 <= i < |settings| && RunningMax(start, settings) == settings[i]
    decreases |settings|
  {
    if |settings| > 0 {
      var front := settings[..|settings| - 1];
      RunningMaxIsMax(start, front);
      assert forall i :: 0 <= i < |front| ==> front[i] == settings[i];
    }
  }

  /**
   * Nothing resets the maximum between methods: a later method's limit is
   * the maximum over everything generated before it as well, so it is at
   * least every earlier method's.
   */
  lemma {:induction false} SharedMax(start: int, first: seq<int>, second: seq<int>)
    ensures RunningMax(RunningMax(start, first), second) == RunningMax(start, first + second)
    ensures RunningMax(start, first + second) >= RunningMax(start, first)
    decreases |second|
  {
    if |second| > 0 {
      var front := second[..|second| - 1];
      SharedMax(start, first, front);
      assert (first + second)[..|first + second| - 1] == first + front;
    } else {
      assert first + second == first;
    }
  }

  /** `.limit locals`: one more than the largest register, and never below 0. */
  function LocalsLimitOf(regs: seq<int>): (r: int)
    ensures r >= 0 && forall i :: 0 <= i < |regs| ==> regs[i] < r
    ensures r == 0 || exists i :: 0 <= i < |regs| && r == regs[i] + 1
    decreases |regs|
  {
    if |regs| == 0 then 0
    else
      var m := LocalsLimitOf(regs[..|regs| - 1]);
      assert forall i :: 0 <= i < |regs| - 1 ==> regs[..|regs| - 1][i] == regs[i];
      if regs[|regs| - 1] + 1 > m then regs[|regs| - 1] + 1 else m
  }

  /** The loop over the var table's values. */
  method LocalsLimit(regs: seq<int>) returns (limit: int)
    ensures limit == LocalsLimitOf(regs)
  {
    limit := 0;
    var i := 0;
    while i < |regs|
      invariant 0 <= i <= |regs|
      invariant limit == LocalsLimitOf(regs[..i])
    {
      assert regs[..i + 1][..i] == regs[..i];
      if regs[i] + 1 > limit {
        limit := regs[i] + 1;
      }
      i := i + 1;
    }
    assert regs[..|regs|] == regs;
  }

  // ---- integer constants ----

  /** The push instructions `generateLiteral` chooses among. */
  datatype Push = IconstM1 | Iconst(n: int) | Bipush(b: int) | Sipush(s: int) | Ldc(text: string)

  /** `generateLiteral`: the literal's text is parsed as a Java int, and the most compact push is chosen. */
  function LiteralPush(text: string): (r: Result<Push, JavaError>)
    ensures r.Failure? <==> ParseInt(text).None?
  {
    match ParseInt(text)
    case None => Failure(NumberFormat)
    case Some(v) =>
      if v == -1 then Success(IconstM1)
      else if 0 <= v <= 5 then Success(Iconst(v))
      else if -128 <= v <= 127 then Success(Bipush(v))
      else if -32768 <= v <= 32767 then Success(Sipush(v))
      else Success(Ldc(text))
  }

  function PushText(p: Push): string {
    match p
    case IconstM1 => "iconst_m1\n"
    case Iconst(n) => "iconst_" + IntToString(n) + "\n"
    case Bipush(b) => "bipush " + IntToString(b) + "\n"
    case Sipush(s) => "sipush " + IntToString(s) + "\n"
    case Ldc(t) => "ldc " + t + "\n"
  }

  /** The operand each form can encode: `iconst_<i>` for 0..5, a signed byte, a signed short, an int constant. */
  predicate Encodable(p: Push) {
    match p
    case IconstM1 => true
    case Iconst(n) => 0 <= n <= 5
    case Bipush(b) => -128 <= b <= 127
    case Sipush(s) => -32768 <= s <= 32767
    case Ldc(t) => ParseInt(t).Some?
  }

  /** The int the JVM pushes for an encodable form. */
  function Pushed(p: Push): int
    requires Encodable(p)
  {
    match p
    case IconstM1 => -1
    case Iconst(n) => n
    case Bipush(b) => b
    case Sipush(s) => s
    case Ldc(t) => ParseInt(t).value
  }

  /**
   * The chosen push can encode its operand and pushes the literal's value;
   * a longer form is chosen only when every shorter one cannot hold it.
   */
  lemma LiteralPushes(text: string)
    requires ParseInt(text).Some?
    ensures var p := LiteralPush(text).value; var v := ParseInt(text).value;
      Encodable(p) && Pushed(p) == v
      && (p.Ldc? <==> !(-32768 <= v <= 32767))
      && (p.Sipush? <==> -32768 <= v <= 32767 && !(-128 <= v <= 127))
      && (p.Bipush? <==> -128 <= v <= 127 && !(-1 <= v <= 5))
  {
  }

  // ---- loads and stores ----

  /** The type letter of a store or a return: `i` for int and boolean, `a` for references, none for void. */
  function TypePrefix(t: OllirType): string {
    match t
    case Builtin(k) => (match k case Int32 => "i" case Boolean => "i" case StringKind => "a" case Void => "")
    case _ => "a"
  }

  /** The letter follows the JVM type: int for int and boolean, a reference for classes and arrays, nothing for void. */
  lemma TypePrefixByJvmType(t: OllirType)
    ensures TypePrefix(t) == "i" <==> Denotes(t) == JvmInt || Denotes(t) == JvmBoolean
    ensures TypePrefix(t) == "a" <==> Denotes(t).JvmClass? || Denotes(t).JvmArray?
    ensures TypePrefix(t) == "" <==> Denotes(t) == JvmVoid
  {
  }

  /** `xload_<n>` and `xstore_<n>` exist for registers 0 to 3; above that the register is an operand. */
  function RegisterSuffix(reg: int): string {
    (if reg < 4 then "_" else " ") + IntToString(reg)
  }

  /** The short form is chosen exactly for the registers it exists for; the text names the register either way. */
  lemma RegisterSuffixForm(reg: nat)
    ensures RegisterSuffix(reg)[0] == '_' <==> reg <= 3
    ensures RegisterSuffix(reg)[1..] == IntToString(reg)
  {
  }

  /** The store that ends an assignment to a non-array variable. */
  function StoreText(v: JasminVar): string {
    TypePrefix(v.varType) + "store" + RegisterSuffix(v.reg) + "\n"
  }

  /**
   * `generateOperand` for a variable: `this` is `aload_0` whatever its
   * register, a class named for a static call loads nothing, anything else
   * is a load of its register with its type's letter.
   */
  function LoadText(v: JasminVar): string {
    match v.varType
    case ClassType(ThisClass, _) => "aload_0\n"
    case ClassType(StaticClass, _) => ""
    case _ => TypePrefix(v.varType) + "load" + RegisterSuffix(v.reg) + "\n"
  }

  /** An int or boolean variable in a low register loads with `iload_<n>`, a reference with `aload_<n>`. */
  lemma LoadsCarryType(v: JasminVar)
    requires !v.varType.ClassType? || v.varType.ckind == ObjectRef
    ensures LoadText(v) == TypePrefix(v.varType) + "load" + RegisterSuffix(v.reg) + "\n"
    ensures Denotes(v.varType) == JvmInt || Denotes(v.varType) == JvmBoolean ==> LoadText(v)[0] == 'i'
  {
  }

  // ---- the iinc peephole ----

  datatype BinOp = AddOp | SubOp | MulOp | DivOp | LthOp | GthOp | OtherOp

  /** `dest := left op right`: the right-hand side of an assignment this peephole looks at. */
  datatype AssignRhs = BinaryRhs(op: BinOp, left: Ollir.Element, right: Ollir.Element) | OtherRhs

  /** An `iinc reg k` instruction, with `k` as its text. */
  datatype Iinc = Iinc(reg: int, constant: string)

  function IincText(i: Iinc): string {
    "iinc " + IntToString(i.reg) + " " + i.constant + "\n"
  }

  predicate IsVariable(e: Ollir.Element) { e.Operand? || e.ArrayOperand? }

  /**
   * The peephole of `generateAssign` as written: `Some` when it emits
   * `iinc`, `None` when the assignment takes the general path. An ADD or a
   * SUB of a literal and a variable held in the destination's register,
   * with a non-array destination, becomes `iinc` of that register by the
   * literal's own text, whichever the operator and whichever side the
   * literal is on. A destination that is a literal is not supported; a
   * destination or operand missing from the var table is a null dereference.
   */
  function PeepholeAsWritten(vt: JasminVarTable, dest: Ollir.Element, rhs: AssignRhs): (r: Result<Option<Iinc>, JavaError>)
    ensures r.Success? && r.value.Some? ==> rhs.BinaryRhs? && rhs.op in {AddOp, SubOp} && dest.Operand?
  {
    if dest.Literal? then Failure(NotImplemented)
    else
      var reg := Get(vt, dest.name);
      if !rhs.BinaryRhs? || rhs.op !in {AddOp, SubOp} then Success(None)
      else
        var lit, other := if rhs.left.Literal? then rhs.left else rhs.right, if rhs.left.Literal? then rhs.right else rhs.left;
        if !(lit.Literal? && IsVariable(other)) then Success(None)
        else if reg.None? then Failure(NullPointer)
        else
          var operandReg := Get(vt, other.name);
          if operandReg.None? then Failure(NullPointer)
          else if reg.value.reg == operandReg.value.reg && !dest.ArrayOperand? then Success(Some(Iinc(reg.value.reg, lit.text)))
          else Success(None)
  }

  /**
   * The peephole with the evident intent: `x + c` and `c + x` add `c`,
   * `x - c` adds `-c` (when that is an int), and `c - x` is not an increment.
   */
  function PeepholeRepaired(vt: JasminVarTable, dest: Ollir.Element, rhs: AssignRhs): (r: Result<Option<Iinc>, JavaError>) {
    var w :- PeepholeAsWritten(vt, dest, rhs);
    if w.None? || rhs.op == AddOp then Success(w)
    else if rhs.left.Literal? then Success(None)
    else match ParseInt(rhs.right.text)
      case None => Failure(NumberFormat)
      case Some(c) => if c == INT_MIN then Success(None) else Success(Some(Iinc(w.value.reg, IntToString(-c))))
  }

  /** The value `dest := left op right` stores, for `x` the value in the shared register and `c` the literal's. */
  function OllirResultValue(op: BinOp, literalLeft: bool, x: int32, c: int32): int32
    requires op == AddOp || op == SubOp
  {
    if op == AddOp then Add(x, c)
    else if literalLeft then Sub(c, x) else Sub(x, c)
  }

  /** What `iinc` leaves in its register: the value plus the constant, wrapped to 32 bits. */
  function IincEffect(x: int32, constant: string): Option<int32> {
    match ParseInt(constant)
    case None => None
    case Some(k) => Some(Wrap(x + k))
  }

  /** `x = x - 1` is emitted as `iinc x 1`: with 5 in x, the assignment stores 4 and the instruction leaves 6. */
  lemma AsWrittenSubIncrements()
    ensures var vt := [JasminVar("x", 1, Builtin(Int32))];
      PeepholeAsWritten(vt, Ollir.Operand("x"), BinaryRhs(SubOp, Ollir.Operand("x"), Ollir.Literal("1"))) == Success(Some(Iinc(1, "1")))
      && OllirResultValue(SubOp, false, 5, 1) == 4
      && IincEffect(5, "1") == Some(6)
  {
    assert ParseInt("1") == Some(1) by {
      assert DigitsValue("1") == DigitsValue("1"[..0]) * 10 + DigitValue('1');
    }
  }

  /** `x = 1 - x` is emitted as `iinc x 1` too: with 5 in x, the assignment stores -4. */
  lemma AsWrittenLiteralMinus()
    ensures var vt := [JasminVar("x", 1, Builtin(Int32))];
      PeepholeAsWritten(vt, Ollir.Operand("x"), BinaryRhs(SubOp, Ollir.Literal("1"), Ollir.Operand("x"))) == Success(Some(Iinc(1, "1")))
      && OllirResultValue(SubOp, true, 5, 1) == -4
      && IincEffect(5, "1") == Some(6)
  {
    assert ParseInt("1") == Some(1) by {
      assert DigitsValue("1") == DigitsValue("1"[..0]) * 10 + DigitValue('1');
    }
  }

  /**
   * Repaired, an emitted `iinc` leaves in the register exactly what the
   * assignment stores, for every value the register holds and every
   * int literal.
   */
  lemma RepairedIincAgrees(vt: JasminVarTable, dest: Ollir.Element, rhs: AssignRhs, x: int32)
    requires PeepholeRepaired(vt, dest, rhs).Success? && PeepholeRepaired(vt, dest, rhs).value.Some?
    requires rhs.BinaryRhs? && ParseInt(if rhs.left.Literal? then rhs.left.text else rhs.right.text).Some?
    ensures var i := PeepholeRepaired(vt, dest, rhs).value.value;
      var c := ParseInt(if rhs.left.Literal? then rhs.left.text else rhs.right.text).value;
      IincEffect(x, i.constant) == Some(OllirResultValue(rhs.op, rhs.left.Literal?, x, c))
  {
    var i := PeepholeRepaired(vt, dest, rhs).value.value;
    if rhs.op == SubOp {
      var c := ParseInt(rhs.right.text).value;
      ParseIntToString(-c);
      assert i.constant == IntToString(-c);
    }
  }

  /** The repair changes nothing for ADD, and for SUB only which constant is emitted, or whether one is. */
  lemma RepairedKeepsAdd(vt: JasminVarTable, dest: Ollir.Element, rhs: AssignRhs)
    requires !(rhs.BinaryRhs? && rhs.op == SubOp)
    ensures PeepholeRepaired(vt, dest, rhs) == PeepholeAsWritten(vt, dest, rhs)
  {
  }

  // ---- binary operations ----

  datatype Branch = Iflt | Ifgt | IfIcmplt | IfIcmpgt

  function BranchName(b: Branch): string {
    match b
    case Iflt => "iflt"
    case Ifgt => "ifgt"
    case IfIcmplt => "if_icmplt"
    case IfIcmpgt => "if_icmpgt"
  }

  /** The operands `generateBinaryOp` loads: only the other side when one side is a literal zero. */
  function LoadedOperands(l: Ollir.Element, r: Ollir.Element): seq<Ollir.Element> {
    if IsLiteralZero(l) then [r] else if IsLiteralZero(r) then [l] else [l, r]
  }

  /** The branch of a `<` or `>`: against zero on the right, zero on the left, or neither. */
  function CompareBranch(op: BinOp, l: Ollir.Element, r: Ollir.Element): Branch
    requires op == LthOp || op == GthOp
  {
    var leftZero, rightZero := IsLiteralZero(l), IsLiteralZero(r);
    if op == LthOp then (if rightZero then Iflt else if leftZero then Ifgt else IfIcmplt)
    else (if rightZero then Ifgt else if leftZero then Iflt else IfIcmpgt)
  }

  /** Whether the JVM takes the branch with `stack` on top of the operand stack, the first value deepest. */
  function Taken(b: Branch, stack: seq<int>): bool
    requires |stack| == (if b == Iflt || b == Ifgt then 1 else 2)
  {
    match b
    case Iflt => stack[0] < 0
    case Ifgt => stack[0] > 0
    case IfIcmplt => stack[0] < stack[1]
    case IfIcmpgt => stack[0] > stack[1]
  }

  /**
   * Against a literal zero or not, the branch has exactly the operands that
   * were loaded and is taken exactly when the comparison holds, `a` and `b`
   * being the values of the two sides.
   */
  lemma CompareDecides(op: BinOp, l: Ollir.Element, r: Ollir.Element, a: int, b: int)
    requires op == LthOp || op == GthOp
    requires IsLiteralZero(l) ==> a == 0
    requires IsLiteralZero(r) ==> b == 0
    ensures var br := CompareBranch(op, l, r);
      var stack := if IsLiteralZero(l) then [b] else if IsLiteralZero(r) then [a] else [a, b];
      |LoadedOperands(l, r)| == |stack| == (if br == Iflt || br == Ifgt then 1 else 2)
      && Taken(br, stack) == (if op == LthOp then a < b else a > b)
  {
  }

  /**
   * The code after the loads: for a comparison, the branch to `j_true_<k>`
   * pushing 0 on the fall-through and 1 on the jump; for arithmetic, its
   * instruction; for any other operator, nothing.
   */
  function OperationText(op: BinOp, l: Ollir.Element, r: Ollir.Element, k: nat): string {
    var idx := NatToDigits(k);
    match op
    case LthOp | GthOp =>
      BranchName(CompareBranch(op, l, r)) + " j_true_" + idx + "\n" + "iconst_0\n" + "goto  j_end" + idx + "\n"
        + "j_true_" + idx + ":\n" + "iconst_1\n" + "j_end" + idx + ":\n"
    case AddOp => "iadd\n"
    case SubOp => "isub\n"
    case MulOp => "imul\n"
    case DivOp => "idiv\n"
    case OtherOp => ""
  }

  /** `generateBinaryOp`, given the code of each operand: the loads, then the operation. */
  function BinaryOpText(op: BinOp, l: Ollir.Element, r: Ollir.Element, lCode: string, rCode: string, k: nat): string {
    (if IsLiteralZero(l) then rCode else if IsLiteralZero(r) then lCode else lCode + rCode) + OperationText(op, l, r, k)
  }

  // ---- return ----

  /**
   * `generateReturn` for a method of return type `t`; `load` is the code of
   * the returned operand, absent for a bare return. The operand is loaded
   * only when the method is not void, and a missing one is then null.
   */
  function ReturnText(t: OllirType, load: Option<string>): (r: Result<string, JavaError>) {
    var prefix := TypePrefix(t);
    if prefix == "" then Success("return")
    else if load.None? then Failure(NullPointer)
    else Success(load.value + prefix + "return")
  }

  /** `ireturn` for int and boolean, `areturn` for references, `return` alone for void. */
  lemma ReturnByType(t: OllirType, load: string)
    ensures Denotes(t) == JvmVoid ==> ReturnText(t, Some(load)) == Success("return") && ReturnText(t, None) == Success("return")
    ensures Denotes(t) == JvmInt || Denotes(t) == JvmBoolean ==> ReturnText(t, Some(load)) == Success(load + "ireturn")
    ensures Denotes(t).JvmClass? || Denotes(t).JvmArray? ==> ReturnText(t, Some(load)) == Success(load + "areturn")
  {
    TypePrefixByJvmType(t);
    assert "i" + "return" == "ireturn" && "a" + "return" == "areturn";
    assert load + "i" + "return" == load + "ireturn";
    assert load + "a" + "return" == load + "areturn";
  }
}
