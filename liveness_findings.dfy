/**
 * Where the liveness analysis as written goes wrong, and what the corrected
 * def/use rules compute instead.
 *
 * The def/use rules drop the operands of a branch whose condition is an
 * operation, and treat an array element store `a[i] := v` as a definition
 * of `a` that reads neither `a` nor `i`. The single backward pass misses
 * liveness carried around a loop's back edge.
 */
module LivenessFindings {
  import opened Wrappers
  import opened Ollir
  import opened Liveness
  import opened LivenessFacts

  // ---- what an instruction reads ----

  /** The variable names an operand reads: its own name and, for an array element, the names among its indexes. */
  function ElementReads(e: Element): set<string> {
    match e
    case Literal(_) => {}
    case Operand(n) => {n}
    case ArrayOperand(n, idx) => {n} + (set k | 0 <= k < |idx| && !idx[k].Literal? :: idx[k].name)
  }

  /** The names every operand of the list reads. */
  function ElementsReads(es: seq<Element>): set<string> {
    if |es| == 0 then {} else ElementsReads(es[..|es| - 1]) + ElementReads(es[|es| - 1])
  }

  /**
   * The variable names an instruction reads: every operand outside the
   * destination, and the array name and indexes of an element destination.
   */
  function Reads(inst: Inst): set<string> {
    match inst
    case Assign(dest, rhs) => Reads(rhs) + (if dest.ArrayOperand? then ElementReads(dest) else {})
    case Call(operands) => ElementsReads(operands)
    case Goto => {}
    case SingleOpCond(c) => ElementReads(c)
    case OpCond(test) => Reads(test)
    case Return(v) => if v.None? then {} else ElementReads(v.value)
    case PutField(_, f, v) => {f} + ElementReads(v)
    case GetField(_, f) => {f}
    case UnaryOp(_, o) => ElementReads(o)
    case BinaryOp(_, l, r) => ElementReads(l) + ElementReads(r)
    case NoOp(x) => ElementReads(x)
    case Ldc(_) => {}
  }

  lemma ElementUsesAreReads(vt: VarTable, e: Element)
    ensures forall x :: x in ElementUses(Repaired, vt, e) <==> x in ElementReads(e) && IsLocalVariable(vt, x)
  {
    if e.ArrayOperand? {
      forall x | x in ElementReads(e) && IsLocalVariable(vt, x)
        ensures x in ElementUses(Repaired, vt, e)
      {
        if x != e.name {
          var k :| 0 <= k < |e.indexes| && !e.indexes[k].Literal? && e.indexes[k].name == x;
          assert LocalName(vt, e.indexes[k]) == [x];
        }
      }
    }
  }

  lemma {:induction false} ElementsUsesAreReads(vt: VarTable, es: seq<Element>)
    ensures forall x :: x in ElementsUses(Repaired, vt, es) <==> x in ElementsReads(es) && IsLocalVariable(vt, x)
    decreases |es|
  {
    if |es| > 0 {
      ElementsUsesAreReads(vt, es[..|es| - 1]);
      ElementUsesAreReads(vt, es[|es| - 1]);
    }
  }

  /** The corrected uses of an instruction are exactly the local variables it reads. */
  lemma {:induction false} RepairedUsesAreReads(vt: VarTable, inst: Inst)
    requires VarsUsed(Repaired, vt, inst).Success?
    ensures forall x :: x in VarsUsed(Repaired, vt, inst).value <==> x in Reads(inst) && IsLocalVariable(vt, x)
  {
    match inst
    case Assign(dest, rhs) =>
      RepairedUsesAreReads(vt, rhs);
      ElementUsesAreReads(vt, dest);
    case Call(operands) => ElementsUsesAreReads(vt, operands);
    case SingleOpCond(c) => ElementUsesAreReads(vt, c);
    case OpCond(test) => RepairedUsesAreReads(vt, test);
    case Return(v) =>
      if v.Some? {
        ElementUsesAreReads(vt, v.value);
      }
    case PutField(_, _, v) => ElementUsesAreReads(vt, v);
    case UnaryOp(_, o) => ElementUsesAreReads(vt, o);
    case BinaryOp(_, l, r) =>
      ElementUsesAreReads(vt, l);
      ElementUsesAreReads(vt, r);
    case NoOp(x) => ElementUsesAreReads(vt, x);
    case _ =>
  }

  /** The corrected rule defines a name exactly when the instruction assigns that local variable itself. */
  lemma RepairedDefinesAssignedLocal(vt: VarTable, inst: Inst, x: string)
    ensures VarsDefined(Repaired, vt, inst) == Success(Some(x)) <==>
      inst.Assign? && inst.dest.Operand? && inst.dest.name == x && IsLocalVariable(vt, x)
  {
  }

  // ---- dropped uses, as written ----

  /** A var table holding one local variable, in register 1. */
  function OneLocal(name: string): VarTable {
    [VarEntry(name, Descriptor(Local, 1, "int"))]
  }

  lemma OneLocalIsLocal(name: string)
    ensures IsLocalVariable(OneLocal(name), name)
  {
    assert Lookup(OneLocal(name), name) == Some(Descriptor(Local, 1, "int"));
  }

  /** `if (!.bool c.bool) goto endif0;`, the exit test every `while` is lowered to. */
  function NegatedBranch(): Inst { OpCond(UnaryOp("!", Operand("c"))) }

  /** As written the branch uses nothing, though it reads the local `c`; the corrected rule uses `c`. */
  lemma NegatedBranchUseDropped()
    ensures VarsUsed(AsWritten, OneLocal("c"), NegatedBranch()) == Success([])
    ensures VarsUsed(Repaired, OneLocal("c"), NegatedBranch()) == Success(["c"])
    ensures "c" in Reads(NegatedBranch()) && IsLocalVariable(OneLocal("c"), "c")
  {
    OneLocalIsLocal("c");
    assert LocalName(OneLocal("c"), Operand("c")) == ["c"];
    assert ElementUses(Repaired, OneLocal("c"), Operand("c")) == ["c"];
  }

  /** `a[0].i32 :=.i32 v.i32`, a store into the local array `a`. */
  function ArrayStore(): Inst { Assign(ArrayOperand("a", [Literal("0")]), NoOp(Operand("v"))) }

  /** Locals `a` and `v`. */
  function ArrayLocals(): VarTable {
    [VarEntry("a", Descriptor(Local, 1, "int[]")), VarEntry("v", Descriptor(Local, 2, "int"))]
  }

  lemma ArrayLocalsAreLocal()
    ensures IsLocalVariable(ArrayLocals(), "a") && IsLocalVariable(ArrayLocals(), "v")
  {
    assert Lookup(ArrayLocals(), "a") == Some(Descriptor(Local, 1, "int[]"));
    assert ArrayLocals()[1..] == [VarEntry("v", Descriptor(Local, 2, "int"))];
    assert Lookup(ArrayLocals(), "v") == Some(Descriptor(Local, 2, "int"));
  }

  /**
   * As written the store defines `a`, which kills the array's liveness before
   * it, and does not use it; the corrected rule defines nothing and uses both.
   */
  lemma ArrayStoreDefinesArray()
    ensures VarsDefined(AsWritten, ArrayLocals(), ArrayStore()) == Success(Some("a"))
    ensures VarsUsed(AsWritten, ArrayLocals(), ArrayStore()) == Success(["v"])
    ensures VarsDefined(Repaired, ArrayLocals(), ArrayStore()) == Success(None)
    ensures VarsUsed(Repaired, ArrayLocals(), ArrayStore()) == Success(["v", "a"])
  {
    ArrayLocalsAreLocal();
    assert LocalName(ArrayLocals(), Operand("v")) == ["v"];
    assert ElementUses(AsWritten, ArrayLocals(), Operand("v")) == ["v"];
    assert ElementUses(Repaired, ArrayLocals(), Operand("v")) == ["v"];
    assert LocalName(ArrayLocals(), ArrayOperand("a", [Literal("0")])) == ["a"];
    assert LocalNames(ArrayLocals(), [Literal("0")]) == [] by {
      assert [Literal("0")][..0] == [];
    }
    assert ElementUses(Repaired, ArrayLocals(), ArrayStore().dest) == ["a"];
    assert VarsUsed(Repaired, ArrayLocals(), NoOp(Operand("v"))) == Success(["v"]);
    assert ["v"] + ["a"] == ["v", "a"];
  }

  // ---- the back edge, as written ----

  /**
   * `i = 0; while (i) i = i + 1; return i;` after lowering:
   *   1: i := 0        -> 2
   *   2: if (i) goto   -> 3, 4
   *   3: i := i + 1    -> 2
   *   4: ret i
   */
  function Counter(): seq<Instruction> {
    [ Instruction(1, Assign(Operand("i"), NoOp(Literal("0"))), [2]),
      Instruction(2, SingleOpCond(Operand("i")), [3, 4]),
      Instruction(3, Assign(Operand("i"), BinaryOp("+", Operand("i"), Literal("1"))), [2]),
      Instruction(4, Return(Some(Operand("i"))), []) ]
  }

  function CounterMethod(): OllirMethod { OllirMethod("count", true, Counter(), OneLocal("i")) }

  function CounterDefs(): Defs { map[1 := Some("i"), 2 := None, 3 := Some("i"), 4 := None] }

  function CounterUses(): Uses { map[1 := [], 2 := ["i"], 3 := ["i"], 4 := ["i"]] }

  lemma CounterDefsUses(mode: Mode)
    ensures VarsDefined(mode, OneLocal("i"), Counter()[0].inst) == Success(Some("i"))
    ensures VarsDefined(mode, OneLocal("i"), Counter()[1].inst) == Success(None)
    ensures VarsDefined(mode, OneLocal("i"), Counter()[2].inst) == Success(Some("i"))
    ensures VarsDefined(mode, OneLocal("i"), Counter()[3].inst) == Success(None)
    ensures VarsUsed(mode, OneLocal("i"), Counter()[0].inst) == Success([])
    ensures VarsUsed(mode, OneLocal("i"), Counter()[1].inst) == Success(["i"])
    ensures VarsUsed(mode, OneLocal("i"), Counter()[2].inst) == Success(["i"])
    ensures VarsUsed(mode, OneLocal("i"), Counter()[3].inst) == Success(["i"])
  {
    OneLocalIsLocal("i");
    assert LocalName(OneLocal("i"), Operand("i")) == ["i"];
    assert ElementUses(mode, OneLocal("i"), Operand("i")) == ["i"];
    assert ElementUses(mode, OneLocal("i"), Literal("1")) == [];
  }

  lemma CounterDefUsePrefix(mode: Mode)
    ensures DefUse(mode, OneLocal("i"), Counter()[..2]) == Success((map[1 := Some("i"), 2 := None], map[1 := [], 2 := ["i"]]))
  {
    CounterDefsUses(mode);
    var xs := Counter();
    assert xs[..1][..0] == [];
    assert DefUse(mode, OneLocal("i"), xs[..1]) == Success((map[1 := Some("i")], map[1 := []]));
    assert xs[..2][..1] == xs[..1];
  }

  lemma CounterDefUse(mode: Mode)
    ensures DefUse(mode, OneLocal("i"), Counter()) == Success((CounterDefs(), CounterUses()))
  {
    CounterDefsUses(mode);
    CounterDefUsePrefix(mode);
    var xs := Counter();
    assert xs[..3][..2] == xs[..2];
    assert xs[..4] == xs;
  }

  // The four steps of the pass as written, on any state, from the last instruction up.

  lemma CounterStep3(s: PassState)
    ensures InOf(Step(Counter()[3], CounterDefs(), CounterUses(), s).inM, 4) == {"i"}
    ensures InOf(Step(Counter()[3], CounterDefs(), CounterUses(), s).inM, 2) == InOf(s.inM, 2)
  {
    assert Counter()[3] == Instruction(4, Return(Some(Operand("i"))), []);
    assert LiveIn(["i"], None, multiset{}) == {"i"};
  }

  lemma CounterStep2(s: PassState)
    ensures OutOf(Step(Counter()[2], CounterDefs(), CounterUses(), s).outM, 3) == multiset(InOf(s.inM, 2))
    ensures InOf(Step(Counter()[2], CounterDefs(), CounterUses(), s).inM, 4) == InOf(s.inM, 4)
  {
    assert Counter()[2].id == 3 && Counter()[2].succs == [2];
    assert [2][..0] == [];
    assert SuccIn(s.inM, [2]) == multiset(InOf(s.inM, 2));
  }

  lemma CounterStep1(s: PassState)
    ensures "i" in InOf(Step(Counter()[1], CounterDefs(), CounterUses(), s).inM, 2)
    ensures OutOf(Step(Counter()[1], CounterDefs(), CounterUses(), s).outM, 3) == OutOf(s.outM, 3)
  {
    assert Counter()[1].id == 2;
  }

  lemma CounterStep0(s: PassState)
    ensures InOf(Step(Counter()[0], CounterDefs(), CounterUses(), s).inM, 2) == InOf(s.inM, 2)
    ensures OutOf(Step(Counter()[0], CounterDefs(), CounterUses(), s).outM, 3) == OutOf(s.outM, 3)
  {
    assert Counter()[0].id == 1;
  }

  /** The pass is the four steps in turn. */
  lemma CounterTrace(s4: PassState)
    ensures PassDown(Counter(), CounterDefs(), CounterUses(), s4, 0) ==
      Step(Counter()[0], CounterDefs(), CounterUses(),
        Step(Counter()[1], CounterDefs(), CounterUses(),
          Step(Counter()[2], CounterDefs(), CounterUses(),
            Step(Counter()[3], CounterDefs(), CounterUses(), s4))))
  {
    var xs, d, u := Counter(), CounterDefs(), CounterUses();
    PassDownAt(xs, d, u, s4, 3);
    PassDownAt(xs, d, u, s4, 2);
    PassDownAt(xs, d, u, s4, 1);
    PassDownAt(xs, d, u, s4, 0);
  }

  lemma CounterPass()
    ensures "i" in InOf(PassDown(Counter(), CounterDefs(), CounterUses(), Initial(Counter()), 0).inM, 2)
    ensures OutOf(PassDown(Counter(), CounterDefs(), CounterUses(), Initial(Counter()), 0).outM, 3) == multiset{}
  {
    var xs, d, u := Counter(), CounterDefs(), CounterUses();
    var s4 := Initial(xs);
    var s3 := Step(xs[3], d, u, s4);
    var s2 := Step(xs[2], d, u, s3);
    var s1 := Step(xs[1], d, u, s2);
    CounterTrace(s4);
    assert InOf(s4.inM, 2) == {} by {
      assert 2 in Ids(xs) by { assert xs[1].id == 2; }
    }
    CounterStep3(s4);
    CounterStep2(s3);
    CounterStep1(s2);
    CounterStep0(s1);
  }

  /**
   * As written, `i` is live into the loop test but dead after `i = i + 1`,
   * whose only successor is that test: OUT(3) misses the back edge, so the
   * result is no solution of the equations.
   */
  lemma CounterBackEdgeMissed()
    ensures Analysis(CounterMethod()).Success?
    ensures OutOf(Analysis(CounterMethod()).value.1, 3) == multiset{}
    ensures "i" in InOf(Analysis(CounterMethod()).value.0, 2)
    ensures !Solution(Counter(), CounterDefs(), CounterUses(),
      PassState(Analysis(CounterMethod()).value.0, Analysis(CounterMethod()).value.1))
  {
    CounterDefUse(AsWritten);
    CounterPass();
    var f := PassDown(Counter(), CounterDefs(), CounterUses(), Initial(Counter()), 0);
    assert [2][..0] == [];
    assert SuccIn(f.inM, [2]) == multiset(InOf(f.inM, 2));
    assert multiset(InOf(f.inM, 2))["i"] > 0;
    assert Counter()[2].id == 3 && Counter()[2].succs == [2];
    assert !Equations(Counter()[2], CounterDefs(), CounterUses(), f);
  }
}
