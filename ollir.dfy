/**
 * The part of the OLLIR intermediate representation the register allocator
 * reads: a method's instructions, each with its id and the ids of its
 * successors in the control-flow graph, and its variable table.
 *
 * The variable table is a hash map from name to descriptor; here it is an
 * association list in the map's iteration order, with distinct names.
 */
module Ollir {
  import opened Wrappers

  /** An instruction operand: a literal, a variable, or an element of an array variable. */
  datatype Element =
    | Literal(text: string)
    | Operand(name: string)
    | ArrayOperand(name: string, indexes: seq<Element>)

  datatype Inst =
    | Assign(dest: Element, rhs: Inst)
    | Call(operands: seq<Element>)
    | Goto
    | SingleOpCond(condition: Element)
    | OpCond(test: Inst)
    | Return(result: Option<Element>)
    | PutField(obj: Element, field: string, value: Element)
    | GetField(obj: Element, field: string)
    | UnaryOp(op: string, operand: Element)
    | BinaryOp(op: string, left: Element, right: Element)
    | NoOp(single: Element)
    | Ldc(text: string)

  datatype Instruction = Instruction(id: int, inst: Inst, succs: seq<int>)

  datatype VarScope = Local | Parameter | Field

  datatype Descriptor = Descriptor(scope: VarScope, reg: int, varType: string)

  datatype VarEntry = VarEntry(name: string, desc: Descriptor)

  type VarTable = seq<VarEntry>

  datatype OllirMethod = OllirMethod(name: string, isStatic: bool, instrs: seq<Instruction>, varTable: VarTable)

  predicate DistinctNames(vt: VarTable) {
    forall i, j :: 0 <= i < j < |vt| ==> vt[i].name != vt[j].name
  }

  predicate DistinctIds(instrs: seq<Instruction>) {
    forall i, j :: 0 <= i < j < |instrs| ==> instrs[i].id != instrs[j].id
  }

  /** The ids of the instructions, the keys of every per-instruction map. */
  function Ids(instrs: seq<Instruction>): (r: set<int>)
    ensures forall i :: 0 <= i < |instrs| ==> instrs[i].id in r
  {
    if |instrs| == 0 then {}
    else
      var front := instrs[..|instrs| - 1];
      assert forall i :: 0 <= i < |front| ==> front[i] == instrs[i];
      Ids(front) + {instrs[|instrs| - 1].id}
  }

  /** Every id in the set belongs to some instruction. */
  lemma {:induction false} IdsOnlyIds(instrs: seq<Instruction>, x: int)
    requires x in Ids(instrs)
    ensures exists i :: 0 <= i < |instrs| && instrs[i].id == x
    decreases |instrs|
  {
    var front := instrs[..|instrs| - 1];
    if x != instrs[|instrs| - 1].id {
      IdsOnlyIds(front, x);
      var i :| 0 <= i < |front| && front[i].id == x;
      assert instrs[i].id == x;
    }
  }

  /** `varTable.get(name)`: the descriptor of the entry with that name, or null. */
  function Lookup(vt: VarTable, name: string): (r: Option<Descriptor>)
    ensures r.Some? <==> exists i :: 0 <= i < |vt| && vt[i].name == name
    ensures r.Some? ==> exists i :: 0 <= i < |vt| && vt[i].name == name && vt[i].desc == r.value
  {
    if |vt| == 0 then None
    else if vt[0].name == name then Some(vt[0].desc)
    else
      var r := Lookup(vt[1..], name);
      assert forall i :: 1 <= i < |vt| ==> vt[i] == vt[1..][i - 1];
      r
  }

  lemma LookupAt(vt: VarTable, i: nat)
    requires DistinctNames(vt) && i < |vt|
    ensures Lookup(vt, vt[i].name) == Some(vt[i].desc)
  {
    var r := Lookup(vt, vt[i].name);
    var j :| 0 <= j < |vt| && vt[j].name == vt[i].name && vt[j].desc == r.value;
    assert j == i;
  }

  /** `varTable.put(name, d)`: replaces the entry of that name in place, or appends one. */
  function Put(vt: VarTable, name: string, d: Descriptor): (r: VarTable)
    ensures forall n :: n != name ==> Lookup(r, n) == Lookup(vt, n)
    ensures DistinctNames(vt) ==> DistinctNames(r)
    ensures |r| >= |vt|
  {
    if |vt| == 0 then [VarEntry(name, d)]
    else if vt[0].name == name then [VarEntry(name, d)] + vt[1..]
    else
      var rest := Put(vt[1..], name, d);
      assert forall n :: n != vt[0].name ==> Lookup([vt[0]] + rest, n) == Lookup(rest, n);
      assert DistinctNames(vt) ==> DistinctNames([vt[0]] + rest) by {
        if DistinctNames(vt) {
          assert DistinctNames(vt[1..]);
          forall j | 0 <= j < |rest| ensures rest[j].name != vt[0].name {
            assert Lookup(rest, rest[j].name).Some?;
          }
        }
      }
      [vt[0]] + rest
  }

  /** After a put, the name finds the new descriptor. */
  lemma {:induction false} PutLookup(vt: VarTable, name: string, d: Descriptor)
    ensures Lookup(Put(vt, name, d), name) == Some(d)
  {
    if |vt| > 0 && vt[0].name != name {
      PutLookup(vt[1..], name, d);
    }
  }

  /** `isLocalVariable`: the name has an entry and that entry's scope is LOCAL. */
  predicate IsLocalVariable(vt: VarTable, name: string) {
    Lookup(vt, name).Some? && Lookup(vt, name).value.scope == Local
  }

  /** `getOperandName`: the name of a variable operand, null for a literal. */
  function OperandName(e: Element): Option<string> {
    if e.Literal? then None else Some(e.name)
  }
}
