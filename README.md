# Jmm compiler middle end, modelled in Dafny

This project models the middle and back end of a compiler for Java--
("Jmm"), a small subset of Java, together with the semantic passes and
the symbol table those stages rely on. The compiler takes a parsed Jmm
class and does the following:

- builds its symbol table, which records the imports, the fields, the
  methods with their return types, parameters and locals, and the
  superclass;
- runs semantic passes that append error reports;
- optimises the tree by constant folding and constant propagation,
  repeated until nothing changes;
- packs the arguments of vararg calls into array initialisers;
- lowers the tree to the OLLIR intermediate representation;
- optionally allocates registers for each OLLIR method by liveness
  analysis, an interference graph and graph colouring;
- generates Jasmin assembly from the result.

The model follows the Java code of each stage, branch by branch:

- The tree is a datatype (`Ast`). Integer arithmetic follows the JVM's
  32-bit rules (`JavaInt`).
- Every Java exception the code can throw is an explicit error value of
  a `Result` (`Wrappers`, `JavaError`). Examples are a null dereference,
  a missing child and `NumberFormatException`.
- Visitors that keep state in fields are classes. Their methods are
  proved against the functions that specify each visit.
- Loops stay loops, with invariants.
- Where the code evidently means something other than what it does, the
  model keeps the code as written (`AsWritten`) next to the repaired
  reading (`Repaired`), and proves a property of each (see "## Findings").

Modules, by stage:

- Symbol table and shared lookups:
  - `Ast` holds the tree, the symbol table and the reports.
  - `TypeUtils` types expressions.
  - `Dedup`, `SymbolTableBuilder` and `SymbolTableFacts` build the table.
- Semantic passes:
  - `UndeclaredMethod`, `ThisInStaticMethod`, `NotAnExpression` and
    `ArrayInitIsInt`;
  - `TypeCheck`, `TypeCheckFacts` and `TypeCheckFindings`.
- Tree optimisation:
  - `ConstantFolding`;
  - `ConstantPropagation`, `PropagationFacts`, `PropagationSoundness` and
    `PropagationFindings`;
  - `ConstantPropOpt`, the driver that repeats both passes;
  - `VarargOpt`, `VarargFacts` and `VarargFindings`.
- Lowering to OLLIR:
  - `OptUtils` issues the temporary and label names.
  - `OllirExprGen`, `OllirExprFacts` and `OllirDirectFindings` lower
    expressions.
  - `OllirGen` and `OllirGenFacts` lower statements, methods and classes.
- Register allocation:
  - `Ollir` holds the OLLIR method and its var table.
  - `Liveness`, `LivenessFacts`, `LivenessFixpoint` and `LivenessFindings`
    analyse liveness.
  - `Interference` and `InterferenceFindings` build the interference graph.
  - `Coloring`, `ColoringFacts` and `ColoringFindings` colour it.
  - `RegisterAllocation` runs allocation for each method.
- Stage entry points: `JmmOptimization`.
- Jasmin generation: `JasminUtils` and `JasminGenerator`.

Inputs the Java code reads from its environment are parameters of the
model:

- the compiler's configuration options;
- the key order of the liveness IN map, which the range scan walks;
- the register count;
- the OLLIR class unit that the OLLIR parser would produce.

## Model

| member | source | states |
|---|---|---|
| JavaInt.Wrap | src/main/pt/up/fe/comp2025/optimization/ConstantFolding.java:40-53 | The result differs from the input by a multiple of 2^32, and an input already in the signed 32-bit range is returned unchanged; the range of the result is that of the int32 type. |
| JavaInt.TruncDivRemainder | src/main/pt/up/fe/comp2025/optimization/ConstantFolding.java:52-55 | With Java's quotient, which rounds toward zero, the remainder is smaller than the divisor in magnitude and is zero or has the dividend's sign. |
| JavaInt.DivOverflow | src/main/pt/up/fe/comp2025/optimization/ConstantFolding.java:52-55 | `INT_MIN / -1` wraps around to `INT_MIN`, as on the JVM. |
| JavaInt.DivTruncatesTowardZero | src/main/pt/up/fe/comp2025/optimization/ConstantFolding.java:52-55 | Java division of negative operands rounds toward zero (`-7 / 2 == -3`), unlike Euclidean division. |
| JavaInt.DigitChar | src/main/pt/up/fe/comp2025/optimization/ConstantFolding.java:40 | Every digit value maps to an ASCII decimal digit. |
| JavaInt.NatToDigits | src/main/pt/up/fe/comp2025/optimization/ConstantFolding.java:40 | The decimal spelling of a natural number is non-empty, all ASCII digits and has no leading zero. |
| JavaInt.DigitsRoundTrip | src/main/pt/up/fe/comp2025/optimization/ConstantFolding.java:35-40 | Reading back the decimal spelling of a natural number gives the number. |
| JavaInt.ParseIntToString | src/main/pt/up/fe/comp2025/optimization/ConstantFolding.java:35-40 | `Integer.parseInt(String.valueOf(v)) == v` for every 32-bit `v`: folded literals parse back to the value they were folded to. |
| JavaInt.NatToDigitsInjective | src/main/pt/up/fe/comp2025/optimization/ConstantFolding.java:40 | Different numbers have different decimal spellings. |
| JavaInt.ParseBooleanToString | src/main/pt/up/fe/comp2025/optimization/ConstantFolding.java:73-76 | `Boolean.parseBoolean(String.valueOf(b)) == b`. |
| TypeUtils.LastIndexOf | proj/src/main/pt/up/fe/comp2025/ast/TypeUtils.java:183-185 | The index is -1 or a position holding the character, and no later position holds it. |
| TypeUtils.ShortenImport | proj/src/main/pt/up/fe/comp2025/ast/TypeUtils.java:183-185 | The short name has no '.', is a suffix of the import, and is the whole import when it has no '.'. |
| TypeUtils.ShortenImportIdempotent | proj/src/main/pt/up/fe/comp2025/ast/TypeUtils.java:183-185 | Shortening a short name changes nothing. |
| TypeUtils.ShortNames | proj/src/main/pt/up/fe/comp2025/ast/TypeUtils.java:166-169 | One short name per import, in order. |
| TypeUtils.LookupName | proj/src/main/pt/up/fe/comp2025/ast/TypeUtils.java:127-149 | A symbol is found exactly when the list has one with that name, and its type is the type of the first such symbol. |
| TypeUtils.LocalShadows | proj/src/main/pt/up/fe/comp2025/ast/TypeUtils.java:127-149 | A local variable's type wins over any parameter, field or import of the same name. |
| TypeUtils.ParamShadowsField | proj/src/main/pt/up/fe/comp2025/ast/TypeUtils.java:127-149 | A parameter that no local hides wins over any field or import. |
| TypeUtils.NoMethodLooksAtFieldsAndImports | proj/src/main/pt/up/fe/comp2025/ast/TypeUtils.java:127-149 | Outside a method only fields and then imports are consulted, and the lookup cannot throw. |
| TypeUtils.ParensKeepType | proj/src/main/pt/up/fe/comp2025/ast/TypeUtils.java:79-125 | Any number of parentheses leaves an expression's type unchanged. |
| TypeUtils.LiteralTypes | proj/src/main/pt/up/fe/comp2025/ast/TypeUtils.java:79-125 | Integer literals type as int and boolean literals as boolean; an arithmetic operator types as int, a boolean operator as boolean and any other operator as null, whatever the symbol table holds. |
| TypeUtils.MethodExistsOnThis | proj/src/main/pt/up/fe/comp2025/ast/TypeUtils.java:151-164 | When the class's own name is not an imported short name, a call on `this` exists exactly when the method is declared or the class has a superclass. |
| TypeUtils.CompatibilityReflexive | proj/src/main/pt/up/fe/comp2025/ast/TypeUtils.java:175-181 | Every type is compatible with itself. |
| TypeUtils.CompatibilityToSuperOnly | proj/src/main/pt/up/fe/comp2025/ast/TypeUtils.java:175-181 | The own class may be assigned to its superclass but not the superclass to the own class. |
| TypeUtils.StaticAccessNeedsStaticVar | proj/src/main/pt/up/fe/comp2025/ast/TypeUtils.java:187-200 | Only a variable can be a static field access, and never inside an instance method. |
| ConstantFolding.ParseIntLiteral | src/main/pt/up/fe/comp2025/optimization/ConstantFolding.java:35-36 | On ASCII digit strings, parsing succeeds exactly when `Integer.parseInt` does, and with its value; otherwise `NumberFormatException`. |
| ConstantFolding.FoldExprs | src/main/pt/up/fe/comp2025/optimization/ConstantFolding.java:29-80 | Folding a list of expressions keeps its length. |
| ConstantFolding.FoldNodeKeepsValue | src/main/pt/up/fe/comp2025/optimization/ConstantFolding.java:32-78 | Folding one binary node whose operands are literals keeps its Java value. |
| ConstantFolding.FoldKeepsValue | src/main/pt/up/fe/comp2025/optimization/ConstantFolding.java:29-80 | A folding pass keeps the Java value of every constant expression that has one. |
| ConstantFolding.FoldNodeFolded | src/main/pt/up/fe/comp2025/optimization/ConstantFolding.java:32-78 | Folding a node whose children are already folded leaves nothing to fold. |
| ConstantFolding.FoldReachesFixpoint | src/main/pt/up/fe/comp2025/optimization/ConstantFolding.java:29-80 | Because children are folded before their parent, one pass leaves no binary node with two literal operands of one kind. |
| ConstantFolding.FoldsReachFixpoint | src/main/pt/up/fe/comp2025/optimization/ConstantFolding.java:29-80 | The same for an expression list. |
| ConstantFolding.FoldIdentityOnFolded | src/main/pt/up/fe/comp2025/optimization/ConstantFolding.java:32-72 | On an expression with nothing to fold, a pass changes nothing and cannot fail (the binary-node visit at line 32 and the rewrite at line 72 are the only places a node changes). |
| ConstantFolding.FoldsIdentityOnFolded | src/main/pt/up/fe/comp2025/optimization/ConstantFolding.java:32-72 | The same for an expression list. |
| ConstantFolding.FoldIdempotent | src/main/pt/up/fe/comp2025/optimization/ConstantFolding.java:29-80 | Folding twice is folding once. |
| ConstantFolding.FoldNodeKeepsVarRefs | src/main/pt/up/fe/comp2025/optimization/ConstantFolding.java:32-78 | Folding one node keeps the number of variable references of its children. |
| ConstantFolding.FoldKeepsVarRefs | src/main/pt/up/fe/comp2025/optimization/ConstantFolding.java:29-80 | Folding neither creates nor removes a variable reference. |
| ConstantFolding.FoldsKeepVarRefs | src/main/pt/up/fe/comp2025/optimization/ConstantFolding.java:29-80 | The same for an expression list. |
| ConstantFolding.FoldStmtKeepsVarRefs | src/main/pt/up/fe/comp2025/optimization/ConstantFolding.java:29-80 | The same for a statement. |
| ConstantFolding.FoldStmtsKeepVarRefs | src/main/pt/up/fe/comp2025/optimization/ConstantFolding.java:29-80 | The same for a statement list. |
| ConstantFolding.FoldMethodsKeepVarRefs | src/main/pt/up/fe/comp2025/optimization/ConstantFolding.java:29-80 | The same for the methods of a class. |
| ConstantFolding.FoldProgramKeepsVarRefs | src/main/pt/up/fe/comp2025/optimization/ConstantFolding.java:29-80 | A whole folding pass keeps the program's count of variable references. |
| ConstantFolding.Folder.constructor | src/main/pt/up/fe/comp2025/optimization/ConstantFolding.java:14-23 | A new folder has its change flag cleared. |
| ConstantFolding.Folder.Reset | src/main/pt/up/fe/comp2025/optimization/ConstantFolding.java:21-23 | Reset clears the change flag. |
| ConstantFolding.Folder.Analyze | src/main/pt/up/fe/comp2025/optimization/ConstantFolding.java:25-80 | The pass gives the folded program, or the folding error. |
| ConstantPropagation.PropExprs | proj/src/main/pt/up/fe/comp2025/optimization/ConstantPropagation.java:93-108 | Propagating through a list of expressions keeps its length. |
| ConstantPropagation.PropStmts | proj/src/main/pt/up/fe/comp2025/optimization/ConstantPropagation.java:48-57 | Propagating through a scope keeps the number of statements. |
| ConstantPropagation.PropMethods | proj/src/main/pt/up/fe/comp2025/optimization/ConstantPropagation.java:112-122 | Propagating through the methods keeps their number. |
| ConstantPropagation.PropExprsPrefixFails | proj/src/main/pt/up/fe/comp2025/optimization/ConstantPropagation.java:93-108 | Once one child throws, the whole visit throws with that exception. |
| ConstantPropagation.PropStmtsPrefixFails | proj/src/main/pt/up/fe/comp2025/optimization/ConstantPropagation.java:48-57 | Once one statement throws, the scope throws with that exception. |
| ConstantPropagation.PropMethodsPrefixFails | proj/src/main/pt/up/fe/comp2025/optimization/ConstantPropagation.java:112-122 | Once one method throws, the pass throws with that exception. |
| ConstantPropagation.Propagator.constructor | proj/src/main/pt/up/fe/comp2025/optimization/ConstantPropagation.java:12-16 | A new pass object has an empty constant map, no current method and a cleared change flag; Java leaves the map null until the first method declaration replaces it with an empty one. |
| ConstantPropagation.Propagator.Reset | proj/src/main/pt/up/fe/comp2025/optimization/ConstantPropagation.java:150-152 | Reset clears the change flag and keeps the map and the current method. |
| ConstantPropagation.Propagator.VisitVarRef | proj/src/main/pt/up/fe/comp2025/optimization/ConstantPropagation.java:93-108 | A variable read gives what the propagation function gives, its error included; the change flag is set exactly when that read substitutes a literal, and the constants map is left alone. |
| ConstantPropagation.Propagator.VisitExpr | proj/src/main/pt/up/fe/comp2025/optimization/ConstantPropagation.java:93-108 | Visiting an expression gives what the specification function gives, changes the flag only by substituting, and leaves the map alone. |
| ConstantPropagation.Propagator.VisitExprs | proj/src/main/pt/up/fe/comp2025/optimization/ConstantPropagation.java:93-108 | The children are visited in order and each is replaced as the specification says; the first exception stops the loop. |
| ConstantPropagation.Propagator.RemoveAll | proj/src/main/pt/up/fe/comp2025/optimization/ConstantPropagation.java:60-69 | The map loses exactly the listed names. |
| ConstantPropagation.Propagator.ForgetTargets | proj/src/main/pt/up/fe/comp2025/optimization/ConstantPropagation.java:60-69 | The names assigned anywhere in the loop body are forgotten before the body is visited. |
| ConstantPropagation.Propagator.VisitStmt | proj/src/main/pt/up/fe/comp2025/optimization/ConstantPropagation.java:32-91 | A statement visit gives the rewritten statement, the new map and the returned names of the specification function, under either rule set. |
| ConstantPropagation.Propagator.VisitStmts | proj/src/main/pt/up/fe/comp2025/optimization/ConstantPropagation.java:48-57 | A scope visit is the specification's visit of its statements, in order. |
| ConstantPropagation.Propagator.VisitMethodDecl | proj/src/main/pt/up/fe/comp2025/optimization/ConstantPropagation.java:112-122 | A method visit starts from an empty map and gives the specification's method. |
| ConstantPropagation.Propagator.Visit | proj/src/main/pt/up/fe/comp2025/optimization/ConstantPropagation.java:112-122 | A whole pass gives the specification's program, map and current method, and sets the change flag exactly when something was substituted. |
| PropagationFacts.ExprProgress | proj/src/main/pt/up/fe/comp2025/optimization/ConstantPropagation.java:93-108 | When the map holds only literals, a visit never adds a variable reference, removes at least one whenever it substitutes, and returns its input unchanged when it does not. |
| PropagationFacts.ExprsProgress | proj/src/main/pt/up/fe/comp2025/optimization/ConstantPropagation.java:93-108 | The same for an expression list. |
| PropagationFacts.AssignUpdateLiterals | proj/src/main/pt/up/fe/comp2025/optimization/ConstantPropagation.java:72-91 | An assignment's update keeps the map holding literals only. |
| PropagationFacts.StmtProgress | proj/src/main/pt/up/fe/comp2025/optimization/ConstantPropagation.java:32-91 | The same progress facts for a statement; the map keeps holding literals only. |
| PropagationFacts.StmtsProgress | proj/src/main/pt/up/fe/comp2025/optimization/ConstantPropagation.java:48-57 | The same for a scope. |
| PropagationFacts.MethodProgress | proj/src/main/pt/up/fe/comp2025/optimization/ConstantPropagation.java:112-122 | The same for a method. |
| PropagationFacts.MethodsProgress | proj/src/main/pt/up/fe/comp2025/optimization/ConstantPropagation.java:112-122 | The same for the methods of a class. |
| PropagationFacts.ProgramProgress | proj/src/main/pt/up/fe/comp2025/optimization/ConstantPropagation.java:112-122 | A pass never adds a variable reference, removes at least one when it reports a change, and leaves the program as it was when it reports none. This is the measure that ends the optimisation loop. |
| PropagationFacts.StmtFrame | proj/src/main/pt/up/fe/comp2025/optimization/ConstantPropagation.java:32-91 | The names a statement visit returns are assigned inside the statement (all of them under the repaired rules), and the map entries of every other name are left alone. |
| PropagationFacts.StmtsFrame | proj/src/main/pt/up/fe/comp2025/optimization/ConstantPropagation.java:48-57 | The same for a scope. |
| PropagationFacts.IfJoinDropsOnly | proj/src/main/pt/up/fe/comp2025/optimization/ConstantPropagation.java:32-46 | After an `if` the map only loses entries of the map it started from. |
| PropagationFacts.IfJoinForgetsBothBranches | proj/src/main/pt/up/fe/comp2025/optimization/ConstantPropagation.java:32-46 | A name both branches assign is dropped after the join, even when both assign the same literal. |
| PropagationFacts.AssignRecordsLiteral | proj/src/main/pt/up/fe/comp2025/optimization/ConstantPropagation.java:72-91 | A literal assigned to a local or parameter is recorded; the right-hand side is left as it is. |
| PropagationFacts.AssignToFieldKeepsMap | proj/src/main/pt/up/fe/comp2025/optimization/ConstantPropagation.java:72-91 | A literal assigned to a name that is neither a local nor a parameter leaves the map alone; the local-or-parameter test is the helper at lines 125-137. |
| PropagationFacts.AssignForgetsNonLiteral | proj/src/main/pt/up/fe/comp2025/optimization/ConstantPropagation.java:72-91 | Any other value removes the target from the map before the right-hand side is visited. |
| PropagationFacts.SelfAssignKept | proj/src/main/pt/up/fe/comp2025/optimization/ConstantPropagation.java:72-108 | `x = x` is never rewritten, whatever the map holds for `x`. |
| PropagationFacts.AssignNeedsVariableTarget | proj/src/main/pt/up/fe/comp2025/optimization/ConstantPropagation.java:72-76 | An assignment whose target is not a variable throws on the missing name attribute. |
| PropagationFacts.ExprSucceeds | proj/src/main/pt/up/fe/comp2025/optimization/ConstantPropagation.java:93-108 | In a method the symbol table knows, visiting an expression cannot throw. |
| PropagationFacts.ExprsSucceed | proj/src/main/pt/up/fe/comp2025/optimization/ConstantPropagation.java:93-108 | The same for an expression list. |
| PropagationFacts.RepairedStmtSucceeds | proj/src/main/pt/up/fe/comp2025/optimization/ConstantPropagation.java:32-91 | Under the repaired rules, a statement whose assignments all have variable targets cannot throw in a method the symbol table knows. |
| PropagationFacts.RepairedStmtsSucceed | proj/src/main/pt/up/fe/comp2025/optimization/ConstantPropagation.java:48-57 | The same for a scope. |
| PropagationSoundness.ExecFrame | proj/src/main/pt/up/fe/comp2025/optimization/ConstantPropagation.java:32-91 | Running a statement changes only the variables assigned inside it. |
| PropagationSoundness.ExecSeqFrame | proj/src/main/pt/up/fe/comp2025/optimization/ConstantPropagation.java:48-57 | The same for a statement list. |
| PropagationSoundness.ExprSound | proj/src/main/pt/up/fe/comp2025/optimization/ConstantPropagation.java:93-108 | Substituting constants that agree with the current state keeps an expression's value. |
| PropagationSoundness.PropExprsElements | proj/src/main/pt/up/fe/comp2025/optimization/ConstantPropagation.java:93-108 | A list visit rewrites element by element. |
| PropagationSoundness.StmtInv | proj/src/main/pt/up/fe/comp2025/optimization/ConstantPropagation.java:32-91 | Both rule sets keep the map holding evaluable literals of locals and parameters only. |
| PropagationSoundness.StmtsInv | proj/src/main/pt/up/fe/comp2025/optimization/ConstantPropagation.java:48-57 | The same for a scope. |
| PropagationSoundness.AssignSound | proj/src/main/pt/up/fe/comp2025/optimization/ConstantPropagation.java:72-91 | A rewritten assignment has the executions of the original, and its map agrees with the state it ends in. |
| PropagationSoundness.StmtSound | proj/src/main/pt/up/fe/comp2025/optimization/ConstantPropagation.java:32-91 | Under the repaired rules a rewritten statement has exactly the executions of the original, and the map it leaves agrees with every state the statement can end in. |
| PropagationSoundness.WhileSoundForward | proj/src/main/pt/up/fe/comp2025/optimization/ConstantPropagation.java:60-69 | For a loop whose map agrees with the environment outside the body's targets, every execution of the loop is one of the rewritten loop. |
| PropagationSoundness.WhileSoundBackward | proj/src/main/pt/up/fe/comp2025/optimization/ConstantPropagation.java:60-69 | Under the same conditions, every execution of the rewritten loop is one of the original loop. |
| PropagationSoundness.StmtsSound | proj/src/main/pt/up/fe/comp2025/optimization/ConstantPropagation.java:48-57 | The same for a scope. |
| PropagationSoundness.MethodSound | proj/src/main/pt/up/fe/comp2025/optimization/ConstantPropagation.java:112-122 | A method rewritten under the repaired rules has the executions of the original, and each return expression keeps its value in every state the statements can end in. |
| PropagationFindings.LoopConstantEscapes | proj/src/main/pt/up/fe/comp2025/optimization/ConstantPropagation.java:60-69 | As written, `x = 5; while (b) x = 1; return x;` returns the literal 1 although a run that skips the loop ends with `x == 5`. |
| PropagationFindings.LoopSkipped | proj/src/main/pt/up/fe/comp2025/optimization/ConstantPropagation.java:60-69 | The run that skips the loop exists. |
| PropagationFindings.LoopConstantRepaired | proj/src/main/pt/up/fe/comp2025/optimization/ConstantPropagation.java:60-69 | Under the repaired rules the same method keeps reading `x`. |
| PropagationFindings.NestedIfConstantEscapes | proj/src/main/pt/up/fe/comp2025/optimization/ConstantPropagation.java:32-57 | As written, `x = 5; if (b) { if (b) { x = 1; } else { } } else { } return x;` returns the literal 5 although a run through both then-branches ends with `x == 1`. |
| PropagationFindings.BothThenBranches | proj/src/main/pt/up/fe/comp2025/optimization/ConstantPropagation.java:32-46 | The run through both then-branches exists. |
| PropagationFindings.NestedIfRepaired | proj/src/main/pt/up/fe/comp2025/optimization/ConstantPropagation.java:32-57 | Under the repaired rules the same method keeps reading `x`. |
| PropagationFindings.ElseIfThrows | proj/src/main/pt/up/fe/comp2025/optimization/ConstantPropagation.java:32-46 | As written, an `else if` chain without braces throws: the inner `if` returns null and the outer one dereferences it. |
| PropagationFindings.ElseIfRepaired | proj/src/main/pt/up/fe/comp2025/optimization/ConstantPropagation.java:32-46 | Under the repaired rules the same chain is propagated without failure. |
| ConstantPropOpt.RoundsEnd | proj/src/main/pt/up/fe/comp2025/optimization/ConstantPropOpt.java:18-27 | In either mode (the propagation pass as written or corrected), the rounds end in a folded program whose last propagation round substituted nothing, and they never add a variable reference. |
| ConstantPropOpt.Optimize | proj/src/main/pt/up/fe/comp2025/optimization/ConstantPropOpt.java:13-29 | In either mode, the do-while loop over the folding and propagation objects leaves the tree the rounds of that mode specify, or fails with their error. |
| VarargOpt.VisitMethodCall | proj/src/main/pt/up/fe/comp2025/optimization/VarargOpt.java:30-69 | The call is rewritten as the specification decides: when it is packed, the arguments from the vararg position on are moved, in order, into one array initialiser appended as the last argument; otherwise it is left alone. |
| VarargFacts.PackedRestores | proj/src/main/pt/up/fe/comp2025/optimization/VarargOpt.java:54-68 | Packing keeps the fixed arguments in place and moves the rest, in order, into the initialiser, losing none. |
| VarargFacts.ExactFixedArityGetsEmptyArray | proj/src/main/pt/up/fe/comp2025/optimization/VarargOpt.java:54-68 | A call with exactly the fixed arguments gains an empty initialiser. |
| VarargFacts.PackCallShape | proj/src/main/pt/up/fe/comp2025/optimization/VarargOpt.java:41-56 | When a call is packed, packing starts at the position of the vararg parameter, which is the last parameter. |
| VarargFacts.OtherClassUntouched | proj/src/main/pt/up/fe/comp2025/optimization/VarargOpt.java:41-44 | Calls on objects of other classes are never touched. |
| VarargFacts.PackedNotRepacked | proj/src/main/pt/up/fe/comp2025/optimization/VarargOpt.java:41-68 | A call packed with all its fixed arguments present is left alone by a second pass. |
| VarargFacts.TooFewArgumentsRepacked | proj/src/main/pt/up/fe/comp2025/optimization/VarargOpt.java:41-68 | With two or more fixed arguments missing the call is packed again by a second pass: as written the pass is not idempotent on calls the type check rejects. |
| VarargFacts.RepairedSkipsUnknownMethod | proj/src/main/pt/up/fe/comp2025/optimization/VarargOpt.java:48-51 | The repaired decision skips a call to a method the table does not list instead of dereferencing null. |
| VarargFacts.RepairedKeepsArrayArgument | proj/src/main/pt/up/fe/comp2025/optimization/VarargOpt.java:54 | The repaired decision passes an argument already typed as an array straight through. |
| VarargFacts.ModesAgreeOnLiteralArrays | proj/src/main/pt/up/fe/comp2025/optimization/VarargOpt.java:41-68 | The two decisions differ only on an unlisted method, or on a last argument that may be an array without being an initialiser. |
| VarargFacts.VarargKeepsCalls | proj/src/main/pt/up/fe/comp2025/optimization/VarargOpt.java:22-27 | Packing creates and drops no call. |
| VarargFacts.VarargKeepsType | proj/src/main/pt/up/fe/comp2025/optimization/VarargOpt.java:22-69 | The pass changes the type of no expression. |
| VarargFindings.InheritedCallAccepted | proj/src/main/pt/up/fe/comp2025/optimization/VarargOpt.java:48-51 | The semantic passes accept `this.g()` with `g` inherited from the superclass. |
| VarargFindings.InheritedCallThrows | proj/src/main/pt/up/fe/comp2025/optimization/VarargOpt.java:48-51 | As written the pass then looks up `g`'s parameters, gets null and dereferences it. |
| VarargFindings.InheritedCallRepaired | proj/src/main/pt/up/fe/comp2025/optimization/VarargOpt.java:48-51 | The repaired pass leaves that call alone. |
| VarargFindings.ArrayArgumentWrapped | proj/src/main/pt/up/fe/comp2025/optimization/VarargOpt.java:54-68 | As written, passing an array variable to a vararg parameter wraps it into a new initialiser, whose elements must be int. |
| VarargFindings.ArrayArgumentRepaired | proj/src/main/pt/up/fe/comp2025/optimization/VarargOpt.java:54 | The repaired pass hands the array over unchanged. |
| Ollir.Ids | src/main/pt/up/fe/comp2025/optimization/LiveLinessAnalyser.java:28-40 | Every instruction's id is in the set. |
| Ollir.IdsOnlyIds | src/main/pt/up/fe/comp2025/optimization/LiveLinessAnalyser.java:28-40 | Every id in the set belongs to some instruction. |
| Ollir.Lookup | src/main/pt/up/fe/comp2025/optimization/LiveLinessAnalyser.java:224-228 | `varTable.get` finds a descriptor exactly when some entry has the name, and then it is that entry's descriptor. |
| Ollir.LookupAt | src/main/pt/up/fe/comp2025/optimization/LiveLinessAnalyser.java:224-228 | With distinct names, each entry is found by its own name. |
| Ollir.Put | proj/src/main/pt/up/fe/comp2025/optimization/graph_utils/GraphColoringAlgorithm.java:271-273 | `varTable.put` leaves every other name's lookup as it was, keeps the names distinct, and never shrinks the table. |
| Ollir.PutLookup | proj/src/main/pt/up/fe/comp2025/optimization/graph_utils/GraphColoringAlgorithm.java:271-273 | After a put the name finds the new descriptor. |
| Liveness.LocalName | src/main/pt/up/fe/comp2025/optimization/LiveLinessAnalyser.java:217-228 | An operand contributes at most one name, and only a local variable of the var table. |
| Liveness.LocalNames | src/main/pt/up/fe/comp2025/optimization/LiveLinessAnalyser.java:204-215 | The call operands that are local variables, in order. |
| Liveness.ElementUses | src/main/pt/up/fe/comp2025/optimization/LiveLinessAnalyser.java:132-215 | An operand reads only local variables. |
| Liveness.ElementsUses | src/main/pt/up/fe/comp2025/optimization/LiveLinessAnalyser.java:132-215 | A list of operands reads only local variables; as written it reads exactly the names of its local operands. |
| Liveness.VarsDefined | src/main/pt/up/fe/comp2025/optimization/LiveLinessAnalyser.java:105-114 | Only an assignment defines a name, and that name is a local variable; a destination that is not a plain operand defines one only as written; the call throws exactly on an assignment to a literal. |
| Liveness.VarsUsed | src/main/pt/up/fe/comp2025/optimization/LiveLinessAnalyser.java:116-215 | Every name used is a local variable, and the call throws exactly when it reaches an LDC operand. |
| Liveness.DefUse | src/main/pt/up/fe/comp2025/optimization/LiveLinessAnalyser.java:28-40 | On success, the def and use maps are keyed by exactly the instruction ids. |
| Liveness.DefUseLocals | src/main/pt/up/fe/comp2025/optimization/LiveLinessAnalyser.java:28-40 | Only local variables are defined or used. |
| Liveness.DefUsePrefixFails | src/main/pt/up/fe/comp2025/optimization/LiveLinessAnalyser.java:28-40 | Once one instruction's def or use fails, the whole loop fails with that error. |
| Liveness.EmptyIn | src/main/pt/up/fe/comp2025/optimization/LiveLinessAnalyser.java:28-40 | An empty IN list for every instruction id. |
| Liveness.EmptyOut | src/main/pt/up/fe/comp2025/optimization/LiveLinessAnalyser.java:28-40 | An empty OUT list for every instruction id. |
| Liveness.PassTrace | src/main/pt/up/fe/comp2025/optimization/LiveLinessAnalyser.java:47-69 | The recorded trace of a pass starts with the whole pass. |
| Liveness.StepIs | src/main/pt/up/fe/comp2025/optimization/LiveLinessAnalyser.java:47-69 | The step computed piece by piece, as the loop body does, is the step function. |
| Liveness.InitialReady | src/main/pt/up/fe/comp2025/optimization/LiveLinessAnalyser.java:28-40 | After a successful first loop every map is keyed by every instruction id. |
| Liveness.StepOnEmpty | src/main/pt/up/fe/comp2025/optimization/LiveLinessAnalyser.java:47-69 | A step on an instruction whose old IN and OUT are empty reports no change. |
| Liveness.EmptyStep | src/main/pt/up/fe/comp2025/optimization/LiveLinessAnalyser.java:47-69 | A step at position `i` keeps the positions below `i` empty and reports no change. |
| Liveness.FirstPassReportsNoChange | src/main/pt/up/fe/comp2025/optimization/LiveLinessAnalyser.java:42-86 | As written, no step of the first pass reports a change, so the do-while loop stops after one pass. |
| Liveness.LivenessAnalyser.constructor | src/main/pt/up/fe/comp2025/optimization/LiveLinessAnalyser.java:20-26 | A new analyser has empty maps. |
| Liveness.LivenessAnalyser.InVarsSuccessors | src/main/pt/up/fe/comp2025/optimization/LiveLinessAnalyser.java:91-103 | The result is the union of the IN lists of the instruction's successors. |
| Liveness.LivenessAnalyser.Initialise | src/main/pt/up/fe/comp2025/optimization/LiveLinessAnalyser.java:28-40 | The first loop puts empty IN and OUT lists and the def and use of every instruction, or stops with the first error. |
| Liveness.LivenessAnalyser.UpdateInstruction | src/main/pt/up/fe/comp2025/optimization/LiveLinessAnalyser.java:47-69 | The loop body for one instruction sets its OUT and IN as the step function does and reports the step's change test. |
| Liveness.LivenessAnalyser.BackwardPass | src/main/pt/up/fe/comp2025/optimization/LiveLinessAnalyser.java:47-69 | One run of the do-while body visits every instruction in reverse order and leaves the state of the pass function. |
| Liveness.LivenessAnalyser.ComputeAnalysis | src/main/pt/up/fe/comp2025/optimization/LiveLinessAnalyser.java:27-89 | The analysis leaves the state of the initialisation followed by one pass, since the change test as written ends the loop after the first pass. |
| LivenessFacts.PassDownKeys | src/main/pt/up/fe/comp2025/optimization/LiveLinessAnalyser.java:47-69 | A pass adds no key and drops none. |
| LivenessFacts.AnalysisLocals | src/main/pt/up/fe/comp2025/optimization/LiveLinessAnalyser.java:27-89 | The analysis keys IN and OUT by instruction id and lists only local variables. |
| LivenessFacts.StepOther | src/main/pt/up/fe/comp2025/optimization/LiveLinessAnalyser.java:47-69 | A step changes only its own instruction's entries. |
| LivenessFacts.PassDownAt | src/main/pt/up/fe/comp2025/optimization/LiveLinessAnalyser.java:47-69 | The pass at position `k` is the step of instruction `k` on the pass below it. |
| LivenessFacts.PassDownOther | src/main/pt/up/fe/comp2025/optimization/LiveLinessAnalyser.java:47-69 | Passing position `k` leaves every other id's entries alone. |
| LivenessFacts.Stable | src/main/pt/up/fe/comp2025/optimization/LiveLinessAnalyser.java:47-69 | Once the pass is below position `j`, the entries of instruction `j` change no more. |
| LivenessFacts.EquationAt | src/main/pt/up/fe/comp2025/optimization/LiveLinessAnalyser.java:47-69 | After the pass an instruction satisfies the dataflow equations when every successor at or above it already had its final IN. |
| LivenessFacts.ForwardSettled | src/main/pt/up/fe/comp2025/optimization/LiveLinessAnalyser.java:47-69 | Without back edges every successor is settled. |
| LivenessFacts.ForwardSolution | src/main/pt/up/fe/comp2025/optimization/LiveLinessAnalyser.java:47-69 | Without back edges one pass solves the equations. |
| LivenessFacts.AnalysisSolvesForward | src/main/pt/up/fe/comp2025/optimization/LiveLinessAnalyser.java:27-89 | On a method without loops the single pass as written solves the equations for every instruction. |
| LivenessFixpoint.QuietStep | src/main/pt/up/fe/comp2025/optimization/LiveLinessAnalyser.java:64-69 | A step whose repaired change test reports nothing leaves every IN list as it was. |
| LivenessFixpoint.NoChangeKeepsIn | src/main/pt/up/fe/comp2025/optimization/LiveLinessAnalyser.java:64-69 | A pass whose repaired test reports no change leaves every IN list alone. |
| LivenessFixpoint.ChangedIff | src/main/pt/up/fe/comp2025/optimization/LiveLinessAnalyser.java:64-69 | The repaired test reports a change exactly when the pass changes some instruction's IN list. |
| LivenessFixpoint.QuietPassSolves | src/main/pt/up/fe/comp2025/optimization/LiveLinessAnalyser.java:42-86 | After a pass that changes no IN list every instruction satisfies the equations. |
| LivenessFixpoint.SolutionFixed | src/main/pt/up/fe/comp2025/optimization/LiveLinessAnalyser.java:47-69 | A pass from a solution computes the same IN lists. |
| LivenessFixpoint.BelowSolution | src/main/pt/up/fe/comp2025/optimization/LiveLinessAnalyser.java:47-69 | A pass from below a solution stays below it. |
| LivenessFixpoint.MissingShrinks | src/main/pt/up/fe/comp2025/optimization/LiveLinessAnalyser.java:47-69 | Growing the IN lists removes pairs from the set of missing pairs, and growing one of them strictly removes at least one. |
| LivenessFixpoint.PassKeepsInvariant | src/main/pt/up/fe/comp2025/optimization/LiveLinessAnalyser.java:47-69 | A pass keeps the loop invariant. |
| LivenessFixpoint.PassMeasure | src/main/pt/up/fe/comp2025/optimization/LiveLinessAnalyser.java:42-86 | A pass that reports a change shrinks the missing set; one that does not keeps it. |
| LivenessFixpoint.Turn | src/main/pt/up/fe/comp2025/optimization/LiveLinessAnalyser.java:42-86 | One turn of the repaired loop keeps the invariant and either shrinks the missing set or stops. |
| LivenessFixpoint.Stopped | src/main/pt/up/fe/comp2025/optimization/LiveLinessAnalyser.java:42-86 | When the loop stops its state is the least solution of the equations and lists only local variables. |
| LivenessFixpoint.ComputeFixpoint | src/main/pt/up/fe/comp2025/optimization/LiveLinessAnalyser.java:27-89 | With the repaired rules and change test, repeating the pass until it reports no change ends, fails exactly when def/use fails, and gives the least solution of the liveness equations. |
| LivenessFindings.RepairedUsesAreReads | src/main/pt/up/fe/comp2025/optimization/LiveLinessAnalyser.java:116-215 | The repaired uses of an instruction are exactly the local variables it reads. |
| LivenessFindings.RepairedDefinesAssignedLocal | src/main/pt/up/fe/comp2025/optimization/LiveLinessAnalyser.java:105-114 | The repaired rule defines a name exactly when the instruction assigns that local itself. |
| LivenessFindings.NegatedBranchUseDropped | src/main/pt/up/fe/comp2025/optimization/LiveLinessAnalyser.java:140-145 | A negated branch on a local `c` uses nothing as written, and `c` under the repaired rule. |
| LivenessFindings.ArrayStoreDefinesArray | src/main/pt/up/fe/comp2025/optimization/LiveLinessAnalyser.java:105-114 | As written a store into `a[i]` defines `a` and does not use it; under the repaired rule it uses `a`, `i` and the value and defines nothing (the ArrayOperand case of the use computation, lines 200-202, adds nothing). |
| LivenessFindings.CounterBackEdgeMissed | src/main/pt/up/fe/comp2025/optimization/LiveLinessAnalyser.java:42-86 | In a counting loop, as written, the counter is live into the loop test but not out of the increment that jumps back to it. |
| Interference.IntersectsSymmetric | proj/src/main/pt/up/fe/comp2025/optimization/graph_utils/Node.java:64-81 | Whether two nodes' ranges intersect does not depend on which node asks. |
| Interference.TouchingAndEmpty | proj/src/main/pt/up/fe/comp2025/optimization/graph_utils/Node.java:64-81 | Ranges that only touch do not overlap, and a node with no range interferes with nothing. |
| Interference.CoverOverlap | proj/src/main/pt/up/fe/comp2025/optimization/graph_utils/Node.java:64-81 | Two ranges that cover the same id overlap. |
| Interference.Colored | proj/src/main/pt/up/fe/comp2025/optimization/graph_utils/Node.java:54-62 | A node is listed exactly when it is an edge destination with a colour, and there are no more entries than edges. |
| Interference.ColoredDistinct | proj/src/main/pt/up/fe/comp2025/optimization/graph_utils/Node.java:54-62 | Removing uncoloured destinations keeps the rest in order and without repetition. |
| Interference.ColoredNeighbours | proj/src/main/pt/up/fe/comp2025/optimization/graph_utils/Node.java:54-62 | The loop returns exactly the coloured neighbours in edge order. |
| Interference.IntersectsRanges | proj/src/main/pt/up/fe/comp2025/optimization/graph_utils/Node.java:64-81 | The nested loops return true exactly when some range of one node overlaps some range of the other. |
| Interference.Coverage | proj/src/main/pt/up/fe/comp2025/optimization/graph_utils/InterferenceGraph.java:63-93 | An id is covered by one of a variable's ranges exactly when the variable is live at its end (`LiveAtEnd`): as written, when it is in the id's OUT set; repaired, also when the id's instruction defines it. |
| Interference.LiveTogetherIntersect | proj/src/main/pt/up/fe/comp2025/optimization/graph_utils/InterferenceGraph.java:63-93 | Two variables live at the end of the same instruction have intersecting ranges. |
| Interference.RangesOrdered | proj/src/main/pt/up/fe/comp2025/optimization/graph_utils/InterferenceGraph.java:63-93 | For increasing ids a variable's ranges are non-empty, ordered and disjoint. |
| Interference.LivenessRanges | proj/src/main/pt/up/fe/comp2025/optimization/graph_utils/InterferenceGraph.java:63-93 | The scan over the ids gives the range function, closing a range still open at the id count. |
| Interference.PutNode | proj/src/main/pt/up/fe/comp2025/optimization/graph_utils/InterferenceGraph.java:45-61 | `nodes.put` replaces the node of the same register in place or appends it. |
| Interference.NodesOf | proj/src/main/pt/up/fe/comp2025/optimization/graph_utils/InterferenceGraph.java:45-61 | The nodes have distinct registers, no edges, the colour mark set, and the liveness ranges of their variables. |
| Interference.PutKeeps | proj/src/main/pt/up/fe/comp2025/optimization/graph_utils/InterferenceGraph.java:45-61 | Putting a node keeps the nodes of other registers. |
| Interference.NodesFromTable | proj/src/main/pt/up/fe/comp2025/optimization/graph_utils/InterferenceGraph.java:45-61 | Every node carries the name and register of a LOCAL entry of the var table. |
| Interference.NodesComplete | proj/src/main/pt/up/fe/comp2025/optimization/graph_utils/InterferenceGraph.java:45-61 | Every LOCAL entry has a node, unless a later LOCAL entry has its register. |
| Interference.NodesAscending | proj/src/main/pt/up/fe/comp2025/optimization/graph_utils/InterferenceGraph.java:45-61 | When the var table lists its LOCAL registers in increasing order, the nodes come out by increasing register, the order in which the Java map of small register keys is walked. |
| Interference.InterferenceGraph.constructor | proj/src/main/pt/up/fe/comp2025/optimization/graph_utils/InterferenceGraph.java:20-26 | The graph copies the var table and staticness, holds the nodes of the var table with the edges WithEdges gives, all present, and is well-formed. |
| Interference.InterferenceGraph.ComputeEdges | proj/src/main/pt/up/fe/comp2025/optimization/graph_utils/InterferenceGraph.java:28-43 | From nodes without edges, the edges become those of WithEdges, which EdgesExact describes: one each way for every pair of nodes whose ranges intersect. |
| Interference.InterferenceGraph.EdgesFrom | proj/src/main/pt/up/fe/comp2025/optimization/graph_utils/InterferenceGraph.java:28-43 | One turn of the outer loop adds the pairs `(i, j)` for every `j` above `i`. |
| Interference.GraphNodes | proj/src/main/pt/up/fe/comp2025/optimization/graph_utils/InterferenceGraph.java:45-61 | The constructor's loop over the var table gives the node function. |
| Interference.NeighboursInRange | proj/src/main/pt/up/fe/comp2025/optimization/graph_utils/InterferenceGraph.java:28-43 | Every edge points inside the graph. |
| Interference.UpFacts | proj/src/main/pt/up/fe/comp2025/optimization/graph_utils/InterferenceGraph.java:28-43 | A node is in an edge list exactly when it is in range and interferes with its owner, and the list increases strictly. |
| InterferenceFindings.DeadStoreNoEdge | proj/src/main/pt/up/fe/comp2025/optimization/graph_utils/InterferenceGraph.java:63-93 | As written, a local assigned and never read gets no liveness range, so it interferes with nothing, not even a local live across its store. |
| InterferenceFindings.DeadStoreRepairedEdge | proj/src/main/pt/up/fe/comp2025/optimization/graph_utils/InterferenceGraph.java:63-93 | Repaired, the same store gives the local the range of its own instruction, which meets the range of the live local. |
| InterferenceFindings.DeadStoreInterferes | proj/src/main/pt/up/fe/comp2025/optimization/graph_utils/InterferenceGraph.java:63-93 | Repaired, on any method: a local defined by an instruction at whose end another local is live has ranges intersecting that local's. |
| Interference.EdgesExact | proj/src/main/pt/up/fe/comp2025/optimization/graph_utils/InterferenceGraph.java:28-43 | Each node's edges are, in increasing order and without repetition, exactly the other nodes whose ranges intersect its own; no node is its own neighbour. |
| Coloring.NumberedCounts | proj/src/main/pt/up/fe/comp2025/optimization/graph_utils/GraphColoringAlgorithm.java:69-90 | Numbering a scope moves the next register on by that scope's entries, and moves the base too for parameters. |
| Coloring.NumberedAt | proj/src/main/pt/up/fe/comp2025/optimization/graph_utils/GraphColoringAlgorithm.java:69-90 | The i-th entry of a numbered scope gets the starting register plus the number of entries before it. |
| Coloring.FixedCounts | proj/src/main/pt/up/fe/comp2025/optimization/graph_utils/GraphColoringAlgorithm.java:56-90 | The base covers `this` in an instance method and the parameters, and the field entries follow. |
| Coloring.FixedParameter | proj/src/main/pt/up/fe/comp2025/optimization/graph_utils/GraphColoringAlgorithm.java:67-78 | Parameters get consecutive registers in table order, from 0 in a static method and from 1 otherwise. |
| Coloring.FixedField | proj/src/main/pt/up/fe/comp2025/optimization/graph_utils/GraphColoringAlgorithm.java:80-90 | Field entries get consecutive registers in table order, right after the parameters. |
| Coloring.FixedThis | proj/src/main/pt/up/fe/comp2025/optimization/graph_utils/GraphColoringAlgorithm.java:56-65 | In an instance method `this` is in register 0. |
| Coloring.FixedOnly | proj/src/main/pt/up/fe/comp2025/optimization/graph_utils/GraphColoringAlgorithm.java:56-90 | Nothing but `this`, the parameters and the field entries enters the table before colouring. |
| Coloring.AssignFixed | proj/src/main/pt/up/fe/comp2025/optimization/graph_utils/GraphColoringAlgorithm.java:56-90 | The three loops over the var table give the fixed registers of the specification. |
| Coloring.NumberScope | proj/src/main/pt/up/fe/comp2025/optimization/graph_utils/GraphColoringAlgorithm.java:69-90 | One numbering loop gives the numbering function. |
| Coloring.Sweep | proj/src/main/pt/up/fe/comp2025/optimization/graph_utils/GraphColoringAlgorithm.java:114-145 | A sweep changes only colour marks, moves nodes from the map to the stack one for one, reports a removal exactly when it pushed a node, and changes nothing when it pushes nothing. |
| Coloring.Simplify | proj/src/main/pt/up/fe/comp2025/optimization/graph_utils/GraphColoringAlgorithm.java:114-145 | Simplification keeps the shape of the work and changes only colour marks. |
| Coloring.SimplifyStops | proj/src/main/pt/up/fe/comp2025/optimization/graph_utils/GraphColoringAlgorithm.java:114-145 | When simplification stops, every eligible node still in the map has at least as many coloured neighbours as there are colours. |
| Coloring.StuckBound | proj/src/main/pt/up/fe/comp2025/optimization/graph_utils/GraphColoringAlgorithm.java:147-166 | A failed attempt had no more colours than the longest edge list, which bounds the minimisation retries. |
| Coloring.SweepGraph | proj/src/main/pt/up/fe/comp2025/optimization/graph_utils/GraphColoringAlgorithm.java:114-145 | The iterator loop over the node map gives the sweep function. |
| Coloring.SimplifyGraph | proj/src/main/pt/up/fe/comp2025/optimization/graph_utils/GraphColoringAlgorithm.java:114-145 | The do-while loop gives the simplification function. |
| Coloring.FindUncolourable | proj/src/main/pt/up/fe/comp2025/optimization/graph_utils/GraphColoringAlgorithm.java:147-166 | The loop finds a node left in the map exactly when there is one. |
| Coloring.FreeFrom | proj/src/main/pt/up/fe/comp2025/optimization/graph_utils/GraphColoringAlgorithm.java:171-231 | The colour found is at or above the start and is not taken by a neighbour, and every colour between the start and it is. |
| Coloring.Pop | proj/src/main/pt/up/fe/comp2025/optimization/graph_utils/GraphColoringAlgorithm.java:171-231 | One turn of the colouring loop keeps the phase well-formed, and a turn that goes on reduces the work pending. |
| Coloring.ColorPhase | proj/src/main/pt/up/fe/comp2025/optimization/graph_utils/GraphColoringAlgorithm.java:171-231 | The colouring loop keeps the phase well-formed. |
| Coloring.IsBlocked | proj/src/main/pt/up/fe/comp2025/optimization/graph_utils/GraphColoringAlgorithm.java:199-209 | The loop reports a colour blocked exactly when some coloured neighbour has it. |
| Coloring.FreeColour | proj/src/main/pt/up/fe/comp2025/optimization/graph_utils/GraphColoringAlgorithm.java:197-218 | The loop returns the first free colour in register order, or none. |
| Coloring.ColorNodes | proj/src/main/pt/up/fe/comp2025/optimization/graph_utils/GraphColoringAlgorithm.java:171-231 | The colouring loop over the graph gives the colouring function, and `ok` is false exactly where the source returns. |
| Coloring.PopNode | proj/src/main/pt/up/fe/comp2025/optimization/graph_utils/GraphColoringAlgorithm.java:171-231 | One turn over the graph gives the turn function. |
| Coloring.AssignLeftovers | proj/src/main/pt/up/fe/comp2025/optimization/graph_utils/GraphColoringAlgorithm.java:237-269 | Step 6 succeeds exactly when the leftovers function does, with its lists and table. |
| Coloring.LeftoversFail | proj/src/main/pt/up/fe/comp2025/optimization/graph_utils/GraphColoringAlgorithm.java:237-269 | Once step 6 stops, it stays stopped. |
| Coloring.CommitTable | proj/src/main/pt/up/fe/comp2025/optimization/graph_utils/GraphColoringAlgorithm.java:271-273 | The write-back gives the var table the commit function describes. |
| Coloring.Attempt | proj/src/main/pt/up/fe/comp2025/optimization/graph_utils/GraphColoringAlgorithm.java:10-310 | An attempt retries only with minimisation, on a graph of the same shape and edge bound, with a retry count that is defined. |
| Coloring.Compute | proj/src/main/pt/up/fe/comp2025/optimization/graph_utils/GraphColoringAlgorithm.java:10-310 | `compute` over the graph object gives the specification's result. |
| Coloring.RetryCompute | proj/src/main/pt/up/fe/comp2025/optimization/graph_utils/GraphColoringAlgorithm.java:147-166 | The retry runs on the graph the failed attempt left behind as written, or on the graph it started from when repaired. |
| Coloring.AttemptOnce | proj/src/main/pt/up/fe/comp2025/optimization/graph_utils/GraphColoringAlgorithm.java:10-166 | The body up to the recursive call gives the attempt function, and `retry` is true where the source recurses. |
| Coloring.SetUpColours | proj/src/main/pt/up/fe/comp2025/optimization/graph_utils/GraphColoringAlgorithm.java:93-105 | Step 4 sets the first colour register, and the colour map gets `k` empty colours, more with minimisation. |
| Coloring.FinishGraph | proj/src/main/pt/up/fe/comp2025/optimization/graph_utils/GraphColoringAlgorithm.java:171-273 | Colouring, step 6 and the write-back give the table the finishing function describes. |
| ColoringFacts.SimplifyStacked | proj/src/main/pt/up/fe/comp2025/optimization/graph_utils/GraphColoringAlgorithm.java:114-145 | Simplification keeps the stack free of repeats, and the stack holds exactly the nodes the map lost. |
| ColoringFacts.LiftSound | proj/src/main/pt/up/fe/comp2025/optimization/graph_utils/GraphColoringAlgorithm.java:171-231 | Lifting the top node keeps the invariant, except that the node is no longer on the stack. |
| ColoringFacts.ColourSound | proj/src/main/pt/up/fe/comp2025/optimization/graph_utils/GraphColoringAlgorithm.java:171-231 | A node that takes a free colour keeps the invariant. |
| ColoringFacts.ColourNoClash | proj/src/main/pt/up/fe/comp2025/optimization/graph_utils/GraphColoringAlgorithm.java:171-231 | The chosen colour is free: no coloured neighbour has it. |
| ColoringFacts.PopSound | proj/src/main/pt/up/fe/comp2025/optimization/graph_utils/GraphColoringAlgorithm.java:171-231 | Every turn changes only colour marks, a turn that goes on keeps the invariant, and with minimisation every turn goes on. |
| ColoringFacts.ColorPhaseSound | proj/src/main/pt/up/fe/comp2025/optimization/graph_utils/GraphColoringAlgorithm.java:171-231 | The colouring loop keeps the invariant and ends with an empty stack when it finishes; with minimisation it always finishes. |
| ColoringFacts.LeftoversMinimize | proj/src/main/pt/up/fe/comp2025/optimization/graph_utils/GraphColoringAlgorithm.java:237-269 | With minimisation step 6 never stops. |
| ColoringFacts.LeftoversKeep | proj/src/main/pt/up/fe/comp2025/optimization/graph_utils/GraphColoringAlgorithm.java:237-269 | Step 6 gives a register to every LOCAL entry other than `this` and keeps every name the new table already has. |
| ColoringFacts.CommitLookup | proj/src/main/pt/up/fe/comp2025/optimization/graph_utils/GraphColoringAlgorithm.java:271-273 | After the write-back a name of the new table has its new descriptor and any other name keeps the old one. |
| ColoringFacts.FixedDistinct | proj/src/main/pt/up/fe/comp2025/optimization/graph_utils/GraphColoringAlgorithm.java:56-90 | The table of fixed registers names each variable once. |
| ColoringFacts.ColourOf | proj/src/main/pt/up/fe/comp2025/optimization/graph_utils/GraphColoringAlgorithm.java:171-273 | An eligible node ends with the register of its colour. |
| ColoringFacts.Apart | proj/src/main/pt/up/fe/comp2025/optimization/graph_utils/GraphColoringAlgorithm.java:171-231 | Interfering nodes never share a colour. |
| ColoringFacts.FinishProper | proj/src/main/pt/up/fe/comp2025/optimization/graph_utils/GraphColoringAlgorithm.java:171-273 | An attempt that gets past simplification either leaves the var table alone or gives every coloured local a register that no interfering local has. |
| ColoringFacts.FirstRises | proj/src/main/pt/up/fe/comp2025/optimization/graph_utils/GraphColoringAlgorithm.java:93-105 | The first colour register only rises with `k`. |
| ColoringFacts.FirstAboveBase | proj/src/main/pt/up/fe/comp2025/optimization/graph_utils/GraphColoringAlgorithm.java:93-105 | With a non-negative `k` no local gets a register below the base, so `this` and the parameters keep their registers. |
| ColoringFacts.RunProper | proj/src/main/pt/up/fe/comp2025/optimization/graph_utils/GraphColoringAlgorithm.java:10-310 | With the retry repaired, `compute` on the graph as built gives a proper allocation whenever it changes the var table, and with minimisation it always changes it. |
| ColoringFacts.AttemptRetries | proj/src/main/pt/up/fe/comp2025/optimization/graph_utils/GraphColoringAlgorithm.java:147-166 | With minimisation, an attempt that leaves a node in the map retries on the graph as simplification left it. |
| ColoringFacts.AttemptStuck | proj/src/main/pt/up/fe/comp2025/optimization/graph_utils/GraphColoringAlgorithm.java:147-166 | An attempt that leaves a node in the map retries or leaves the var table alone. |
| ColoringFacts.AttemptProper | proj/src/main/pt/up/fe/comp2025/optimization/graph_utils/GraphColoringAlgorithm.java:10-310 | One attempt from the graph as built that does not retry gives a proper allocation or leaves the table alone. |
| ColoringFacts.SimplifiedProper | proj/src/main/pt/up/fe/comp2025/optimization/graph_utils/GraphColoringAlgorithm.java:114-273 | Colouring what simplification leaves of the graph as built gives that graph a proper allocation. |
| ColoringFindings.AsWrittenRetries | proj/src/main/pt/up/fe/comp2025/optimization/graph_utils/GraphColoringAlgorithm.java:147-166 | On a four-node example, as written, the attempts with `k` = 0, 1 and 2 fail and the last one runs on the graph that the attempt with `k` = 2 left. |
| ColoringFindings.AsWrittenClash | proj/src/main/pt/up/fe/comp2025/optimization/graph_utils/GraphColoringAlgorithm.java:147-166 | As written, minimising allocation puts the interfering `c` and `d` in the same register. |
| ColoringFindings.RepairedProper | proj/src/main/pt/up/fe/comp2025/optimization/graph_utils/GraphColoringAlgorithm.java:147-166 | Retrying on the graph the attempt started from gives the same method a proper allocation. |
| ColoringFindings.StepSix | proj/src/main/pt/up/fe/comp2025/optimization/graph_utils/GraphColoringAlgorithm.java:237-269 | On the example, step 6 finds `d` without a register and gives it colour 0, the register of `c`. |
| ColoringFindings.SharedRegister | proj/src/main/pt/up/fe/comp2025/optimization/graph_utils/GraphColoringAlgorithm.java:271-273 | The write-back leaves `c` and `d` both in register 0. |
| RegisterAllocation.AllocateMethod | proj/src/main/pt/up/fe/comp2025/optimization/RegisterAllocationOpt.java:28-35 | A successful allocation keeps the method's name, staticness and instructions. |
| RegisterAllocation.Outcomes | proj/src/main/pt/up/fe/comp2025/optimization/RegisterAllocationOpt.java:28-35 | One allocation outcome per method, each for that method alone. |
| RegisterAllocation.OutcomeAt | proj/src/main/pt/up/fe/comp2025/optimization/RegisterAllocationOpt.java:28-35 | The outcome for the method at position `i` is the allocation of that method alone. |
| RegisterAllocation.Apply | proj/src/main/pt/up/fe/comp2025/optimization/RegisterAllocationOpt.java:28-35 | The loop yields one method per input method; ApplyShape says which. |
| RegisterAllocation.AllocateAll | proj/src/main/pt/up/fe/comp2025/optimization/RegisterAllocationOpt.java:18-37 | The pass yields one method per input method; AllocateAllKeeps says what each becomes. |
| RegisterAllocation.ApplyShape | proj/src/main/pt/up/fe/comp2025/optimization/RegisterAllocationOpt.java:28-35 | The loop fails exactly when some outcome fails, and then with the first failure; earlier methods take their outcomes and later ones are left alone. |
| RegisterAllocation.AllocateAllKeeps | proj/src/main/pt/up/fe/comp2025/optimization/RegisterAllocationOpt.java:18-37 | The pass changes nothing but var tables: every method keeps its name, staticness and instructions. |
| RegisterAllocation.BuiltFresh | proj/src/main/pt/up/fe/comp2025/optimization/graph_utils/InterferenceGraph.java:20-61 | The graph built from a var table with distinct names is one colouring can work on. |
| RegisterAllocation.AllocateProper | proj/src/main/pt/up/fe/comp2025/optimization/RegisterAllocationOpt.java:18-37 | With the retry repaired and distinct var-table names, every local with a node gets a LOCAL register that no interfering local shares. |
| RegisterAllocation.RegisterAllocator.constructor | proj/src/main/pt/up/fe/comp2025/optimization/RegisterAllocationOpt.java:13-16 | The allocator holds the class's methods. |
| RegisterAllocation.RegisterAllocator.AllocateReg | proj/src/main/pt/up/fe/comp2025/optimization/RegisterAllocationOpt.java:18-37 | The loop over the methods gives the methods and error of the allocation function. |
| RegisterAllocation.RegisterAllocator.AllocateOne | proj/src/main/pt/up/fe/comp2025/optimization/RegisterAllocationOpt.java:28-35 | One turn of the loop gives the outcome function for that method. |
| OptUtils.Issue | src/main/pt/up/fe/comp2025/optimization/OptUtils.java:34-52 | The prefix's count goes up by one, and every other prefix's count is left alone. |
| OptUtils.IssueMany | src/main/pt/up/fe/comp2025/optimization/OptUtils.java:34-45 | `n` calls give `n` names; IssueManyNames says which. |
| OptUtils.IssueManyNames | src/main/pt/up/fe/comp2025/optimization/OptUtils.java:34-45 | After `n` calls the prefix's count is `n` higher, and the i-th name carries the old count plus `i`. |
| OptUtils.IssueManyDistinct | src/main/pt/up/fe/comp2025/optimization/OptUtils.java:34-45 | Successive calls with one prefix never return the same name twice. |
| OptUtils.Decrement | src/main/pt/up/fe/comp2025/optimization/OptUtils.java:46-52 | The accumulator's `remove` takes one from the key's count, and does nothing when the key has none. |
| OptUtils.RevertOtherPrefix | src/main/pt/up/fe/comp2025/optimization/OptUtils.java:46-52 | Reverting with another prefix hands back a "tmp" name issued earlier and leaves that prefix's count alone. |
| OptUtils.RevertUndoesTemp | src/main/pt/up/fe/comp2025/optimization/OptUtils.java:34-52 | Reverting right after `nextTemp()` makes the next `nextTemp()` return the same name again. |
| OptUtils.TakeGrows | src/main/pt/up/fe/comp2025/optimization/OptUtils.java:34-104 | Each kind of name comes from its own counter, and the other counters are left alone. |
| OptUtils.LaterNameDiffers | src/main/pt/up/fe/comp2025/optimization/OptUtils.java:34-104 | A name issued later from a counter that grew past an earlier one differs from it. |
| OptUtils.Utils.constructor | src/main/pt/up/fe/comp2025/optimization/OptUtils.java:24-32 | All counters start empty. |
| OptUtils.Utils.NextTemp | src/main/pt/up/fe/comp2025/optimization/OptUtils.java:34-45 | `nextTemp` returns the issued name and advances the temporaries' counter. |
| OptUtils.Utils.RevertTemp | src/main/pt/up/fe/comp2025/optimization/OptUtils.java:46-52 | `revertTemp` takes one from the temporaries' count. |
| OptUtils.Utils.NextThenLabel | src/main/pt/up/fe/comp2025/optimization/OptUtils.java:54-65 | `nextThenLabel` draws from the then counter. |
| OptUtils.Utils.NextEndLabel | src/main/pt/up/fe/comp2025/optimization/OptUtils.java:67-78 | `nextEndLabel` draws from the end counter. |
| OptUtils.Utils.NextWhileLabel | src/main/pt/up/fe/comp2025/optimization/OptUtils.java:80-91 | `nextWhileLabel` draws from the while counter. |
| OptUtils.Utils.NextAndLabel | src/main/pt/up/fe/comp2025/optimization/OptUtils.java:93-104 | `nextAndLabel` draws from the and counter. |
| OptUtils.ToOllirType | src/main/pt/up/fe/comp2025/optimization/OptUtils.java:106-134 | The suffix is non-empty and starts with "."; OllirTypeParts says what follows. |
| OptUtils.OllirTypeParts | src/main/pt/up/fe/comp2025/optimization/OptUtils.java:106-134 | The suffix shows whether a type is an array and spells its element type, for any name without a '.'. |
| OptUtils.OllirNameInjective | src/main/pt/up/fe/comp2025/optimization/OptUtils.java:122-134 | Two names without a '.' get different spellings unless one of them spells a built-in type. |
| OllirExprGen.OllirTypeOf | src/main/pt/up/fe/comp2025/optimization/OptUtils.java:106-134 | The suffix fails exactly for Java's null. |
| OllirExprGen.Lookup | proj/src/main/pt/up/fe/comp2025/optimization/OllirExprGeneratorVisitor.java:300-329 | The symbol is found among the fields exactly when the locals and the parameters exist, neither holds it, and the fields do. |
| OllirExprGen.NotLayout | proj/src/main/pt/up/fe/comp2025/optimization/OllirExprGeneratorVisitor.java:78-93 | The layout only draws fresh names: the counters never go back. |
| OllirExprGen.CallLayout | proj/src/main/pt/up/fe/comp2025/optimization/OllirExprGeneratorVisitor.java:104-157 | The layout only draws fresh names: the counters never go back. |
| OllirExprGen.NewClassLayout | proj/src/main/pt/up/fe/comp2025/optimization/OllirExprGeneratorVisitor.java:159-170 | The layout only draws fresh names: the counters never go back. |
| OllirExprGen.NewArrayLayout | proj/src/main/pt/up/fe/comp2025/optimization/OllirExprGeneratorVisitor.java:172-184 | The layout only draws fresh names: the counters never go back. |
| OllirExprGen.AccessLayout | proj/src/main/pt/up/fe/comp2025/optimization/OllirExprGeneratorVisitor.java:202-216 | The layout only draws fresh names: the counters never go back. |
| OllirExprGen.LengthLayout | proj/src/main/pt/up/fe/comp2025/optimization/OllirExprGeneratorVisitor.java:218-230 | The layout only draws fresh names: the counters never go back. |
| OllirExprGen.AndLayout | proj/src/main/pt/up/fe/comp2025/optimization/OllirExprGeneratorVisitor.java:279-298 | The layout only draws fresh names: the counters never go back. |
| OllirExprGen.OpLayout | proj/src/main/pt/up/fe/comp2025/optimization/OllirExprGeneratorVisitor.java:240-277 | The layout only draws fresh names: the counters never go back. |
| OllirExprGen.VarRefLayout | proj/src/main/pt/up/fe/comp2025/optimization/OllirExprGeneratorVisitor.java:300-329 | The layout only draws fresh names: the counters never go back. |
| OllirExprGen.Visit | proj/src/main/pt/up/fe/comp2025/optimization/OllirExprGeneratorVisitor.java:47-329 | The counters after a visit have only grown. |
| OllirExprGen.NotNode | proj/src/main/pt/up/fe/comp2025/optimization/OllirExprGeneratorVisitor.java:78-93 | A successful visit only draws fresh names: the counters never go back. |
| OllirExprGen.CallNode | proj/src/main/pt/up/fe/comp2025/optimization/OllirExprGeneratorVisitor.java:104-157 | A successful visit only draws fresh names: the counters never go back. |
| OllirExprGen.NewArrayNode | proj/src/main/pt/up/fe/comp2025/optimization/OllirExprGeneratorVisitor.java:172-184 | A successful visit only draws fresh names: the counters never go back. |
| OllirExprGen.ArrayInitNode | proj/src/main/pt/up/fe/comp2025/optimization/OllirExprGeneratorVisitor.java:186-199 | A successful visit only draws fresh names: the counters never go back. |
| OllirExprGen.AccessNode | proj/src/main/pt/up/fe/comp2025/optimization/OllirExprGeneratorVisitor.java:202-216 | A successful visit only draws fresh names: the counters never go back. |
| OllirExprGen.LengthNode | proj/src/main/pt/up/fe/comp2025/optimization/OllirExprGeneratorVisitor.java:218-230 | A successful visit only draws fresh names: the counters never go back. |
| OllirExprGen.BinaryNode | proj/src/main/pt/up/fe/comp2025/optimization/OllirExprGeneratorVisitor.java:240-298 | A successful visit only draws fresh names: the counters never go back. |
| OllirExprGen.VarRefNode | proj/src/main/pt/up/fe/comp2025/optimization/OllirExprGeneratorVisitor.java:300-329 | A successful visit only draws fresh names: the counters never go back. |
| OllirExprGen.VisitArgs | proj/src/main/pt/up/fe/comp2025/optimization/OllirExprGeneratorVisitor.java:104-157 | A successful visit only draws fresh names: the counters never go back. |
| OllirExprGen.VisitElems | proj/src/main/pt/up/fe/comp2025/optimization/OllirExprGeneratorVisitor.java:186-199 | A successful visit only draws fresh names: the counters never go back. |
| OllirExprFacts.TempIsNew | src/main/pt/up/fe/comp2025/optimization/OptUtils.java:34-45 | A temporary issued later differs from every "tmp" name issued before. |
| OllirExprFacts.AtomsTakeNothing | proj/src/main/pt/up/fe/comp2025/optimization/OllirExprGeneratorVisitor.java:64-76 | Literals and `this` need no computation and take no name (the boolean-literal and `this` visits at lines 95-98 and 232-237 likewise). |
| OllirExprFacts.VarRefRead | proj/src/main/pt/up/fe/comp2025/optimization/OllirExprGeneratorVisitor.java:300-329 | A variable is read through `getfield` into a fresh temporary exactly when it is a field and neither a local nor a parameter. |
| OllirExprFacts.ParensTransparent | proj/src/main/pt/up/fe/comp2025/optimization/OllirExprGeneratorVisitor.java:100-102 | Parentheses visit their content as an operand, in the direct mode they inherit. |
| OllirExprFacts.CallTemp | proj/src/main/pt/up/fe/comp2025/optimization/OllirExprGeneratorVisitor.java:104-157 | A call takes a result temporary exactly when its parent is not an expression statement, and its value is then that temporary with the call's type. |
| OllirExprFacts.InvocationKind | proj/src/main/pt/up/fe/comp2025/optimization/OllirExprGeneratorVisitor.java:104-157 | `invokestatic` on the caller's name exactly when the caller is neither `this` nor a local, parameter or field; otherwise `invokevirtual`. |
| OllirExprFacts.LiteralElemsInOrder | proj/src/main/pt/up/fe/comp2025/optimization/OllirExprGeneratorVisitor.java:186-199 | An initialiser of literals stores element `i` at index `i`, in order, and takes no other name. |
| OllirExprFacts.LiteralArrayInit | proj/src/main/pt/up/fe/comp2025/optimization/OllirExprGeneratorVisitor.java:186-199 | `{1, 2}` and the like: one allocation of the right length into a fresh temporary, then the stores in order. |
| OllirExprFacts.ShortCircuitLayout | proj/src/main/pt/up/fe/comp2025/optimization/OllirExprGeneratorVisitor.java:279-298 | `l && r` evaluates `r` only on the branch where `l` is true, and both branches meet at the end label with the result in one temporary. |
| OllirDirectFindings.ParenOperand | proj/src/main/pt/up/fe/comp2025/optimization/OllirExprGeneratorVisitor.java:100-102 | A parenthesised operator used as an operand is visited in the direct mode it inherits. |
| OllirDirectFindings.IntOperation | proj/src/main/pt/up/fe/comp2025/optimization/OllirExprGeneratorVisitor.java:240-277 | The code of `l op r` for two integer literals, inline in direct mode or through a fresh temporary otherwise. |
| OllirDirectFindings.AsWrittenInlinesParenthesised | proj/src/main/pt/up/fe/comp2025/optimization/OllirGeneratorVisitor.java:204-231 | As written, with the direct flag set, `i op (j op2 k)` becomes one code holding both operators, with nothing computed before it. |
| OllirDirectFindings.RepairedParenthesisedIsTemp | proj/src/main/pt/up/fe/comp2025/optimization/OllirExprGeneratorVisitor.java:240-277 | Repaired, the parenthesised operator goes to a fresh temporary computed first, and the code holds one operator. |
| OllirDirectFindings.VisitUnparen | proj/src/main/pt/up/fe/comp2025/optimization/OllirExprGeneratorVisitor.java:100-102 | Outside direct mode an expression under parentheses is visited as the expression it wraps. |
| OllirDirectFindings.OperatorIsTemp | proj/src/main/pt/up/fe/comp2025/optimization/OllirExprGeneratorVisitor.java:240-277 | Outside direct mode an operator other than `&&` has as its code a temporary whose number no name issued before the visit carries. |
| OllirDirectFindings.RepairedDirectOperands | proj/src/main/pt/up/fe/comp2025/optimization/OllirExprGeneratorVisitor.java:240-277 | Repaired, for any operands, a direct operation other than `&&` is one operator between its operands' codes, visited outside direct mode, after their computations; an operand that is an operator, parenthesised or not, is a fresh temporary. |
| OllirGen.Target | proj/src/main/pt/up/fe/comp2025/optimization/OllirGeneratorVisitor.java:159-198 | The target's name and type suffix, and whether it is a field that is neither a local nor a parameter. |
| OllirGen.AssignCode | proj/src/main/pt/up/fe/comp2025/optimization/OllirGeneratorVisitor.java:159-198 | Successful generation only draws fresh names: the counters never go back. |
| OllirGen.StoreTarget | proj/src/main/pt/up/fe/comp2025/optimization/OllirGeneratorVisitor.java:119-138 | Choosing the store target only draws fresh names: the counters never go back. |
| OllirGen.ArrayAssignCode | proj/src/main/pt/up/fe/comp2025/optimization/OllirGeneratorVisitor.java:119-138 | Successful generation only draws fresh names: the counters never go back. |
| OllirGen.StmtCode | proj/src/main/pt/up/fe/comp2025/optimization/OllirGeneratorVisitor.java:65-156 | The counters after a statement have only grown. |
| OllirGen.IfNode | proj/src/main/pt/up/fe/comp2025/optimization/OllirGeneratorVisitor.java:65-96 | Successful generation only draws fresh names: the counters never go back. |
| OllirGen.WhileNode | proj/src/main/pt/up/fe/comp2025/optimization/OllirGeneratorVisitor.java:98-117 | Successful generation only draws fresh names: the counters never go back. |
| OllirGen.StmtsCode | proj/src/main/pt/up/fe/comp2025/optimization/OllirGeneratorVisitor.java:149-156 | Successful generation only draws fresh names: the counters never go back. |
| OllirGen.StmtCodes | proj/src/main/pt/up/fe/comp2025/optimization/OllirGeneratorVisitor.java:266-352 | One code per statement, and the counters never go back. |
| OllirGen.ReturnCode | proj/src/main/pt/up/fe/comp2025/optimization/OllirGeneratorVisitor.java:234-252 | Successful generation only draws fresh names: the counters never go back. |
| OllirGen.ReturnCodes | proj/src/main/pt/up/fe/comp2025/optimization/OllirGeneratorVisitor.java:266-352 | One code per returned expression, and the counters never go back. |
| OllirGen.ParamCodes | proj/src/main/pt/up/fe/comp2025/optimization/OllirGeneratorVisitor.java:255-263 | One code per parameter, in order. |
| OllirGen.ParamList | proj/src/main/pt/up/fe/comp2025/optimization/OllirGeneratorVisitor.java:266-352 | The parameter codes joined by ", ". |
| OllirGen.MethodCode | proj/src/main/pt/up/fe/comp2025/optimization/OllirGeneratorVisitor.java:266-352 | Successful generation only draws fresh names: the counters never go back. |
| OllirGen.MethodsCode | proj/src/main/pt/up/fe/comp2025/optimization/OllirGeneratorVisitor.java:355-395 | Successful generation only draws fresh names: the counters never go back. |
| OllirGen.ClassCode | proj/src/main/pt/up/fe/comp2025/optimization/OllirGeneratorVisitor.java:355-404 | Successful generation only draws fresh names: the counters never go back. |
| OllirGen.ImportCode | proj/src/main/pt/up/fe/comp2025/optimization/OllirGeneratorVisitor.java:406-416 | The first segment, then "." and each later segment. |
| OllirGen.ProgramCode | proj/src/main/pt/up/fe/comp2025/optimization/OllirGeneratorVisitor.java:419-429 | Successful generation only draws fresh names: the counters never go back. |
| OllirGenFacts.EndLabel | proj/src/main/pt/up/fe/comp2025/optimization/OllirGeneratorVisitor.java:65-117 | An `if` or `while` ends with its end label, numbered after everything before it and before anything inside it. |
| OllirGenFacts.ConsecutiveEndsDiffer | proj/src/main/pt/up/fe/comp2025/optimization/OllirGeneratorVisitor.java:65-117 | `if` and `while` draw end labels from one counter, so two in a row end with different labels. |
| OllirGenFacts.WhileLoopsBack | proj/src/main/pt/up/fe/comp2025/optimization/OllirGeneratorVisitor.java:98-117 | A `while` opens with its own label and closes with a jump back to it, followed by its end label. |
| OllirGenFacts.SimpleAssignInline | proj/src/main/pt/up/fe/comp2025/optimization/OllirGeneratorVisitor.java:159-231 | `id = a op b` on two integer literals, to a non-field: one move of the operation, with nothing computed before it. |
| OllirGenFacts.FieldAssignPutfield | proj/src/main/pt/up/fe/comp2025/optimization/OllirGeneratorVisitor.java:159-198 | The same right-hand side assigned to a field goes to a fresh temporary and is written by `putfield`. |
| OllirGenFacts.AsWrittenNestedAssign | proj/src/main/pt/up/fe/comp2025/optimization/OllirGeneratorVisitor.java:204-231 | As written, `id = i op (j op2 k)` with a non-field target is a single move holding both operators. |
| OllirGenFacts.RepairedNestedAssign | proj/src/main/pt/up/fe/comp2025/optimization/OllirGeneratorVisitor.java:204-231 | Repaired, the parenthesised operator goes to a temporary and the move holds one operator. |
| OllirGenFacts.FieldArrayCopied | proj/src/main/pt/up/fe/comp2025/optimization/OllirGeneratorVisitor.java:119-138 | A store into an `int[]` field first copies the field into a fresh temporary by `getfield`. |
| OllirGenFacts.OtherArrayDirect | proj/src/main/pt/up/fe/comp2025/optimization/OllirGeneratorVisitor.java:119-138 | Any other array is stored into by its bare name. |
| OllirGenFacts.QuotedName | proj/src/main/pt/up/fe/comp2025/optimization/OllirGeneratorVisitor.java:266-352 | The header's name differs from the method's exactly when a vararg method is named "varargs". |
| OllirGenFacts.VarargsKeyword | proj/src/main/pt/up/fe/comp2025/optimization/OllirGeneratorVisitor.java:266-352 | The modifiers end with `varargs` exactly when the last parameter is a vararg. |
| OllirGenFacts.MainHeader | proj/src/main/pt/up/fe/comp2025/optimization/OllirGeneratorVisitor.java:266-352 | `public static void main(String[] args)` gets its parameter as a String array. |
| OllirGenFacts.MainMethod | proj/src/main/pt/up/fe/comp2025/optimization/OllirGeneratorVisitor.java:266-352 | main's code starts with its header and ends with `ret.V;` and the closing brace. |
| OllirGenFacts.EmptyBody | proj/src/main/pt/up/fe/comp2025/optimization/OllirGeneratorVisitor.java:266-352 | A method without statements still gets the indentation of both groups, and takes no name. |
| OllirGenFacts.LastDot | proj/src/main/pt/up/fe/comp2025/optimization/OllirGeneratorVisitor.java:406-416 | The last "." of a path joined by "." is the one before its last segment. |
| OllirGenFacts.ImportShortName | proj/src/main/pt/up/fe/comp2025/optimization/OllirGeneratorVisitor.java:406-416 | The short name of an import's joined path is its last segment. |
| JmmOptimization.SemanticsResult.constructor | src/main/pt/up/fe/comp2025/optimization/JmmOptimizationImpl.java:33-53 | The result holds the table, the tree and the options it was given. |
| JmmOptimization.OllirResult.constructor | src/main/pt/up/fe/comp2025/optimization/JmmOptimizationImpl.java:57-73 | The result holds the code, the methods and the options it was given. |
| JmmOptimization.Lowered | src/main/pt/up/fe/comp2025/optimization/JmmOptimizationImpl.java:17-30 | In either mode (every pass as written, or corrected), the text is the OLLIR of the program after vararg packing, generated with no current method; it exists only when packing succeeded. |
| JmmOptimization.LoweredStartsWithImports | src/main/pt/up/fe/comp2025/optimization/JmmOptimizationImpl.java:17-30 | In either mode, packing rewrites method bodies only, so the text starts with the program's own imports. |
| JmmOptimization.ToOllir | src/main/pt/up/fe/comp2025/optimization/JmmOptimizationImpl.java:17-30 | In either mode, the code is the OLLIR of the tree as it came in, with vararg calls packed; the tree itself becomes its packed form, or stays as it was when packing fails. |
| JmmOptimization.AstOptimized | src/main/pt/up/fe/comp2025/optimization/JmmOptimizationImpl.java:33-53 | In either mode, with optimisation off the tree is handed on unchanged; with it on, the constant rounds never add variable reads. |
| JmmOptimization.OptimizedIsStable | src/main/pt/up/fe/comp2025/optimization/JmmOptimizationImpl.java:33-53 | In either mode, with optimisation on, the tree handed on is the folding of a tree over which propagation substitutes nothing. |
| JmmOptimization.OptimizeAst | src/main/pt/up/fe/comp2025/optimization/JmmOptimizationImpl.java:33-53 | In either mode, nothing changes when optimisation is off; otherwise the constant rounds of that mode run in place on the same result. |
| JmmOptimization.OllirOptimized | src/main/pt/up/fe/comp2025/optimization/JmmOptimizationImpl.java:57-73 | In either mode, one method comes back per input method, and with a count of -1 the methods come back untouched and without error. |
| JmmOptimization.OllirOptimizedKeeps | src/main/pt/up/fe/comp2025/optimization/JmmOptimizationImpl.java:57-73 | In either mode and whatever the count, the stage changes only var tables. |
| JmmOptimization.OptimizeOllir | src/main/pt/up/fe/comp2025/optimization/JmmOptimizationImpl.java:57-73 | In either mode, nothing happens for -1; otherwise one allocation pass of that mode over the class unit, with the count passed on unchanged. |
| JasminUtils.Modifier | proj/src/main/pt/up/fe/comp2025/backend/JasminUtils.java:29-33 | Nothing for package access, otherwise the keyword followed by a space. |
| JasminUtils.Descriptor | proj/src/main/pt/up/fe/comp2025/backend/JasminUtils.java:35-52 | Every descriptor is non-empty; DescriptorReadsBack says what it denotes. |
| JasminUtils.ReadDescriptor | proj/src/main/pt/up/fe/comp2025/backend/JasminUtils.java:35-52 | A successful read consumes at least one character. |
| JasminUtils.DescriptorReadsBack | proj/src/main/pt/up/fe/comp2025/backend/JasminUtils.java:35-52 | A descriptor reads back as its OLLIR type's JVM type, and the reading stops right after it. |
| JasminUtils.DescriptorsReadBack | src/main/pt/up/fe/comp2025/backend/JasminGenerator.java:163-172 | The parameter descriptors of a method read back as its parameters' types, in order. |
| JasminUtils.ParamsDescriptor | src/main/pt/up/fe/comp2025/backend/JasminGenerator.java:163-166 | The parameter loop concatenates the descriptors in order. |
| JasminUtils.LiteralZeroIsZero | proj/src/main/pt/up/fe/comp2025/backend/JasminUtils.java:58-60 | A literal that the test takes for zero parses to 0. |
| JasminUtils.SplitDots | proj/src/main/pt/up/fe/comp2025/backend/JasminUtils.java:62-76 | There is always at least one piece; SplitJoin says how the pieces join back. |
| JasminUtils.ImportMatches | proj/src/main/pt/up/fe/comp2025/backend/JasminUtils.java:62-76 | One step of the import scan: whether the import's last segment is the name; an import with no segment throws. |
| JasminUtils.Slashed | proj/src/main/pt/up/fe/comp2025/backend/JasminUtils.java:62-76 | The text with every '.' replaced by '/'. |
| JasminUtils.SplitJoin | proj/src/main/pt/up/fe/comp2025/backend/JasminUtils.java:62-76 | Joining the pieces with "/" turns each dot into a slash. |
| JasminUtils.ImportClassPath | proj/src/main/pt/up/fe/comp2025/backend/JasminUtils.java:62-76 | The class path of an imported class is its import with '/' for '.', found by the short name the semantic passes use. |
| JasminUtils.SearchFirst | proj/src/main/pt/up/fe/comp2025/backend/JasminUtils.java:62-76 | The search gives the first matching import's path. |
| JasminUtils.SearchNone | proj/src/main/pt/up/fe/comp2025/backend/JasminUtils.java:62-76 | With no matching import the search gives "". |
| JasminUtils.Utils.constructor | proj/src/main/pt/up/fe/comp2025/backend/JasminUtils.java:17-27 | Both counters and the stack maximum start at 0. |
| JasminUtils.Utils.NextCompareIdx | proj/src/main/pt/up/fe/comp2025/backend/JasminUtils.java:54-56 | The label index is the counter's value as text, and the counter moves on by one. |
| JasminUtils.Utils.SetStackCounter | proj/src/main/pt/up/fe/comp2025/backend/JasminUtils.java:78-81 | The stack counter takes the value, and the maximum rises to it if it is higher. |
| JasminUtils.Utils.GetClassPath | proj/src/main/pt/up/fe/comp2025/backend/JasminUtils.java:62-76 | The class's own name when asked for it; otherwise the first import whose last segment matches, joined with "/"; "" when nothing matches; or the scan's exception. |
| JasminUtils.CompareIdxDistinct | proj/src/main/pt/up/fe/comp2025/backend/JasminUtils.java:54-56 | Two calls of `nextCompareIdx` give different labels. |
| JasminGenerator.Get | src/main/pt/up/fe/comp2025/backend/JasminGenerator.java:284-290 | `varTable.get` finds an entry exactly when one has the name. |
| JasminGenerator.Generator.constructor | src/main/pt/up/fe/comp2025/backend/JasminGenerator.java:45-68 | A new generator has no code and no reports. |
| JasminGenerator.Generator.Build | src/main/pt/up/fe/comp2025/backend/JasminGenerator.java:86-94 | The first call generates the class text and later calls return the same text. |
| JasminGenerator.Generator.Limits | src/main/pt/up/fe/comp2025/backend/JasminGenerator.java:195-202 | `.limit stack` is the running maximum of the shared stack counter, and `.limit locals` is one more than the largest register. |
| JasminGenerator.RunningMaxIsMax | proj/src/main/pt/up/fe/comp2025/backend/JasminUtils.java:78-81 | The running maximum is the largest of the start value and every value set. |
| JasminGenerator.SharedMax | src/main/pt/up/fe/comp2025/backend/JasminGenerator.java:196 | The maximum is never reset between methods, so a later method's stack limit is at least an earlier one's. |
| JasminGenerator.LocalsLimitOf | src/main/pt/up/fe/comp2025/backend/JasminGenerator.java:198-202 | One more than the largest register, and never below 0. |
| JasminGenerator.LocalsLimit | src/main/pt/up/fe/comp2025/backend/JasminGenerator.java:198-202 | The loop over the var table gives that limit. |
| JasminGenerator.LiteralPush | src/main/pt/up/fe/comp2025/backend/JasminGenerator.java:300-312 | The push fails exactly when the literal does not parse; LiteralPushes says which push is chosen. |
| JasminGenerator.LiteralPushes | src/main/pt/up/fe/comp2025/backend/JasminGenerator.java:300-312 | The chosen push can encode its operand and pushes the literal's value; a longer form is chosen only when every shorter one cannot hold the value. |
| JasminGenerator.TypePrefixByJvmType | src/main/pt/up/fe/comp2025/backend/JasminGenerator.java:272-283 | The prefix is `i` for int and boolean, `a` for classes and arrays, and nothing for void, as both the load (lines 272-283) and the store (lines 321-342) choose it. |
| JasminGenerator.RegisterSuffixForm | src/main/pt/up/fe/comp2025/backend/JasminGenerator.java:284-290 | The short `_n` form is used exactly for registers 0 to 3, and the text names the register either way, for loads (lines 284-290) and stores (lines 343-350) alike. |
| JasminGenerator.LoadsCarryType | src/main/pt/up/fe/comp2025/backend/JasminGenerator.java:314-358 | An int or boolean in a low register loads with `iload_n`, a reference with `aload_n`. |
| JasminGenerator.PeepholeAsWritten | src/main/pt/up/fe/comp2025/backend/JasminGenerator.java:233-253 | The peephole emits `iinc` only for an ADD or SUB whose destination is a variable operand. |
| JasminGenerator.AsWrittenSubIncrements | src/main/pt/up/fe/comp2025/backend/JasminGenerator.java:233-253 | `x = x - 1` becomes `iinc x 1`: with 5 in `x` the assignment stores 4 and the instruction leaves 6. |
| JasminGenerator.AsWrittenLiteralMinus | src/main/pt/up/fe/comp2025/backend/JasminGenerator.java:233-253 | `x = 1 - x` also becomes `iinc x 1`: with 5 in `x` the assignment stores -4. |
| JasminGenerator.RepairedIincAgrees | src/main/pt/up/fe/comp2025/backend/JasminGenerator.java:233-253 | Repaired, an emitted `iinc` leaves in the register exactly what the assignment stores, for every value and literal. |
| JasminGenerator.RepairedKeepsAdd | src/main/pt/up/fe/comp2025/backend/JasminGenerator.java:233-253 | The repair changes nothing for ADD, and for SUB only which constant is emitted, or whether one is. |
| JasminGenerator.CompareDecides | src/main/pt/up/fe/comp2025/backend/JasminGenerator.java:361-436 | Against a literal zero or not, the branch has exactly the operands that were loaded and is taken exactly when the comparison holds. |
| JasminGenerator.ReturnByType | src/main/pt/up/fe/comp2025/backend/JasminGenerator.java:438-462 | `ireturn` for int and boolean, `areturn` for references, and `return` alone for void. |
| UndeclaredMethod.CallReports | src/main/pt/up/fe/comp2025/analysis/passes/UndeclaredMethod.java:21-37 | At most one report, and only for a call whose callee does not exist. |
| UndeclaredMethod.DeclaredCallOnThisAccepted | src/main/pt/up/fe/comp2025/analysis/passes/UndeclaredMethod.java:21-37 | A call on `this` to a declared method is never reported, whatever the class extends or imports. |
| UndeclaredMethod.UndeclaredCallOnThisReported | src/main/pt/up/fe/comp2025/analysis/passes/UndeclaredMethod.java:21-37 | Without a superclass, a call on `this` to an undeclared method is reported. |
| UndeclaredMethod.UndeclaredMethodPass.constructor | src/main/pt/up/fe/comp2025/analysis/passes/UndeclaredMethod.java:14-19 | A new pass has no reports. |
| UndeclaredMethod.UndeclaredMethodPass.VisitMethodCall | src/main/pt/up/fe/comp2025/analysis/passes/UndeclaredMethod.java:21-37 | Only the reports change, by at most one entry; an exception leaves them as they were. |
| ThisInStaticMethod.Traced | proj/src/main/pt/up/fe/comp2025/analysis/passes/ThisInStaticMethod.java:21-38 | Every report is the fixed `this` report, and there are no more reports than visits. |
| ThisInStaticMethod.TracedThese | proj/src/main/pt/up/fe/comp2025/analysis/passes/ThisInStaticMethod.java:27-38 | `k` visits of `this` keep the flag and give `k` reports exactly when it is set. |
| ThisInStaticMethod.TracedMethod | proj/src/main/pt/up/fe/comp2025/analysis/passes/ThisInStaticMethod.java:21-38 | A method declaration sets the flag, whatever it was, and its `this` nodes follow it. |
| ThisInStaticMethod.ClassReports | proj/src/main/pt/up/fe/comp2025/analysis/passes/ThisInStaticMethod.java:21-38 | Over a class, the pass reports exactly the `this` nodes of static methods, one each, in order. |
| ThisInStaticMethod.InstanceMethodsAccepted | proj/src/main/pt/up/fe/comp2025/analysis/passes/ThisInStaticMethod.java:21-38 | A class without static methods gets no report. |
| ThisInStaticMethod.NoStaticNoReports | proj/src/main/pt/up/fe/comp2025/analysis/passes/ThisInStaticMethod.java:21-38 | The same, stated over the methods and their `this` counts. |
| ThisInStaticMethod.ThisInStaticPass.constructor | proj/src/main/pt/up/fe/comp2025/analysis/passes/ThisInStaticMethod.java:12-19 | A new pass has the flag cleared and no reports. |
| ThisInStaticMethod.ThisInStaticPass.VisitMethodDecl | proj/src/main/pt/up/fe/comp2025/analysis/passes/ThisInStaticMethod.java:21-24 | The flag becomes the method's `isStatic` attribute. |
| ThisInStaticMethod.ThisInStaticPass.VisitThis | proj/src/main/pt/up/fe/comp2025/analysis/passes/ThisInStaticMethod.java:27-38 | One fixed report when the flag is set, none otherwise. |
| ThisInStaticMethod.ThisInStaticPass.Run | proj/src/main/pt/up/fe/comp2025/analysis/passes/ThisInStaticMethod.java:21-38 | The visits in order end where Traced says. |
| NotAnExpression.ChildReports | proj/src/main/pt/up/fe/comp2025/analysis/passes/NotAnExpression.java:17-31 | At most one report, with the not-a-statement message. |
| NotAnExpression.StmtReports | proj/src/main/pt/up/fe/comp2025/analysis/passes/NotAnExpression.java:17-31 | An expression statement gets at most one report. |
| NotAnExpression.UnderParens | proj/src/main/pt/up/fe/comp2025/analysis/passes/NotAnExpression.java:17-31 | Under any number of parentheses, an expression is accepted exactly when it is a call. |
| NotAnExpression.CallUnderParensAccepted | proj/src/main/pt/up/fe/comp2025/analysis/passes/NotAnExpression.java:17-31 | A call wrapped in any number of parentheses is accepted as a statement. |
| NotAnExpression.NotAnExpressionPass.constructor | proj/src/main/pt/up/fe/comp2025/analysis/passes/NotAnExpression.java:11-15 | A new pass has no reports. |
| NotAnExpression.NotAnExpressionPass.VisitExprStmt | proj/src/main/pt/up/fe/comp2025/analysis/passes/NotAnExpression.java:17-31 | The statement's reports are appended and nothing else changes. |
| ArrayInitIsInt.InitScan | src/main/pt/up/fe/comp2025/analysis/passes/ArrayInitIsInt.java:17-31 | Every report the loop adds is the element report at the initialiser, and there are no more of them than elements. |
| ArrayInitIsInt.OneReportPerNonInt | src/main/pt/up/fe/comp2025/analysis/passes/ArrayInitIsInt.java:17-31 | When every element has a type, the pass ends without exception and reports exactly the non-int elements. |
| ArrayInitIsInt.AllIntAccepted | src/main/pt/up/fe/comp2025/analysis/passes/ArrayInitIsInt.java:17-31 | An initialiser whose elements are all ints gets no report. |
| ArrayInitIsInt.AsWrittenVariableElementFails | src/main/pt/up/fe/comp2025/analysis/passes/ArrayInitIsInt.java:20 | As written a variable element is looked up among the locals of a method named "value", so in a class without one the lookup fails. |
| ArrayInitIsInt.RepairedLocalElementAccepted | src/main/pt/up/fe/comp2025/analysis/passes/ArrayInitIsInt.java:20 | Repaired, an int local of the enclosing method is accepted. |
| ArrayInitIsInt.ArrayInitPass.constructor | src/main/pt/up/fe/comp2025/analysis/passes/ArrayInitIsInt.java:11-15 | A new pass has no reports. |
| ArrayInitIsInt.ArrayInitPass.VisitArrayInit | src/main/pt/up/fe/comp2025/analysis/passes/ArrayInitIsInt.java:17-31 | The loop appends one report per non-int element, as InitScan says. |
| ArrayInitIsInt.InitScanStops | src/main/pt/up/fe/comp2025/analysis/passes/ArrayInitIsInt.java:17-31 | After an exception later elements change nothing. |
| Dedup.Keys | proj/src/main/pt/up/fe/comp2025/symboltable/JmmSymbolTableBuilder.java:59-77 | One key per element, in order. |
| Dedup.Dropped | proj/src/main/pt/up/fe/comp2025/symboltable/JmmSymbolTableBuilder.java:59-77 | Every dropped index is one of the first `n` positions. |
| Dedup.KeptGrows | proj/src/main/pt/up/fe/comp2025/symboltable/JmmSymbolTableBuilder.java:59-106 | What is kept stays kept, in place. |
| Dedup.KeptDistinct | proj/src/main/pt/up/fe/comp2025/symboltable/JmmSymbolTableBuilder.java:59-106 | No two kept elements share a key. |
| Dedup.KeptCovers | proj/src/main/pt/up/fe/comp2025/symboltable/JmmSymbolTableBuilder.java:59-106 | Every element seen has its key among the kept ones. |
| Dedup.KeptOrDropped | proj/src/main/pt/up/fe/comp2025/symboltable/JmmSymbolTableBuilder.java:59-106 | Each element is kept or dropped, never both and never neither. |
| SymbolTableBuilder.Normalise | proj/src/main/pt/up/fe/comp2025/symboltable/JmmSymbolTableBuilder.java:59-77 | Normalising never lengthens the text; ImportPathIsDotted says what it gives for a printed segment list. |
| SymbolTableBuilder.ImportPaths | proj/src/main/pt/up/fe/comp2025/symboltable/JmmSymbolTableBuilder.java:59-77 | The normalised paths of the import declarations, in order. |
| SymbolTableBuilder.DropReports | proj/src/main/pt/up/fe/comp2025/symboltable/JmmSymbolTableBuilder.java:59-77 | One report per dropped import, at its declaration, in order. |
| SymbolTableBuilder.ShortNamesAreKeys | proj/src/main/pt/up/fe/comp2025/symboltable/JmmSymbolTableBuilder.java:59-77 | The short names the loop collects are the keys of the kept paths. |
| SymbolTableBuilder.SuperReports | proj/src/main/pt/up/fe/comp2025/symboltable/JmmSymbolTableBuilder.java:34-56 | A superclass that is not among the kept imports' short names is reported, and building goes on. |
| SymbolTableBuilder.Builder.constructor | proj/src/main/pt/up/fe/comp2025/symboltable/JmmSymbolTableBuilder.java:16-36 | A new builder has no reports. |
| SymbolTableBuilder.Builder.Build | proj/src/main/pt/up/fe/comp2025/symboltable/JmmSymbolTableBuilder.java:34-56 | The table holds what each part of the builder gives, and the reports are theirs, in order. |
| SymbolTableBuilder.Builder.BuildImports | proj/src/main/pt/up/fe/comp2025/symboltable/JmmSymbolTableBuilder.java:59-77 | The kept imports and the duplicate reports of the specification. |
| SymbolTableBuilder.Builder.BuildMethods | proj/src/main/pt/up/fe/comp2025/symboltable/JmmSymbolTableBuilder.java:203-219 | The declared method names, each once. |
| SymbolTableBuilder.Builder.BuildReturnTypes | proj/src/main/pt/up/fe/comp2025/symboltable/JmmSymbolTableBuilder.java:108-127 | The return-type map of the specification; null from the first vararg return type outside main on. |
| SymbolTableBuilder.Builder.BuildParams | proj/src/main/pt/up/fe/comp2025/symboltable/JmmSymbolTableBuilder.java:129-172 | The parameter map and its reports. |
| SymbolTableBuilder.Builder.MethodParamsOf | proj/src/main/pt/up/fe/comp2025/symboltable/JmmSymbolTableBuilder.java:129-172 | One method's parameter list and the reports it adds. |
| SymbolTableBuilder.Builder.ParamListOf | proj/src/main/pt/up/fe/comp2025/symboltable/JmmSymbolTableBuilder.java:129-172 | The inner loop over one method's parameters, with its vararg flag. |
| SymbolTableBuilder.Builder.CheckOrder | proj/src/main/pt/up/fe/comp2025/symboltable/JmmSymbolTableBuilder.java:129-172 | The vararg-order checks of one parameter and the updated flag. |
| SymbolTableBuilder.Builder.CheckDuplicate | proj/src/main/pt/up/fe/comp2025/symboltable/JmmSymbolTableBuilder.java:129-172 | The duplicate check of one parameter against the list so far. |
| SymbolTableBuilder.Builder.BuildLocals | proj/src/main/pt/up/fe/comp2025/symboltable/JmmSymbolTableBuilder.java:174-201 | The locals map and its reports. |
| SymbolTableBuilder.Builder.LocalListOf | proj/src/main/pt/up/fe/comp2025/symboltable/JmmSymbolTableBuilder.java:174-201 | The inner loop over one method's variable declarations. |
| SymbolTableBuilder.Builder.BuildFields | proj/src/main/pt/up/fe/comp2025/symboltable/JmmSymbolTableBuilder.java:79-106 | The kept fields and their reports. |
| SymbolTableBuilder.AddImport | proj/src/main/pt/up/fe/comp2025/symboltable/JmmSymbolTableBuilder.java:59-77 | A path whose short name is already kept is reported instead of added. |
| SymbolTableBuilder.NameTaken | proj/src/main/pt/up/fe/comp2025/symboltable/JmmSymbolTableBuilder.java:79-106 | The search loop finds some symbol with the name exactly when there is one. |
| SymbolTableBuilder.ReturnMapStops | proj/src/main/pt/up/fe/comp2025/symboltable/JmmSymbolTableBuilder.java:108-127 | Once the return-type map is null, later methods change neither it nor the reports. |
| SymbolTableFacts.ImportPathIsDotted | proj/src/main/pt/up/fe/comp2025/symboltable/JmmSymbolTableBuilder.java:59-77 | Normalising the printed segment list gives back the dotted package name. |
| SymbolTableFacts.KeptImportsDistinct | proj/src/main/pt/up/fe/comp2025/symboltable/JmmSymbolTableBuilder.java:59-77 | No two kept imports share a short name. |
| SymbolTableFacts.ImportsCounted | proj/src/main/pt/up/fe/comp2025/symboltable/JmmSymbolTableBuilder.java:59-77 | Every import is kept or reported. |
| SymbolTableFacts.ImportsCovered | proj/src/main/pt/up/fe/comp2025/symboltable/JmmSymbolTableBuilder.java:59-77 | Either way, every import's short name is among the kept ones. |
| SymbolTableFacts.ImportReportsAtImports | proj/src/main/pt/up/fe/comp2025/symboltable/JmmSymbolTableBuilder.java:59-77 | Each report is a duplicated-import report at an import declaration. |
| SymbolTableFacts.KeptMethodsAreNames | proj/src/main/pt/up/fe/comp2025/symboltable/JmmSymbolTableBuilder.java:203-219 | The method list holds each declared name once, and nothing else. |
| SymbolTableFacts.ReturnMapNull | proj/src/main/pt/up/fe/comp2025/symboltable/JmmSymbolTableBuilder.java:108-127 | The map is null exactly when a method other than main has a vararg return type, and then there is one report. |
| SymbolTableFacts.ReturnMapLastWins | proj/src/main/pt/up/fe/comp2025/symboltable/JmmSymbolTableBuilder.java:108-127 | When the map exists, main maps to void and every other name to the return type of its last declaration. |
| SymbolTableFacts.ReturnMapKeys | proj/src/main/pt/up/fe/comp2025/symboltable/JmmSymbolTableBuilder.java:108-127 | When the map exists its keys are exactly the declared names. |
| SymbolTableFacts.ParamListDistinct | proj/src/main/pt/up/fe/comp2025/symboltable/JmmSymbolTableBuilder.java:129-172 | No two listed parameters are equal symbols. |
| SymbolTableFacts.VarargSeenAfter | proj/src/main/pt/up/fe/comp2025/symboltable/JmmSymbolTableBuilder.java:129-172 | The flag is set once some parameter was a vararg. |
| SymbolTableFacts.AfterVarargReported | proj/src/main/pt/up/fe/comp2025/symboltable/JmmSymbolTableBuilder.java:129-172 | Every parameter after a vararg is reported as misplaced, and one that is itself a vararg also as a second vararg. |
| SymbolTableFacts.NoVarargOnlyDuplicates | proj/src/main/pt/up/fe/comp2025/symboltable/JmmSymbolTableBuilder.java:129-172 | Without a vararg parameter the only reports are for duplicates. |
| SymbolTableFacts.VarargLocalReported | proj/src/main/pt/up/fe/comp2025/symboltable/JmmSymbolTableBuilder.java:174-201 | A vararg local is reported, positioned at its method. |
| SymbolTableFacts.FieldNames | proj/src/main/pt/up/fe/comp2025/symboltable/JmmSymbolTableBuilder.java:79-106 | Field names are distinct, and every declared name is present. |
| SymbolTableFacts.FirstFieldKept | proj/src/main/pt/up/fe/comp2025/symboltable/JmmSymbolTableBuilder.java:79-106 | The kept field of a name is its first declaration. |
| SymbolTableFacts.VarargFieldReported | proj/src/main/pt/up/fe/comp2025/symboltable/JmmSymbolTableBuilder.java:79-106 | A vararg field is still added, and reported, when it is the first of its name. |
| SymbolTableFacts.FieldReportKept | proj/src/main/pt/up/fe/comp2025/symboltable/JmmSymbolTableBuilder.java:79-106 | A report made within the first `k` fields is still there at the end. |
| SymbolTableFacts.FieldLookupInTable | proj/src/main/pt/up/fe/comp2025/symboltable/JmmSymbolTableBuilder.java:79-106 | Outside any method, looking a field up by name in the built table finds the type of its first declaration. |
| TypeCheck.FirstChild | proj/src/main/pt/up/fe/comp2025/analysis/passes/TypeCheck.java:90-97 | Variables, literals, `this` and `new C()` have no first child. |
| TypeCheck.ReceiverImported | proj/src/main/pt/up/fe/comp2025/analysis/passes/TypeCheck.java:90-97 | Only a call can have an imported receiver; any other node gives false. |
| TypeCheck.ImportedCall | proj/src/main/pt/up/fe/comp2025/analysis/passes/TypeCheck.java:90-97 | The exemption holds only for a call on an imported or super receiver to a method this class does not declare. |
| TypeCheck.OperandsVerdict | proj/src/main/pt/up/fe/comp2025/analysis/passes/TypeCheck.java:39-115 | Accepted exactly when both operand types are the wanted one; a null type throws. |
| TypeCheck.BinaryReports | proj/src/main/pt/up/fe/comp2025/analysis/passes/TypeCheck.java:39-115 | At most one report, at the operator; TypeCheckFacts says when it is made. |
| TypeCheck.ArrayAccessReports | proj/src/main/pt/up/fe/comp2025/analysis/passes/TypeCheck.java:117-162 | At most one report, at the access; ArrayAccessChecked says when it is made. |
| TypeCheck.ConditionReports | proj/src/main/pt/up/fe/comp2025/analysis/passes/TypeCheck.java:164-193 | At most one report, at the statement; ConditionChecked says when it is made. |
| TypeCheck.NotReports | proj/src/main/pt/up/fe/comp2025/analysis/passes/TypeCheck.java:379-406 | At most one report, at the negation; NotChecked says when it is made. |
| TypeCheck.LengthReports | proj/src/main/pt/up/fe/comp2025/analysis/passes/TypeCheck.java:488-519 | At most one report, at the `.length`; LengthChecked says when it is made. |
| TypeCheck.AssignReports | proj/src/main/pt/up/fe/comp2025/analysis/passes/TypeCheck.java:195-243 | At most one report, at the assignment; SameTypeAssignAccepted and NonVariableTargetReported say when it is made. |
| TypeCheck.ReturnReports | proj/src/main/pt/up/fe/comp2025/analysis/passes/TypeCheck.java:408-431 | At most one report, at the returned expression; SameTypeReturnAccepted and IntForBooleanReturnReported say when it is made. |
| TypeCheck.ArrayAssignReports | proj/src/main/pt/up/fe/comp2025/analysis/passes/TypeCheck.java:433-486 | At most one report, at the statement. |
| TypeCheck.FactsOf | proj/src/main/pt/up/fe/comp2025/analysis/passes/TypeCheck.java:245-377 | The facts of every argument, in order. |
| TypeCheck.FactsAt | proj/src/main/pt/up/fe/comp2025/analysis/passes/TypeCheck.java:245-377 | The i-th fact is that of the i-th argument. |
| TypeCheck.ArgScan | proj/src/main/pt/up/fe/comp2025/analysis/passes/TypeCheck.java:245-377 | While scanning, the index never passes the parameters or the arguments scanned. |
| TypeCheck.ArityReports | proj/src/main/pt/up/fe/comp2025/analysis/passes/TypeCheck.java:245-377 | The closing arity test: every parameter matched, or all but a final vararg. |
| TypeCheck.CheckedCallReports | proj/src/main/pt/up/fe/comp2025/analysis/passes/TypeCheck.java:245-377 | Unknown callee parameters throw; otherwise at most one report, at the call. |
| TypeCheck.StaticArgReports | proj/src/main/pt/up/fe/comp2025/analysis/passes/TypeCheck.java:245-377 | At most one report, at the call. |
| TypeCheck.CallReports | proj/src/main/pt/up/fe/comp2025/analysis/passes/TypeCheck.java:245-377 | At most one report, at the call. |
| TypeCheck.TypeChecker.constructor | proj/src/main/pt/up/fe/comp2025/analysis/passes/TypeCheck.java:14-30 | A new checker has the mode and table it was given, no current method and no reports. |
| TypeCheck.TypeChecker.VisitMethodDecl | proj/src/main/pt/up/fe/comp2025/analysis/passes/TypeCheck.java:34-37 | The method's name becomes the current method. |
| TypeCheck.TypeChecker.Add | proj/src/main/pt/up/fe/comp2025/analysis/passes/TypeCheck.java:39-519 | A visit's reports are appended, or its exception is handed back with the reports unchanged. |
| TypeCheck.TypeChecker.VisitBinaryExpr | proj/src/main/pt/up/fe/comp2025/analysis/passes/TypeCheck.java:39-115 | The reports of BinaryReports, in the checker's mode (as written or corrected), are appended. |
| TypeCheck.TypeChecker.VisitArrayAccess | proj/src/main/pt/up/fe/comp2025/analysis/passes/TypeCheck.java:117-162 | The reports of ArrayAccessReports are appended. |
| TypeCheck.TypeChecker.VisitConditions | proj/src/main/pt/up/fe/comp2025/analysis/passes/TypeCheck.java:164-193 | The reports of ConditionReports, in the checker's mode, are appended. |
| TypeCheck.TypeChecker.VisitAssignment | proj/src/main/pt/up/fe/comp2025/analysis/passes/TypeCheck.java:195-243 | The reports of AssignReports are appended. |
| TypeCheck.TypeChecker.VisitNot | proj/src/main/pt/up/fe/comp2025/analysis/passes/TypeCheck.java:379-406 | The reports of NotReports are appended. |
| TypeCheck.TypeChecker.VisitReturnStmt | proj/src/main/pt/up/fe/comp2025/analysis/passes/TypeCheck.java:408-431 | The reports of ReturnReports are appended. |
| TypeCheck.TypeChecker.VisitArrayAssignment | proj/src/main/pt/up/fe/comp2025/analysis/passes/TypeCheck.java:433-486 | The reports of ArrayAssignReports, in the checker's mode, are appended. |
| TypeCheck.TypeChecker.VisitArrayLength | proj/src/main/pt/up/fe/comp2025/analysis/passes/TypeCheck.java:488-519 | The reports of LengthReports are appended. |
| TypeCheck.TypeChecker.VisitMethodCall | proj/src/main/pt/up/fe/comp2025/analysis/passes/TypeCheck.java:245-377 | The reports of CallReports are appended. |
| TypeCheck.CheckCall | proj/src/main/pt/up/fe/comp2025/analysis/passes/TypeCheck.java:245-377 | The argument loop over a call to the own class gives CheckedCallReports. |
| TypeCheck.RunScan | proj/src/main/pt/up/fe/comp2025/analysis/passes/TypeCheck.java:262-360 | The loop over the arguments, with its early returns, gives ArgScan. |
| TypeCheck.ScanArg | proj/src/main/pt/up/fe/comp2025/analysis/passes/TypeCheck.java:262-360 | One turn of the argument loop gives the scan step. |
| TypeCheck.ScanTyped | proj/src/main/pt/up/fe/comp2025/analysis/passes/TypeCheck.java:262-360 | The vararg and compatibility checks of one argument give the typed step. |
| TypeCheck.CheckStaticArgs | proj/src/main/pt/up/fe/comp2025/analysis/passes/TypeCheck.java:245-377 | The loop over an exempt call's arguments reports the first static field access. |
| TypeCheck.ArgScanSettled | proj/src/main/pt/up/fe/comp2025/analysis/passes/TypeCheck.java:262-360 | Once the scan has thrown or reported, later arguments change nothing. |
| TypeCheck.StaticArgsSettled | proj/src/main/pt/up/fe/comp2025/analysis/passes/TypeCheck.java:245-377 | Once an argument has thrown or been reported, later arguments change nothing. |
| TypeCheckFacts.ImportedClassCallExempt | proj/src/main/pt/up/fe/comp2025/analysis/passes/TypeCheck.java:90-97 | A call on a fresh object of an imported class, to a method this class does not declare, is exempt. |
| TypeCheckFacts.OwnMethodCallNotExempt | proj/src/main/pt/up/fe/comp2025/analysis/passes/TypeCheck.java:90-97 | A call to a declared method on a receiver typed as this class is never exempt. |
| TypeCheckFacts.StaticOperandReported | proj/src/main/pt/up/fe/comp2025/analysis/passes/TypeCheck.java:39-115 | A static field on the left is reported, whatever the operator, before any typing. |
| TypeCheckFacts.IntOperatorChecked | proj/src/main/pt/up/fe/comp2025/analysis/passes/TypeCheck.java:39-115 | An int operator on plain operands is accepted exactly when both are ints, and otherwise reported with both types. |
| TypeCheckFacts.BooleanOperatorChecked | proj/src/main/pt/up/fe/comp2025/analysis/passes/TypeCheck.java:39-115 | Any other operator on plain operands is accepted exactly when both are booleans. |
| TypeCheckFacts.ExemptOperandsAccepted | proj/src/main/pt/up/fe/comp2025/analysis/passes/TypeCheck.java:39-115 | Two exempt calls under an int operator are accepted. |
| TypeCheckFacts.ArrayAccessChecked | proj/src/main/pt/up/fe/comp2025/analysis/passes/TypeCheck.java:117-162 | On plain operands a non-array base is reported first, then a non-int index. |
| TypeCheckFacts.ConditionChecked | proj/src/main/pt/up/fe/comp2025/analysis/passes/TypeCheck.java:164-193 | A plain condition is accepted exactly when it is a boolean. |
| TypeCheckFacts.NotChecked | proj/src/main/pt/up/fe/comp2025/analysis/passes/TypeCheck.java:379-406 | A plain negated operand is accepted exactly when it is a boolean. |
| TypeCheckFacts.LengthChecked | proj/src/main/pt/up/fe/comp2025/analysis/passes/TypeCheck.java:488-519 | `.length` of a plain object is accepted exactly when it is an array or a vararg. |
| TypeCheckFacts.SameTypeAssignAccepted | proj/src/main/pt/up/fe/comp2025/analysis/passes/TypeCheck.java:195-243 | A plain value assigned to a variable of its own type is accepted. |
| TypeCheckFacts.NonVariableTargetReported | proj/src/main/pt/up/fe/comp2025/analysis/passes/TypeCheck.java:195-243 | Any target other than a variable is reported, whatever the value. |
| TypeCheckFacts.SameTypeReturnAccepted | proj/src/main/pt/up/fe/comp2025/analysis/passes/TypeCheck.java:408-431 | A plain value of the method's own return type is accepted. |
| TypeCheckFacts.IntForBooleanReturnReported | proj/src/main/pt/up/fe/comp2025/analysis/passes/TypeCheck.java:408-431 | An int returned from a boolean method is reported, naming both types. |
| TypeCheckFacts.MatchingArgsScan | proj/src/main/pt/up/fe/comp2025/analysis/passes/TypeCheck.java:262-360 | Plain arguments matching non-vararg parameters one for one leave the scan clean. |
| TypeCheckFacts.VarargElementsScan | proj/src/main/pt/up/fe/comp2025/analysis/passes/TypeCheck.java:262-360 | Plain elements of a single vararg's element type keep the index at 0 and set the vararg flag. |
| TypeCheckFacts.ExtraArgScan | proj/src/main/pt/up/fe/comp2025/analysis/passes/TypeCheck.java:262-360 | Once the parameters are used up, one more argument of any kind is reported. |
| TypeCheckFacts.ArrayAfterElementScan | proj/src/main/pt/up/fe/comp2025/analysis/passes/TypeCheck.java:262-360 | An element and then an array for the same vararg: the array is reported. |
| TypeCheckFacts.ArgAfterArrayScan | proj/src/main/pt/up/fe/comp2025/analysis/passes/TypeCheck.java:262-360 | An array and then anything for the same vararg: the later argument is reported. |
| TypeCheckFacts.PlainFacts | proj/src/main/pt/up/fe/comp2025/analysis/passes/TypeCheck.java:262-360 | The facts of plain arguments of the parameters' own types. |
| TypeCheckFacts.ExactArgsAccepted | proj/src/main/pt/up/fe/comp2025/analysis/passes/TypeCheck.java:245-377 | One plain argument of the right type per non-vararg parameter is accepted. |
| TypeCheckFacts.ExtraArgReported | proj/src/main/pt/up/fe/comp2025/analysis/passes/TypeCheck.java:245-377 | One argument more than the parameters is reported with both counts. |
| TypeCheckFacts.MissingArgReported | proj/src/main/pt/up/fe/comp2025/analysis/passes/TypeCheck.java:245-377 | Too few arguments, with the next parameter not a vararg, is reported with both counts. |
| TypeCheckFacts.VarargElementsAccepted | proj/src/main/pt/up/fe/comp2025/analysis/passes/TypeCheck.java:245-377 | Any number of plain elements, none included, for a single vararg parameter is accepted. |
| TypeCheckFacts.StaticArgNeedsStatic | proj/src/main/pt/up/fe/comp2025/analysis/passes/TypeCheck.java:245-377 | A static field argument is reported only from a static method, and only for a variable that is a field. |
| TypeCheckFacts.NonVariableArgsQuiet | proj/src/main/pt/up/fe/comp2025/analysis/passes/TypeCheck.java:245-377 | Arguments that are not variables are never reported for an exempt call. |
| TypeCheckFacts.ImportedObjectCallAccepted | proj/src/main/pt/up/fe/comp2025/analysis/passes/TypeCheck.java:245-377 | A call on a fresh imported object to a method this class lacks, with no variable arguments, is accepted. |
| TypeCheckFindings.ImportedObjectCall | proj/src/main/pt/up/fe/comp2025/analysis/passes/TypeCheck.java:90-97 | A call on a fresh object of an imported class has an imported receiver, and types as null when no return type is recorded. |
| TypeCheckFindings.LeftCallRightLeaf | proj/src/main/pt/up/fe/comp2025/analysis/passes/TypeCheck.java:90-97 | As written, an exempt call `&&` a leaf operand throws on the leaf's missing child; repaired it is accepted. |
| TypeCheckFindings.PlainLeftCallRight | proj/src/main/pt/up/fe/comp2025/analysis/passes/TypeCheck.java:90-97 | As written, a boolean `&&` an exempt call with no recorded type throws on the null type; repaired it is accepted. |
| TypeCheckFindings.ImportedCallBesideLiteral | proj/src/main/pt/up/fe/comp2025/analysis/passes/TypeCheck.java:90-97 | `new C().f() && true` and `true && new C().f()` both throw as written, and both are accepted repaired. |
| TypeCheckFindings.RepairedRightExemption | proj/src/main/pt/up/fe/comp2025/analysis/passes/TypeCheck.java:90-97 | Repaired, the right operand's exemption is its own receiver's. |
| TypeCheckFindings.StaticCondition | proj/src/main/pt/up/fe/comp2025/analysis/passes/TypeCheck.java:166-172 | A static field read as a condition in a static method is unreported as written and reported repaired. |
| TypeCheckFindings.FlagIsStaticRead | proj/src/main/pt/up/fe/comp2025/analysis/passes/TypeCheck.java:166-172 | Such a condition exists. |
| TypeCheckFindings.AsWrittenConditionNeverStatic | proj/src/main/pt/up/fe/comp2025/analysis/passes/TypeCheck.java:166-172 | As written no condition is ever reported as a static access. |
| TypeCheckFindings.FieldArrayAssign | proj/src/main/pt/up/fe/comp2025/analysis/passes/TypeCheck.java:436-446 | `arr[0] = 1` on an `int[]` field in an instance method is reported as written and accepted repaired. |
| TypeCheckFindings.RepairedInstanceAssignNotStatic | proj/src/main/pt/up/fe/comp2025/analysis/passes/TypeCheck.java:436-446 | Repaired, an instance method's array assignment is never a static access. |

## Left out

- Input and output are not modelled: printing, the file system, and the report's line and column numbers (sites name the node instead).
- The OLLIR parser is out of scope. Register allocation and Jasmin generation take the OLLIR class unit as a value.
- Jasmin generation for calls, `new`, field access and the class header is not part of this model. Only the parts listed in the table are modelled: descriptors, literals, loads, stores, `iinc`, comparisons, returns, limits and class paths.
- The key order of the liveness IN map is a parameter (`keys`). The model proves nothing about which order Java picks.
- Interference.NodesOf: the node map lists its nodes in the order their registers first appear in the var table, while the Java `HashMap<Integer, Node>` is walked by increasing register for small register keys. The two agree when the var table lists its LOCAL registers in increasing order (`Interference.NodesAscending`); for other var tables the model may walk the nodes, and so colour them, in a different order.
- Interference.GraphNodes: builds the nodes in the var table's order, as `Interference.NodesOf` does, with the same gap.
- The var table is a list of entries in a fixed order; which order Java walks the var table's `HashMap` in is not modelled.
- The map of available colours is walked by increasing colour, the order Java gives its small integer keys; this order is built into the model, not a parameter.
- Visitor dispatch: the framework's visitor classes (`AnalysisVisitorReverse`, `AnalysisVisitor`, `AJmmVisitor`) are not part of this model. Folding is modelled as visiting children before their parent, and the other passes as visiting in tree order.
- Type texts (`Type.print`, `toString`) are modelled as the name followed by "[]" for arrays.
- Node replacement in place (`JmmNode.replace`) is modelled on tree values. Aliasing between node objects is not captured, and neither is a partial rewrite left behind when an exception interrupts a pass.
- Folding's change flag is never set by the Java code; the model keeps it that way, so the driver's loop runs on propagation's flag alone.
- The overflow of the compare-label counter (`jumpTrueLabelIdx`) is not modelled. The counter is an unbounded natural number.
- ConstantFolding.ParseIntLiteral: only the ASCII digits '0' to '9' are read as digits. `Integer.parseInt` also accepts the other Unicode decimal digits, but integer literals only ever hold ASCII digits.
- JasminGenerator.PeepholeAsWritten: the literal range `iinc` can encode (-128 to 127) is not checked, because the source does not check it either; the model emits what the source emits.
- The builder's loops collect their reports locally and append them once at the end. The resulting list is the same as the source's appends one at a time.
- The type-checking visits take the enclosing method's `isStatic` as a parameter. The ancestor lookup that finds it is not modelled.
- UndeclaredMethod.CallReports: the enclosing method is a parameter. The ancestor search that finds it is not modelled.
- JmmSymbolTable.java is modelled only as the `SymbolTable` datatype and its getters, which carry no contract of their own.
- Edge.java is modelled as the edge lists of the graph nodes, without an edge object.
- The semantic passes not listed in the table are not part of this model.

## Findings

| source | as written | input that shows it | evidently intended | confidence | as-written member | corrected member |
|---|---|---|---|---|---|---|
| proj/src/main/pt/up/fe/comp2025/optimization/ConstantPropagation.java:60-69 | after `while` the names assigned in the body are forgotten before the body is visited, and the body's own assignments then record their literals, which stay in the map after the loop | `x = 5; while (b) x = 1; return x;` rewrites the return to `return 1;` | forget the body's targets after the loop too | not executed | PropagationFindings.LoopConstantEscapes | PropagationFindings.LoopConstantRepaired |
| proj/src/main/pt/up/fe/comp2025/optimization/ConstantPropagation.java:32-57 | `visitIfStmt` takes the names a branch assigns from its scope's return value, which only lists direct assignments, so an assignment inside a nested `if` is not forgotten at the join | `x = 5; if (b) { if (b) { x = 1; } else {} } else {} return x;` rewrites the return to `return 5;` | a statement returns every name it assigns, at any depth | not executed | PropagationFindings.NestedIfConstantEscapes | PropagationFindings.NestedIfRepaired |
| proj/src/main/pt/up/fe/comp2025/optimization/ConstantPropagation.java:38-40 | an `else` branch that is an `if` without braces returns Java's null from the inner visit, and the outer visit dereferences it | `if (b) x = 1; else if (b) x = 2; else x = 3;` throws NullPointerException | any statement may be a branch | not executed | PropagationFindings.ElseIfThrows | PropagationFindings.ElseIfRepaired |
| proj/src/main/pt/up/fe/comp2025/optimization/VarargOpt.java:48-51 | the parameters of the callee are looked up in the own class's table, even when the method is inherited from the superclass | `this.g()` with `g` inherited throws NullPointerException | leave calls to unlisted methods alone | not executed | VarargFindings.InheritedCallThrows | VarargFindings.InheritedCallRepaired |
| proj/src/main/pt/up/fe/comp2025/optimization/VarargOpt.java:54 | only an array initialiser as the last argument is taken as already packed | `this.sum(a)` with `int[] a` wraps `a` into `{a}` | pass an argument typed as an array straight through | not executed | VarargFindings.ArrayArgumentWrapped | VarargFindings.ArrayArgumentRepaired |
| src/main/pt/up/fe/comp2025/optimization/LiveLinessAnalyser.java:140-145 | a conditional branch uses its condition only when that is a single operand; a branch on an operator condition uses nothing | `if (!.bool c.bool) goto endif0;` uses nothing | a branch uses every local its condition reads | not executed | LivenessFindings.NegatedBranchUseDropped | LivenessFindings.RepairedUsesAreReads |
| src/main/pt/up/fe/comp2025/optimization/LiveLinessAnalyser.java:105-114 | an array store counts as a definition of the array | `a[i.i32].i32 :=.i32 v.i32;` defines `a` and uses nothing of it | an array store defines nothing and uses the array, the index and the value | not executed | LivenessFindings.ArrayStoreDefinesArray | LivenessFindings.RepairedDefinesAssignedLocal |
| src/main/pt/up/fe/comp2025/optimization/LiveLinessAnalyser.java:42-86 | the change test asks whether the new IN or OUT list shares an element with the copy taken before the update, not whether it differs from it; on the first pass every copy is empty, so no change is reported and the loop stops after one pass | a counting `while` loop: the counter is not live out of the increment that jumps back to the test | repeat the pass until no IN list changes | not executed | LivenessFindings.CounterBackEdgeMissed | LivenessFixpoint.ComputeFixpoint |
| proj/src/main/pt/up/fe/comp2025/optimization/graph_utils/InterferenceGraph.java:63-93 | a variable's liveness ranges are read off the OUT sets alone, so a variable assigned and never read has no range and interferes with nothing | `y = 1; x = 5; return y;`: `x` and `y` have no edge and may share a register, so the store to `x` overwrites `y` | count the instruction that defines a variable in its range | not executed | InterferenceFindings.DeadStoreNoEdge | InterferenceFindings.DeadStoreInterferes |
| proj/src/main/pt/up/fe/comp2025/optimization/graph_utils/GraphColoringAlgorithm.java:147-166 | a failed attempt retries on the graph that simplification left behind, without the nodes it removed | four nodes `a`, `b`, `c`, `d` with minimisation: `c` and `d` interfere and share register 0 | retry on the graph the attempt started from | not executed | ColoringFindings.AsWrittenClash | ColoringFindings.RepairedProper |
| proj/src/main/pt/up/fe/comp2025/optimization/OllirGeneratorVisitor.java:204-231 | a parenthesised operand counts as simple, and the direct flag lowers it inline | `id = i + (j * k);` becomes one move holding both operators | lower a parenthesised operator to a temporary first | not executed | OllirDirectFindings.AsWrittenInlinesParenthesised | OllirDirectFindings.RepairedParenthesisedIsTemp |
| src/main/pt/up/fe/comp2025/backend/JasminGenerator.java:233-253 | SUB with a literal operand on either side becomes `iinc` by the literal | `x = x - 1` becomes `iinc x 1`; `x = 1 - x` too | negate the literal for `x - c`, and emit no `iinc` for `c - x` | not executed | JasminGenerator.AsWrittenSubIncrements | JasminGenerator.RepairedIincAgrees |
| src/main/pt/up/fe/comp2025/analysis/passes/ArrayInitIsInt.java:20 | elements are typed with the method name "value" | `int[] a; a = [i];` with `i` a local of the method fails the lookup | type elements in the enclosing method | not executed | ArrayInitIsInt.AsWrittenVariableElementFails | ArrayInitIsInt.RepairedLocalElementAccepted |
| proj/src/main/pt/up/fe/comp2025/analysis/passes/TypeCheck.java:95 | the exemption of the right operand tests whether the left operand is a call, and types the right operand's first child | `new C().f() && true` with `C` imported throws on the literal's missing child | test the right operand's own receiver | not executed | TypeCheckFindings.ImportedCallBesideLiteral | TypeCheckFindings.RepairedRightExemption |
| proj/src/main/pt/up/fe/comp2025/analysis/passes/TypeCheck.java:169-170 | the static-field test of a condition is asked of the `if` or `while` node, which is never a variable | `if (flag)` in a static method, with `flag` a boolean field, is not reported | ask the test of the condition | not executed | TypeCheckFindings.AsWrittenConditionNeverStatic | TypeCheckFindings.StaticCondition |
| proj/src/main/pt/up/fe/comp2025/analysis/passes/TypeCheck.java:441 | assigning into an element of a field array is reported as a static access without checking that the method is static | `arr[0] = 1;` in an instance method with `int[] arr` a field is reported | report it only in a static method | not executed | TypeCheckFindings.FieldArrayAssign | TypeCheckFindings.RepairedInstanceAssignNotStatic |
