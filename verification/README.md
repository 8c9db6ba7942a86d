# Verified model of the dmlc compiler

dmlc compiles DML, a device-modelling language, to C. This project models the parts of the compiler
that carry its correctness and proves what they promise. `dafny verify dfyconfig.toml` checks all of it.

- `lowering/` turns methods with exceptions into C. `Dml` is the source language after name
  resolution, `CTarget` the C that is emitted, with flags, labels and gotos, `FlowControl` the search that
  decides whether a method needs a flag, `Emission` the text of every statement, `Labels`, `Gotos` and
  `TidyBodies` what that text is like, `Scopes` which flags it uses, `Tables` which flag a try declares,
  `StaleFlags` where a flag is tested that has not been written, `Simulation` the theorem that the text
  means the same, `Generation` the translator over its mutable flow context, `Misplaced` what text means
  whose branches C attaches elsewhere, and `Limits` the other inputs on which the compiler goes wrong.
- `registers/` is the address map. `OffsetExpr` reads offset expressions as a base and strides,
  `Buckets` classifies registers, `Decoder` is the access code of one list of registers (array tests
  and a switch), `BankDecoder` the nested windows of groups around it, `Layout` and `Plans` the layouts
  that are decoded exactly, `AddressMap` the way from expressions to the decoder, `AccessGeneration` the
  emitter over its one reused index vector, and `BankSize` the size of a bank.
- `worklist/` is the fixed point over pending and generated methods: `Worklist` has the lists and their
  invariant, `ObjectTree` the three traversals of the device, `Scheduling` the rounds.
- `lists/` is the circular list under all queues, `declarators/` the reading of C declarators,
  `expressions/` bit slices, the constant folder and the laws of its operators, `imports/` the stack of
  files being parsed.

`Common` and `Arithmetic` hold what several modules share.

Where the source changes things in place the model is a class or an array with the same loops, and each
such method is tied to a function on values; the theorems are about these functions.

The source semantics are fuelled: `None` stands for a run that the fuel does not cover, and statements
about all amounts of fuel are statements about all runs, finite or not.

Where the code does something else than it seems meant to do, the model follows the code, and a lemma
gives the input or the exact condition:

- an `else` behind a call without braces runs whenever no exception is thrown
  (`Misplaced.UnbracedCallTakesElse`), and a loop over such a call looks at its last round only
  (`Misplaced.UnbracedCallInLoop`);
- a branch or body without text takes the next statement of the block (`Misplaced.EmptyBranchMatters`,
  `Misplaced.VanishingElseMatters`, `Misplaced.EmptyBodyMatters`);
- a handler under the table of the method tests the flag of the exception it handles
  (`Limits.StaleFlag`);
- the flow context is read through a null pointer before the first method with a flag
  (`Generation.GetsThroughIff`, `Generation.HandledFirst`);
- a return in an inlined method leaves the caller (`Limits.InlineIsRightIff`);
- the search for exceptions passes over some nodes (`FlowControl.HasExecIsExact`), which does harm to calls
  only (`Scopes.FunctionScoped`, `Limits.HiddenThrowIsGood`);
- `c + $i` loses its stride (`OffsetExpr.LostStrides`);
- registers of a group outside of the windows of its first register are never selected
  (`BankDecoder.BankDecodesExactly`, `AddressMap.InterleavedIsLost`), and two scalars in one slot get two
  equal case labels in all but the first element of a group (`AddressMap.SharedSlot`);
- the reset between check and generation passes over the events of registers, attributes and connects
  (`Scheduling.CheckThenGenerate`, `Scheduling.GenerationLosesEvent`), and no phase visits the attributes
  of groups (`ObjectTree.DeviceVisitsExactly`);
- the array test of the declarator fold looks at the base type, a function declarator without a
  name is lost (`Declarators.DeclaratorMeaning`), and stars of type names are derived in reverse
  (`Declarators.StarsAreReversed`);
- the constant folder computes `&` as `^` (`ConstantFolding.AndFoldsRight`), so that some conditions are
  pruned wrong (`ConstantFolding.PrunedRightIff`, `ConstantFolding.WrongBranch`);
- the size of a bank does not cover registers with offset expressions (`BankSize.ExpressionsAreNotPlaced`).

## Model

| member | source | states |
|---|---|---|
| `Simulation.LoweringPreservesMeaning` | `gen_common.c:2637-2671` | For every program whose functions were generated from good methods, in any order and with any flow context left over from the method before: the generated function ends on exactly the runs on which the method ends, leaves the same state, and returns 1 exactly when an exception leaves the method |
| `Simulation.SimBody` | `gen_common.c:2502-2539` | A method body run by the emitted entry code (flag declared or not, exit label, final `return 0`) gives the result of the source body; mutual induction over fuel with all statement simulations |
| `Simulation.Sim` | `gen_common.c:849-879` | Every tidy statement, under any flow context that is set up while it is translated: the emitted text does what the statement does, an exception shows as a jump to the handler in force with the flag set, or as `return 1` without one, no other flag changes, and a flag that was not set is set by an exception only |
| `Simulation.SimTry` | `gen_common.c:1177-1237` | A try runs its catch, braces or not, exactly when its body threw, under the flow context from outside, and its own flag is gone afterwards |
| `Simulation.SimThrow` | `gen_common.c:1287-1308` | A throw sets the flag of the flow context and reaches the handler in force, or leaves the function with 1 |
| `Simulation.SimCall` | `gen_common.c:510-628` | A call propagates an exception of the callee to the handler in force, or out of the function, and otherwise goes on |
| `Simulation.SimIf` | `gen_common.c:980-1085` | An else-if chain, pruned by whatever the folder says about its conditions, runs the branch that the source runs; branches may be calls without braces, whose flag test then stands behind the whole chain |
| `Simulation.ElseTest` | `gen_common.c:609-628` | Behind a branch that makes no call, the flag test of a call in the other branch does nothing |
| `Simulation.SimSwitch` | `gen_common.c:1351-1379` | A switch enters the emitted block at the statement of its case, else at the default, else behind its end, and falls through from there as the source does |
| `Simulation.SimLoop` | `gen_common.c:1092-1110` | A loop runs the same iterations; break and continue stay inside of it, exceptions and returns pass through it |
| `Simulation.SimInline` | `gen_common.c:1654-1731` | An inlined method runs under the flow context and flag of the method around it |
| `Simulation.SimFrom` | `gen_common.c:1360-1379` | Entering a list of statements at a label and running on to its end agrees in source and target |
| `TidyBodies.EmitShape` | `gen_common.c:849-879` | The text of a tidy part is empty, one C statement, or one with the flag test of a call behind it, as can be read off the source; a single one would be joined by a following `else` if and only if the source ends in an `if` that lacks one |
| `TidyBodies.ElseBelongs` | `gen_common.c:1042-1085` | The emitted `if` has the text of its branches as its two arms, with at most a flag test behind it, if and only if the branch has text, and before an `else` it is one closed statement and the `else` has text: an iff for all branches that are tidy by themselves |
| `TidyBodies.OwnBranchesIff` | `gen_common.c:1042-1085` | The same at the level of text, for branches of any number of statements: when a C reader takes the `else` to the right `if` |
| `TidyBodies.NextIsBranchIff` | `gen_common.c:1042-1085` | The statement behind an `if` becomes its branch if and only if the last branch has no text (and, with an `else`, the first one has) |
| `TidyBodies.NextIsBodyIff` | `gen_common.c:1092-1110` | The statement behind a loop becomes its body if and only if the body has no text, and the flag test of a call ends up behind the loop if and only if the body ends in an unbraced one |
| `StaleFlags.QuietIsSteady` | `gen_common.c:2502-2539` | A statement that makes no call whose exception can get out reads nothing from the flow context around, whichever it is |
| `Labels.LabelsUniqueIffApart` | `gen_utility.c:269-284` | No label stands twice in the text of a statement if and only if no try body holds another try that is translated under the same symbol table (the throw name of the table is then renamed while the outer body is being emitted) |
| `Labels.CompoundIsApart` | `gen_common.c:1205-1214` | Compound try bodies, each with a table of its own, satisfy this condition |
| `Labels.EmitKeeps` | `gen_utility.c:269-284` | Emission keeps the throw names it does not have to change, gives new numbers to those it has to, and gives no number back |
| `Gotos.MethodGotosResolved` | `gen_common.c:1177-1237` | In every generated function each goto has its label further down in a block that encloses it, and no label stands there twice |
| `Gotos.EmitSealed` | `gen_common.c:1287-1308` | Given a label for the handler in force, the gotos of a statement all reach theirs and its text exposes no label |
| `FlowControl.SearchIsExact` | `flow_ctrl.c:161-270` | For every statement: the syntax has an escaping call, throw or return if and only if the search finds one or passes over a node that has one |
| `FlowControl.HasExecIsExact` | `flow_ctrl.c:280-283` | For every method: a flag is given only where an exception may get out, and a method without one lets an exception out by its syntax if and only if the search has passed over a call or throw; the same for the exit label and returns |
| `FlowControl.NeverEnds` | `flow_ctrl.c:161-270` | A statement whose syntax has no escaping throw (or return) never ends that way, whatever the methods it calls do |
| `FlowControl.HasExecIsSound` | `flow_ctrl.c:280-283` | A method that gets no flag lets no exception out on any run, where the search passes over no escaping call or throw |
| `FlowControl.BlindSpots` | `flow_ctrl.c:181-268` | Each kind of node that the search passes over (default and label in a list; a loop, switch or try where a single statement stands) hides a throw that does leave the method |
| `Scopes.EmitScoped` | `gen_common.c:609-628` | For every statement, tidy or not, and every set of flags around it: its text uses only flags that are declared if and only if the flag of the flow context is, or no call needs it that is not empty, can be reached past the pruned conditions and stands in no try of that flag |
| `Scopes.FunctionScoped` | `gen_common.c:2502-2539` | A generated function uses only flags that it declares if and only if it has one of its own or makes no such call under the left-over context |
| `Scopes.FlagsAreDeclared` | `gen_common.c:2502-2539` | Where no try of the method has the table of the left-over flag: if and only if the method has a flag or makes no call whose exception can get out |
| `Tables.DeclaredFlags` | `gen_common.c:1177-1237` | For every statement, tidy or not: its text declares a flag exactly as often as a try of the statement stands under the symbol table of the flag, where the tables are read off the source: those of branches, loops in braces, `for`, inlined methods and compound try bodies |
| `Tables.TryInLoop` | `gen_common.c:1092-1170` | A try in the braces of a `while` or `for` declares the flag of the table of the loop; without braces that of the table around a `while`, and that of a `for` |
| `Tables.TryInBranch` | `gen_common.c:1042-1085` | A try in the braces of a branch declares the flag of the table of this branch |
| `Tables.TryInFolded` | `gen_common.c:980-1041` | The same for the branch that is left of a condition that folds |
| `Tables.TryInInlined` | `gen_common.c:1654-1731` | A try in an inlined method declares the flag of the table of that method |
| `Generation.Generator.Translate` | `gen_common.c:849-879` | The in-place translation appends exactly the specified text to `out` and leaves flow context and current table as on entry; it stops exactly where the statement reads the flow context and none has been set up |
| `Generation.Generator.TranslateIfElse` | `gen_common.c:980-1085` | The loop over the else-if chain with its early exits appends the text that the recursive reading of the chain prescribes |
| `Generation.Generator.SetThrowSymbolAlias` | `gen_utility.c:269-284` | The throw symbol of a table gets the next unused number, and the number is used up |
| `Generation.Generator.TranslateTryCatch` | `gen_common.c:1177-1237` | The saved and restored flow context: the body is translated under the flag and label of its try, the catch under the context from outside, which is also in force afterwards; without one the compiler stops |
| `Generation.Generator.TranslateThrow` | `gen_common.c:1287-1308` | Appends the jump to the handler in force, or the return without one, and changes nothing else; without a flow context the compiler stops |
| `Generation.Generator.TranslateCall` | `gen_common.c:510-628` | Appends the call and the test of its flag, or nothing of it for a callee with an empty body, for which no flow context is needed either |
| `Generation.Generator.GenDmlMethod` | `gen_common.c:2853-2877` | The function of one method, from whatever flow context the last method left; it fails if and only if there is none yet, the method gets no flag, and its body reads the context |
| `Generation.Generator.GenerateAll` | `gen_common.c:2853-2877` | Generating the methods one after the other gets through if and only if no method reads the flow context before one has set it up, and yields a program to which the simulation theorem applies |
| `Generation.GetsThroughIff` | `gen_common.c:30` | Generation gets through if and only if in front of every method without a flag that reads the flow context there is one with a flag |
| `Generation.HandledFirst` | `gen_common.c:1197-1204` | A device whose first method is `{ try { throw; } catch {} }` stops the compiler at a null pointer |
| `Limits.GoodFromSyntax` | `gen_common.c:2637-2671` | Conditions on the syntax alone (tidy, compound try bodies, no test of a stale flag, and no call that the search passes over in a method without a flag) make a method one that is lowered faithfully |
| `Limits.HiddenThrowIsGood` | `gen_common.c:1287-1300` | A switch whose default throws: the search passes over the throw, and the method is lowered faithfully without a flag |
| `Limits.UnbracedCallsAreGood` | `gen_common.c:1042-1085` | Methods with a call without braces under an `if`, as `else` or as handler are lowered faithfully |
| `Limits.StaleFlag` | `gen_common.c:1194-1230` | A try, with any tidy body, under the table of the method, whose handler is `if (c) call m();`: the function differs from the method on exactly the runs on which the body throws and c is then false; there it returns 1 and the method ends normally |
| `Limits.GuardedInLoop` | `gen_common.c:1092-1170` | A try whose handler is `if (c) call m();`, in the braces of a loop with a table other than that of the method, is lowered faithfully |
| `Misplaced.UnbracedCallTakesElse` | `gen_common.c:609-628` | The text of `if (c) call m(); else E` means `if (c) call m(); E`, for every condition, call and else; it agrees with the source on a run if and only if c is false, the call throws, or E changes nothing after it |
| `Misplaced.VanishingElse` | `gen_common.c:1042-1085` | An else whose statement has no text takes the next statement of the block: the emitted text is that of the program in which this is the else |
| `Misplaced.VanishingElseMatters` | `gen_common.c:1042-1085` | So the function runs that program, and agrees with the source on a run if and only if the condition is false, the branch does not end normally, or leaving out the next statement makes no difference |
| `Misplaced.EmptyBodiesVanish` | `gen_common.c:510-530` | A call or inlined method has no text if and only if the body of the method is `{}` |
| `Misplaced.EmptyBranchTakesNext` | `gen_common.c:1042-1085` | A branch without text (an empty call or inline, a chain that folds away) takes the next statement of the block, text for text |
| `Misplaced.EmptyBranchMatters` | `gen_common.c:1042-1085` | The function runs the program in which the next statement is the branch, and agrees with the source on a run if and only if the condition holds or leaving out that statement makes no difference |
| `Misplaced.EmptyBodyTakesNext` | `gen_common.c:1092-1170` | A `while` or `for` whose body has no text takes the next statement of the block, text for text |
| `Misplaced.EmptyBodyMatters` | `gen_common.c:1092-1170` | The function runs the loop over the next statement, and agrees with the source on a run if and only if a loop that is entered comes to the same as the loop without a body (for a `while`: goes on forever), and leaving out that statement makes no difference behind a loop that is not entered |
| `Misplaced.UnbracedCallInLoop` | `gen_common.c:1092-1170` | The text of a `while` or `for` over an unbraced call looks at the last call only: it does what the source does up to the first call that throws, and then goes on with the next round; for a `while` it agrees with the source on a run if and only if the source does not end with an exception while the condition holds |
| `Misplaced.LoopLosesException` | `gen_common.c:1092-1110` | An exception is lost where g still holds after the call that throws and the next call succeeds and ends the loop |
| `Limits.InlineIsRightIff` | `gen_common.c:2332-2334` | For every inlined body: the text does what the source does on a run if and only if the run of the body does not end in a return, which is so on all runs of a body without one |
| `Limits.InlinedReturn` | `gen_common.c:2332-2334` | An instance: the return of an inlined method leaves the method around it |
| `Limits.UndeclaredFlag` | `gen_common.c:2502-2539` | An instance for which the text has no meaning: a call behind a label, which the search passes over |
| `OffsetExpr.OffsetIsExact` | `object.c:1509-1644` | Every expression of the accepted shapes with at most MAX_DEPTH levels is read without an error, and base plus strides times indices is its value for every index vector, scaled paths included |
| `OffsetExpr.EvalSubstituted` | `object.c:1509-1530` | The value of an expression under an index vector is that of the constant expression with these indices written into it |
| `OffsetExpr.ReadSumExact` | `object.c:1447-1507` | A left-nested sum fills one stride per level in order and leaves the others 0 |
| `OffsetExpr.SumFitsIff` | `object.c:1447-1507` | A left-nested sum is read without an error if and only if it has at most 8 levels |
| `OffsetExpr.AffineExact` | `object.c:1586-1604` | A constant and one product, in either order, with or without an outer literal |
| `OffsetExpr.AffineSumExact` | `object.c:1620-1641` | A constant and a literal times a bracketed sum |
| `OffsetExpr.DotScale` | `object.c:1612-1616` | Scaling the positive strides scales the linear form |
| `OffsetExpr.LostStrides` | `object.c:1586-1620` | A constant beside anything that is no product is read as the constant alone, which is right for an index vector if and only if the other side is 0 there |
| `OffsetExpr.LostStridesExamples` | `object.c:1586-1620` | `c + $i` and `k*$i + $j + c` lose all their strides |
| `OffsetExpr.Linearizer.GetOffsetInfo` | `object.c:1447-1507` | The recursion over the shared stride position computes the same record, or stops where the compiler stops |
| `OffsetExpr.Linearizer.GetRegisterOffset` | `object.c:1509-1644` | Filling the record in place agrees with the reading that is proved exact, error exits included |
| `OffsetExpr.Linearizer.ScaleStrides` | `object.c:1610-1617` | The loop multiplies the positive strides and leaves the rest of the record |
| `Buckets.ClassificationIsExact` | `gen_once_noplatform.c:536-567` | With positive array sizes classification succeeds if and only if there are fewer than 128 different ones; then every bucket holds exactly the registers of its size in their order, sizes are distinct, and the buckets in use are contiguous from 1 |
| `Buckets.ClassificationLosesNothing` | `gen_once_noplatform.c:619-643` | A register is in a bucket before the first unused one if and only if it is mapped, then in one only, and arrays share a bucket if and only if their sizes are equal |
| `Buckets.RegisterList.FindSlot` | `gen_once_noplatform.c:536-555` | The two loops find the bucket of the size, else take the first unused one, and change nothing else |
| `Buckets.RegisterList.Insert` | `gen_once_noplatform.c:576-587` | The register goes to the end of its bucket |
| `Buckets.SortRegisterArray` | `gen_once_noplatform.c:619-643` | The filled list is the classification, and null stands for the case in which the list would have to grow |
| `Decoder.SwitchIsPartition` | `gen_once_noplatform.c:93-112` | The cases are a partition of the scalars by slots, with distinct labels and each register under the label of its slot in order, if and only if the slots of plain offsets and of addresses agree in the list |
| `Decoder.BankAgrees` | `gen_once_noplatform.c:99-110` | Outside of groups they always agree |
| `Decoder.SwitchTouchesFirst` | `gen_once_noplatform.c:232-281` | The switch runs the first register of the slot of the bus offset, and nothing if the slot has none |
| `Decoder.RunArraysFinds` | `gen_once_noplatform.c:153-158` | The range test, the division and the remainder test find an element if and only if some array has one at the offset, with its index |
| `Decoder.TestsAreArrays` | `gen_once_noplatform.c:130-141` | The loop that stops at the first unused bucket emits the tests of all mapped arrays and no others |
| `Decoder.AccessFinds` | `gen_once_noplatform.c:286-323` | The access code of a list never divides by zero, selects only a register and indices that cover the offset, with the bits and the success flag that are due to it, and nothing only if nothing in the list does |
| `Decoder.TouchInside` | `gen_once_noplatform.c:248-253` | Inside of a register of at most 31 bytes the bits passed on and the success flag are those of the access cut off at the end of the register |
| `Decoder.TouchBehind` | `gen_once_noplatform.c:251` | Behind a register shorter than its slot the unsigned difference wraps around: success is reported for any access up to nearly 2^64 bytes |
| `BankDecoder.BankDecodesExactly` | `gen_once_noplatform.c:377-391` | For registers that do not overlap, in lists that can be emitted: the decoder inverts the address function at all bus offsets, with the bits and the success flag that are due, if and only if every window contains the registers it should |
| `BankDecoder.DecodesAt` | `gen_once_noplatform.c:377-391` | The same for every single bus offset: exact there if and only if what covers the offset lies in all windows around it |
| `BankDecoder.BankFinds` | `gen_once_noplatform.c:377-391` | Whatever the windows are: the decoder selects only what covers the offset and lies in the windows of all groups around it, and nothing only if there is no such register |
| `BankDecoder.WindowsFind` | `gen_once_noplatform.c:325-369` | The unrolled nested windows of a group: a register is selected only with its offset in the window of its element at every level, and one for which that holds is not passed over |
| `BankDecoder.FirstWins` | `gen_once_noplatform.c:325-391` | Where several registers cover an offset, those of the bank itself come before those of its groups, and in a group those of inner groups before its own |
| `Layout.LayoutDecodes` | `gen_once_noplatform.c:325-369` | Mixed radix: if every stride covers the extent of the level inside, and neighbours do not overlap with all indices 0, then registers are disjoint for all indices and the decoder is exact |
| `Layout.GroupPlace` | `object.c:2027-2037` | Under such strides everything inside of a group element lies in the window of that element and in the extent of the group |
| `Layout.GroupUnique` | `gen_once_noplatform.c:337-346` | An address inside of a group determines one register and one index vector |
| `Layout.FitsAgrees` | `gen_once_noplatform.c:99-110` | Scalars in different slots are sorted into the right cases for every index vector around them |
| `Plans.PlanDecodes` | `object.c:2008-2037` | A bank that is laid out as a drawn tree of first addresses and element lengths, with groups side by side in any order at every level and the first group of a group without registers at its start, is decoded exactly at every bus offset |
| `Plans.DrawnInfo` | `object.c:2008-2025` | The base and length that a group is given, from its first register or else from its first group, are those it is drawn with |
| `Plans.PairsDecode` | `object.c:2008-2025` | Two groups side by side in a group array without registers: the words of both are selected at their addresses in both elements |
| `AddressMap.ExpressionDecodes` | `object.c:1509-1644` | End to end: a register with an accepted offset expression is selected with an index vector if and only if the expression evaluates there to the bus offset (or to its slot) |
| `AddressMap.OutsideWindows` | `object.c:2008-2037` | The windows follow the first register of a group: outside of them nothing of the group is selected |
| `AddressMap.InterleavedIsLost` | `object.c:2008-2037` | Two words at `4*$i` and `0x40 + 4*$i` in one group: the second is never selected |
| `AddressMap.SharedSlot` | `gen_once_noplatform.c:93-112` | Two scalars in one slot share a case exactly where the plain offset has the slot of the address; elsewhere both start a case with the same label |
| `AddressMap.TableDecodes` | `gen_once_noplatform.c:325-369` | A bank with two levels of groups satisfies the layout conditions and decodes as it should |
| `AccessGeneration.Generator.RegCalOffset` | `gen_once_noplatform.c:55-72` | The loop over the index vector computes the address under the current indices |
| `AccessGeneration.Generator.SortCaseOf` | `gen_once_noplatform.c:93-112` | Updates the list of cases in place as the partition theorem has it |
| `AccessGeneration.Generator.GenRegisterArrayAccess` | `gen_once_noplatform.c:114-191` | Both loops with the early stop emit the array tests, in bucket order |
| `AccessGeneration.Generator.GenRegisterSingleAccess` | `gen_once_noplatform.c:193-283` | Emits the cases of bucket 0 |
| `AccessGeneration.Generator.GenGroupAccess` | `gen_once_noplatform.c:325-369` | The recursion over the one shared index vector emits the windows for the indices from outside, which it leaves as they were |
| `AccessGeneration.Generator.GenBankAccess` | `gen_once_noplatform.c:377-391` | Emits the decoder that is proved exact |
| `BankSize.SizeIsBound` | `object.c:1810-1860` | Every mapped register with an offset of its own, or with none specified, and every group ends at or below the size of the bank |
| `BankSize.FilledBehind` | `object.c:1829-1832` | A filled-in offset is at or behind the end of every mapped register before it that has one, filled in or not |
| `BankSize.FilledEndToEnd` | `object.c:1829-1846` | Registers without offsets that follow each other lie end to end |
| `BankSize.FilledOffset` | `object.c:1825-1846` | Exactly: a filled-in offset is the largest sum of the bytes before it, counted from the start or from a register with an offset of its own, and no other offset changes |
| `BankSize.NeverDecreases` | `object.c:1825-1846` | The running offset never decreases |
| `BankSize.ExpressionsAreNotPlaced` | `object.c:1744` | A register whose offset is an expression lies inside of the bank, from its real offset on, if and only if its end is reached by the bytes of all registers, by those from some register with a plain offset on, or by a group: an iff for the size of the whole bank |
| `BankSize.RunningIsLargest` | `object.c:1825-1846` | The loop over the registers computes the largest of these sums |
| `BankSize.ExpressionBank` | `object.c:1744` | A bank with one register of 4 bytes at an expression worth 0x100 has a size of 4 |
| `BankSize.CalculateSize` | `object.c:1810-1860` | The loops fill in the unspecified offsets, each at or behind the end of every mapped register before it that has an offset, keep the others, and compute a size at or behind the end of every register with an offset and of every group |
| `Worklist.AddKeeps` | `object.c:3023-3066` | A request keeps the invariant: counter equals the total of all pending lists, no method is in the lists of its object twice, and everything known is needed by the roots; a request that ends the compiler is for a needed method that does not exist |
| `Worklist.RequestIsQueued` | `object.c:3023-3066` | A request for a method in neither list becomes the last pending one and is counted, unless it is for read_access or write_access of a bank or for the fake bank, which change nothing; the compiler exits exactly for the others that do not exist |
| `Worklist.RequestIsKnown` | `object.c:3035-3047` | A request for a method in one of the lists changes nothing |
| `Worklist.SpliceKeeps` | `object.c:3094-3104` | Moving a pending list to the front of the generated list keeps the invariant, counter included |
| `Worklist.HandleKeeps` | `chk_object.c:39-48` | The next pending method has not been handled before |
| `Worklist.HandledIsLeast` | `chk_object.c:283-291` | With the counter at 0 the handled methods are the least set that has the roots and is closed under calls, each once |
| `Worklist.LeastServes` | `chk_object.c:283-291` | The least closed set has all roots and requests of its members but left-over ones and those that change nothing, and nothing of the latter |
| `Worklist.StaleIsHarmless` | `device_check.c:213-243` | With left-over generated methods a run still yields the whole closure if and only if none of the closure is left over |
| `ObjectTree.PhasesOfDevice` | `device_check.c:189-243` | Generation visits every object that the check visits; in a tree the reset visits one of them if and only if it is not below an event of a register, attribute or connect |
| `ObjectTree.DeviceVisitsExactly` | `chk_object.c:211-275` | Each of the three phases visits every object of a device but for those below the attributes of groups, the events of objects at the bottom, and, in the reset, the events of registers, attributes and connects |
| `ObjectTree.ResetVisitsChecked` | `device_check.c:169-199` | Below any object the check visits only what is reset or below such an event |
| `ObjectTree.EventsAreNotReset` | `device_check.c:169-199` | In a tree nothing below such an event is reset |
| `ObjectTree.GenVisitsChecked` | `gen_object.c:156-168` | Below any object generation visits what the check visits |
| `Scheduling.Scheduler.AddObjectMethod` | `object.c:3023-3066` | The scans of both lists, the drop of bank accesses and the exit agree with the request as a step on values |
| `Scheduling.Scheduler.AddObjectGeneratedMethod` | `object.c:3094-3104` | The counting loop subtracts the length of the pending list, which is spliced into the generated list |
| `Scheduling.Scheduler.ChkObjectMethod` | `chk_object.c:39-48` | The loop over a list that grows meanwhile handles all of it, ends, and keeps the invariant; if it handled nothing it changed nothing |
| `Scheduling.Scheduler.ChkObjGenericCode` | `chk_object.c:224-235` | The traversal of the object tree either handles something or leaves nothing pending at the objects it visits |
| `Scheduling.Scheduler.ChkDeviceCode` | `chk_object.c:243-276` | The same of a round over the device and all of its lists |
| `Scheduling.Scheduler.ChkDmlCode` | `chk_object.c:283-291` | With every needed method on a visited object the rounds end; the methods handled, each once, are the least closed set with the roots; the compiler exits if and only if a needed method does not exist; every root is among them that is not left over and is no read_access or write_access of a bank and no method of the fake bank, of which none is handled |
| `Scheduling.Scheduler.BackToZero` | `device_check.c:213-243` | After the reset the generated lists hold exactly the handled methods of the objects passed over |
| `Scheduling.RoundMoves` | `chk_object.c:283-291` | A round with something pending handles something, when all needed methods are on visited objects |
| `Scheduling.Scheduler.ChkRounds` | `chk_object.c:283-291` | Any number of rounds: something stays pending after every number of them unless all needed methods are on visited objects, and if they are, nothing is pending after as many rounds as there are methods and one; idle objects stay as they are |
| `Scheduling.CheckThenGenerate` | `device_check.c:270-274` | Check, reset and generation: generation yields the closure of its roots if and only if nothing in it is left over from the check, and in a tree what is left over is exactly what the check handled of events of registers, attributes and connects |
| `Scheduling.GenerationLosesEvent` | `device_check.c:270-274` | A device with one register, whose event has a method: the check handles it and generation leaves it out of the closure of the same roots |
| `CircularList.NextPrevInverse` | `list.h:60-72` | On a ring next and prev are inverse to each other |
| `CircularList.Between` | `list.h:79-87` | Four link updates insert a node between two neighbours of a ring |
| `CircularList.Add` | `list.h:97-100` | The contents get a new first entry |
| `CircularList.AddTail` | `list.h:110-113` | The contents get a new last entry |
| `CircularList.Delete` | `list.h:123-140` | The contents lose the entry, whose links are poisoned |
| `CircularList.IsEmpty` | `list.h:181-184` | A head that points to itself is that of a list without entries |
| `CircularList.SpliceInit` | `list.h:186-225` | The entries of one list go in front of those of the other, and the first is empty afterwards |
| `CircularList.ListIsClosed` | `list.h:60-72` | A list is a ring if and only if it is a chain whose ends are linked to its head in both directions |
| `ListFamily.Step` | `list.h:79-225` | On a family of lists without common nodes an operation changes the contents of its lists as on sequences, and no other list |
| `ListFamily.Run` | `list.h:79-225` | Over every run of add, add_tail, del and splice_init all lists stay rings without common nodes, with the contents of the same operations on sequences |
| `ListFamily.Snapshot` | `list.h:60-72` | Being a list depends on the links of its own nodes alone |
| `Declarators.DeclaratorMeaning` | `decl.c:1012-1040` | For declarators of the standard, where both accept the declaration, the declared type is that of section 6.7.6 of ISO/IEC 9899:2011 if and only if no parameter list stands without a name or brackets in front of it; otherwise exactly that function is missing from it. An accepted one is illegal exactly if it derives an array of functions or loses a function that would return an array or a function, and a legal one is refused exactly if the base type is a function type and an array is derived |
| `Declarators.ReadIs` | `decl.c:661-678` | Reading pushes the derivations of the tree in order of application, but for a parameter list without anything in front of it, each pointer with its own qualifiers, and leaves the qualifiers from outside |
| `Declarators.NamelessIsLast` | `decl.c:860-866` | The derivation that is not pushed is the last of all |
| `Declarators.MeaningIsLegal` | `decl.c:882-901` | The inside-out reading of the standard is the fold of these derivations from the head |
| `Declarators.FoldsCompared` | `decl.c:1022-1038` | The fold of the compiler and that of the standard, for every derivation list |
| `Declarators.NoFunctionReturnsArrayOrFunction` | `decl.c:1031-1036` | No accepted declarator, standard or not, yields a function that returns an array or a function |
| `Declarators.AbstractFunctionIsLost` | `decl.c:860-866` | The instance `int (int)`: the base type is left |
| `Declarators.StarsAreReversed` | `decl.c:1312-1327` | The pointers of a type name are derived in reverse, which is right if and only if the const flags read the same from both ends |
| `Declarators.Record.ParseCdecl2` | `decl.c:882-901` | The record after reading agrees with the reading as a function on values |
| `Declarators.Record.ParsePoint` | `decl.c:661-678` | Qualifiers of the pointer are collected apart and those from outside restored |
| `Declarators.Record.ParseCdecl3` | `decl.c:853-872` | Arrays and functions push behind what is nearer to the name |
| `Declarators.Record.ParseStar` | `decl.c:1312-1327` | Each star is pushed before the ones to its right |
| `Declarators.Record.DeriveType` | `decl.c:1012-1040` | The loop over the derivation list, with its two error returns, is the fold |
| `Declarators.ParseDecl` | `decl.c:1073-1084` | A declaration is read and folded as the meaning theorem has it |
| `BitSlices.ReadWritten` | `gen_expression.c:457-502` | Reading [hi:lo] after a write of v gives v modulo 2^(hi - lo + 1), at every width |
| `BitSlices.WriteRead` | `gen_expression.c:457-502` | Writing back what was read changes nothing |
| `BitSlices.WriteTwice` | `gen_expression.c:457-502` | The second of two writes to one slice wins |
| `BitSlices.WriteBeside` | `gen_expression.c:457-502` | A write does not change a slice beside it, and writes to slices beside each other commute |
| `BitSlices.ReadIsField` | `gen_expression.c:133-177` | A read is the quotient by 2^lo modulo 2^(hi - lo + 1) |
| `BitSlices.ShiftsAreArithmetic` | `lib/dml_common/simics/base_types.h:65-71` | The operations on bits are the shifts of unsigned C words, and the mask is 2^n - 1 |
| `ConstantFolding.FoldIsSound` | `expression.c:1010-1146` | What is folded to a constant evaluates to it for all variables, in trees whose constant ands are of zeros |
| `ConstantFolding.AndFoldsRight` | `expression.c:1115-1117` | An & of two constants is folded right if and only if both are 0 |
| `ConstantFolding.XorIsAnd` | `expression.c:1115-1117` | ^ and & of two 64-bit values agree if and only if both values are 0 |
| `ConstantFolding.ConditionsAreSound` | `gen_common.c:932-973` | The conditions that the folder is asked about (equality, logical and and or, and unary nodes) are pruned right in every state, in trees whose constant ands are of zeros |
| `ConstantFolding.PrunedShapes` | `gen_common.c:932-973` | Which constant conditions are pruned at all: exactly those with ==, !=, a logical operator of two operands or any operator of one at the root |
| `ConstantFolding.PrunedRightIff` | `gen_common.c:932-973` | A pruned condition is right, in any state, if and only if folding it with & for & gives the same truth value |
| `ConstantFolding.SameConstants` | `expression.c:1010-1146` | Which trees without ?: are constant does not depend on how & is computed |
| `OperatorLaws.RangeIs` | `expression.c:940-1002` | Values are the 64-bit integers |
| `OperatorLaws.SumsAndDifferences` | `expression.c:1051-1056` | A sum, difference or negation is the value that gives the operand back, and is undefined exactly where that does not fit |
| `OperatorLaws.SubUndoesAdd` | `expression.c:1051-1056` | Subtraction undoes addition, which commutes |
| `OperatorLaws.ProductStep` | `expression.c:1057-1059` | Multiplication is repeated addition and commutes |
| `OperatorLaws.MulDistributes` | `expression.c:1057-1059` | Multiplication distributes over addition where all of it is defined |
| `OperatorLaws.DivisionLaw` | `expression.c:1060-1065` | Quotient and remainder give the dividend back, the remainder is smaller than the divisor and has the sign of the dividend; both are undefined exactly for a zero divisor and for the smallest value by -1 |
| `OperatorLaws.DivisionIsUnique` | `expression.c:1060-1065` | These properties determine quotient and remainder |
| `OperatorLaws.Comparisons` | `expression.c:1074-1097` | Exactly one of less, equal and greater holds, by the sign of the difference, and the other three are negations |
| `OperatorLaws.Logic` | `expression.c:1098-1105` | The logical operators look at whether their operands are 0, and obey De Morgan |
| `OperatorLaws.RightShiftStep` | `expression.c:1070-1073` | A shift to the right by one more place halves downwards; it is defined for counts below 64 |
| `OperatorLaws.LeftShiftStep` | `expression.c:1066-1069` | A shift to the left by one more place doubles; it is defined for values that are not negative as long as the result fits |
| `OperatorLaws.RightUndoesLeft` | `expression.c:1066-1073` | A shift to the right undoes one to the left where nothing is lost |
| `OperatorLaws.BitByBit` | `expression.c:1106-1117` | The bitwise operators, bit by bit in two's complement |
| `OperatorLaws.ComplementLaw` | `expression.c:1130-1133` | The complement flips every bit and is one less than the negation |
| `OperatorLaws.BitsDetermine` | `expression.c:1106-1117` | The 64 bits determine a value |
| `ConstantFolding.AndCompared` | `gen_common.c:958-970` | `(l & r) == c` and `(l & r) != c` over constants are pruned right if and only if l and r are 0 or c is neither l & r nor l ^ r |
| `ConstantFolding.NotOfAnd` | `gen_common.c:958-970` | `!(l & r)` over constants is kept exactly if l equals r, which is right if and only if l & r is 0 just when l equals r |
| `ConstantFolding.AndInLogic` | `gen_common.c:958-970` | `l & r` over constants under a logical and or or with c: right if and only if c alone decides, or l & r is 0 just when l equals r |
| `ConstantFolding.WrongBranch` | `gen_common.c:932-973` | The conditions `(1 & 2) == 0` and `!(1 & 2)` are folded to false and are true |
| `ImportStack.EachFileOnce` | `import.c:173-210` | Over every run the history grows by exactly the accepted names, none of which was in it or is accepted twice |
| `ImportStack.EveryFile` | `import.c:173-210` | The history has exactly the names that were in it or are pushed, so that every file is parsed |
| `ImportStack.ApplySound` | `import.c:173-225` | The history keeps having every stacked name and no name twice, and a pop does not shrink it |
| `ImportStack.PushFile` | `import.c:173-210` | The linked nodes after a push: one history shared by all open files, walked to its end to add the name, and null for a name in it |
| `ImportStack.PopFile` | `import.c:220-225` | After a pop the file below is on top, with the same shared history |

## Left out

- Lowering: `foreach`, `select`, `do ... while`, `after`, user labels with `goto`, `new`, `delete`, `log` and `assert` statements; of these the search for exceptions has its own cases for `foreach`, `do ... while` and `after`.
- Lowering: expressions, declarations and arguments are functions on an abstract store; their text is not modelled, nor are tabs and line directives.
- Lowering: the dangling pointer to the flow record of the last method is modelled as a record with its last values, and the null pointer before it as a status that stops the translation; the exit label and the jump to it, which no statement uses, as a statement that does nothing.
- Lowering: names of `exec` and `throw` symbols are modelled by the symbol table they belong to and a number; the inline graph is a tree, as methods inlined into themselves make the compiler loop.
- Lowering: reset methods of banks, which also run those of their groups, and the printing of prototypes.
- Simulation.LoweringPreservesMeaning: a case or default at the end of a block, which C rejects before C23, is given the meaning of an empty statement; bodies outside of its conditions are treated where `Misplaced` and `Limits` say what their text means, and the condition on stale flags is one on the syntax, which does not look at the values of conditions.
- Lowering: the semicolon that is missing behind an expression statement or `return` without braces as body of a `while` or a try, as handler or behind `default:`, where the C is not valid, has no counterpart in the emitted trees; an `if` or loop head without a statement in front of a case, default or handler label, or at the end of a block, is given no meaning.
- OffsetExpr.OffsetIsExact: expressions have the operators + and *, literals, indices and brackets; offsets and strides are unbounded integers, as 32-bit overflow of an address map is not a case the compiler handles; other shapes than the accepted ones are covered only where OffsetExpr.LostStrides says what is lost.
- Buckets.ClassificationIsExact: the growth of the list beyond LIST_SZ sizes, whose new address the caller never gets, is modelled as failure.
- Decoder.AccessFinds: a zero stride, which makes the emitted code divide by zero, is excluded by the positive stride of a register array.
- BankDecoder.BankDecodesExactly: lists that cannot be emitted (too many array sizes, a zero stride, two scalars in one slot inside of a group) are treated by the lemmas about lists alone; groups that are no arrays have no elements in the code and so select nothing; range arrays are indexed from 0 by the code, and in the model.
- Registers: the calls of the access methods themselves, big-endian banks, and the difference between reading and writing, which emit the same tests.
- Scheduling.Scheduler.ChkDmlCode: what a method asks for is a given list; inlined methods count as part of the body that inlines them. Removal of the fake bank and the visit of constants are not modelled.
- Scheduling.CheckThenGenerate: the roots of both phases are given; in the code those of generation are asked for while the once-per-device code is printed.
- Declarators: parameter lists are opaque numbers, so that a declaration with a parameter of unknown type, which is read again in a second pass, is not modelled, nor is a first parameter that begins with `const` in a function declarator without a name, which the code reads as the declarator; overlaps of the fields of different tree nodes are not modelled.
- Bit slices: the assignment to a slice with big-endian bit order, slices of signed words, and `1 << 31`, which overflows in the mask of 31 bits.
- ConstantFolding.PrunedRightIff: a tree with ?: that is a constant for the folder but not with & mended, whose value depends on the state, is not covered; neither is the condition `x.explicit`, which is read from a parameter.
- ConstantFolding.FoldIsSound: all values are 64-bit integers; floating point, strings, casts, `sizeof` and increments are left out, as is the narrower type that the emitted C may give to an operand.
- Imports: an empty stack starts a new history; file lookup and the list of omitted files are left out.
- Template merging, symbol lookup, the grammar and the printers of attributes, connects, ports and implements, which hold no property beyond what their text says.
