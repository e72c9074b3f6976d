# A verified model of Fault's back end

Fault compiles a small language of stocks, flows and state charts into basic blocks, walks
the blocks to emit constraints over SSA-numbered variables, and hands these to an SMT
solver whose models are the counterexamples. This project models that back end in Dafny
and proves what its parts promise each other.

- **Control flow** (`Blocks`, `Compiler`, `ControlFlow`, `ReadBack`): structured ifs become
  mutable basic blocks. Executing them does what the program does; the generator's own walk
  over them does not always see the whole program, and it is stated when it does.
- **Conditional encoding** (`Lang`, `Encoding`, `Numerals`, `Emission`, `Exactness`, `Models`,
  `Variables`, `Forks`, `Generator`, `EndToEnd`): `Encoding` says declaratively what may be
  emitted, with map iteration order left open, and gives rules the meaning of the Core and
  Reals theories of SMT-LIB 2.6. `Emission` says how instructions become terms and text, and
  when that fails. `Exactness` and `Models` prove what the models of an encoding are, and when
  that is the run of the program. The classes `VarData`, `PhiState` and `Generator` carry the
  counters, phi stacks and forks as the generator does, and their methods are proved to emit
  such an encoding.
- **Parallel groups** (`Permutations`, `Orders`, `Parallel`, `ParallelModels`,
  `ParallelReads`, `ParallelRuns`, `CrossReads`, `CrossExample`, `MisreadExample`,
  `StaleFrames`, `ParallelForks`, and the methods of `Generator` from `RunCall` on): one chain
  of versions per order of the flows, capped by a disjunction. A flow reads right when its
  second operand is a literal, a variable or arithmetic on literals; flows keep apart when
  none reads what another writes.
- **Assertions** (`Formulas`, `Filters`, `Counting`, `Bounds`, `Refuting`, `Temporal`,
  `Rounds`, `RoundRules`, `Negation`, `NegationInPlace`): counting filters and their
  refutation, temporal operators on finite traces, the round log, and the negation of
  assertions.
- **Consumers** (`Meta`, `Names`, `Reachability`): recovering phi versions and names from
  results, and the reachability check.

`div0` stands for the uninterpreted value SMT-LIB gives to division by zero; everything is
proved for every choice of it.

## Where the code does not do what it is for

Each of these is proved, with the condition under which the code is right.

- Both arms of a conditional are emitted one after the other, so an else arm that needs a
  variable its then arm stores finds the then arm's value. If it updates the variable it
  computes from that value (`Models.ElseReadsThenArm`); if it merely reads it, the store
  becomes unconditional (`Models.ElseOnlyReads`, `Models.ElseOnlyReadsExample`). What the rules
  mean is `Exactness.Meant` (`Models.ConditionalMeant`), and they are exact if and only if that
  is the run (`Models.ConditionalExactWhen`).
- A bare copy numbers its source with the destination's counter
  (`Models.CopyExactWhenAligned`).
- Doubles without an exact decimal are printed in hexadecimal. The solver does not read that,
  and in an arm or a parallel flow the fork takes it for a version and panics
  (`Emission.EmissionPanics`, `Emission.HexFails`, `ParallelForks.OrderReads`). Large ones are
  printed with an exponent, which the solver does not read either (`Emission.ExponentFails`).
- A store whose left operand ends in a literal and a guard joining two connectives make the
  generator panic as well, and a guard that compares a sum names a temporary nobody declares
  (`Emission.EmissionSucceeds`, `Emission.Failures`).
- After an if-else the walk loses the rest of a list of statements. At the top level it
  finds the rest again only where every conditional before the last if-else is an if-else
  with empty arms; otherwise it takes arms again unconditionally or what follows twice
  (`ReadBack.VisibleWhole`, `ReadBack.ReadsBackExactly`, `ReadBack.ArmsAgain`,
  `ReadBack.TailAgain`).
- A parallel flow whose second operand is compound reads its own variable where the order
  emitted before left it (`Parallel.ReadsRightExactly`), so the rules allow values no order
  leads to (`ParallelReads.GroupExact`, `MisreadExample.SumTwice`).
- A parallel option reads the variables of other flows where the option before left them, so
  flows that read one another's variables are given values no order leads to and denied values
  an order leads to, and each variable picks its option for itself (`CrossExample.Crossed`,
  `CrossReads.TwoFlowsExact`, `CrossReads.TwoFlowsJointly`).
- After the first parallel group the nesting level stays at one, so a plain flow no longer
  opens a frame and the next group does not see it (`StaleFrames.PlainFlowLost`,
  `StaleFrames.PlainFlowExact`; `ParallelModels.Clean` keeps clear of it).
- The result reader guesses a wrong phi for a variable that a group only reads, and misreads
  from a stale frame (`Meta.ParallelGuess`, `Meta.StaleGuess`).
- The filters enumerate windows, not all subsets, so they count correctly only for n at
  most two or equal to the number of clauses (`Refuting.ExactWhen`); a violated `nft` with
  no clause holding is not found, and `nft 1` cannot be refuted (`Refuting.Refuted`,
  `Refuting.AtLeastOne`).
- A literal on the left of a comparison changes sides (`RoundRules.LiteralOnTheLeft`).
- Negating an expression leaves flags on their own as they are, so the negation is right only
  in some valuations (`Negation.NegationExactWhen`, `Negation.FlagAgainstLiteral`).

## Model

| member | source | states |
|---|---|---|
| Models.ConditionalMeant | smt/generator.go:373-426 | For every sequence and nesting of stores and ifs that can be emitted, with aligned copies and counters that do not wrap, and any values of the versions existing before: the emitted constraints have a model extending them, all such models agree on every version existing afterwards, and each variable's newest version holds what the rules mean: the else arm starts where the then arm ends, then the variables the arm taken mentions are as at its end and all others as before |
| Models.ConditionalExactWhen | smt/generator.go:373-426 | So every model has the value of the run for a variable if and only if what the rules mean for it is what the run leaves |
| Models.ConditionalExact | smt/generator.go:373-426 | Where no else arm needs what its then arm writes that is so for all variables: the constraints have a model, all models agree, and each variable's newest version holds what running the program gives |
| Exactness.FollowsMeant | smt/generator.go:1005-1013 | In every model of the rules of a program, whatever its else arms read, the newest versions hold what the rules mean |
| Exactness.MeantIsRun | smt/generator.go:373-426 | What the rules mean is the run, for every store, where no else arm needs what its then arm writes |
| Exactness.FollowsRun | smt/generator.go:1273-1353 | There the newest versions hold the store after the run in every model; stores, both unconditional arms and the joining `Ite` |
| Exactness.Determined | smt/generator.go:1676-1702 | Two models that agree on the versions existing before a program agree on every version its rules introduce, phis of both arms included |
| Models.HasModel | smt/generator.go:373-426 | Whatever the values before, the rules can be satisfied without changing them |
| Models.IntroducedBeforeUse | smt/generator.go:373-426 | In the order in which they are emitted, rules use only versions that existed before or that an earlier rule introduced, and all versions existing afterwards have been introduced |
| Models.FirstStore | smt/variables/variables.go:165-173 | The first store of a variable defines its version 0; the rules have a model from any store and every model tracks what they mean from then on |
| Models.IndependentEncodable | smt/generator.go:373-426 | A check on the program text: no bare copies, stores and guards of the shapes that can be emitted with literals the solver reads, else arms that do not need what their then arm writes, everything stored before, and fewer than 32768 versions make emitting succeed and put a program in the fragment of `ConditionalExact` |
| Emission.EmissionSucceeds | smt/generator.go:1296-1326 | Emitting a program succeeds if and only if the left operand of every store's operation ends in a variable, no connective of a guard joins two connectives, a guard that is printed compares variables and literals only, and the solver reads every literal that is printed (`IsNumeric` then accepts it); otherwise the generator panics or prints what the solver cannot read |
| Emission.EmissionPanics | smt/generator.go:181-190 | It panics if and only if a store's left operand ends in a literal, a connective of a guard joins two connectives, or an arm stores a literal whose text `IsNumeric` rejects, which the fork then takes for a version |
| Emission.ForkReadsStatic | smt/generator.go:1031-1070 | The fork of a conditional reads the changes of an arm's rules if and only if `IsNumeric` accepts the text of every literal stored there |
| Emission.ChangesRead | smt/generator.go:1055-1058 | The texts collected from any rules read as exactly the versions the rules mention, and reading them fails if and only if `IsNumeric` rejects the text of a literal in them |
| Emission.HexFails | smt/variables/variables.go:48-57 | A literal printed in hexadecimal, as 1.2 is, panics in an arm whatever the guard, and outside prints what the solver cannot read |
| Emission.ExponentFails | smt/variables/variables.go:48-57 | A literal printed with an exponent, as 1000000.0 is, never makes the generator panic, inside an arm or outside, but prints what the solver cannot read |
| Numerals.NumericExactly | smt/variables/variables.go:48-57 | Text is taken for a number if and only if, character by character, it is perhaps a sign and then digits with at most one point and perhaps an exponent, hexadecimal digits with an exponent, or infinity, or if it is nan; words in either case |
| Numerals.ExponentIsNumeric | smt/variables/variables.go:48-57 | Digits with an exponent are taken for a number and not read by the solver |
| Numerals.SolverExactly | smt/generator.go:1227-1232 | The solver reads exactly digits around one point, without a zero to fill up in front, perhaps after a minus sign (SMT-LIB 2.6, section 3.1, and Z3 for the sign) |
| Numerals.HexIsNotNumeric | smt/variables/variables.go:48-57 | Hexadecimal digits without an exponent are neither taken for a number nor a decimal of SMT-LIB 2.6 (section 3.1) |
| Numerals.RealIsNumeric | smt/variables/variables.go:48-57 | Every number the solver reads is taken for one |
| Emission.TextReads | smt/variables/variables.go:99-106 | Reading a base and a version off the printed text of a term succeeds if and only if the text ends in a version; a text that ends in a number panics |
| Emission.StoreSucceeds | smt/generator.go:1016-1029 | So a store panics exactly when it is arithmetic whose left operand ends in a literal |
| Emission.GuardSucceeds | smt/generator.go:883-932 | A guard panics exactly when a connective joins two connectives, and is printed readably exactly when no comparison has a compound operand or a literal the solver does not read; then it is the guard at the newest versions |
| Emission.Failures | smt/generator.go:1199-1210 | The simplest input for each failure: `10 - x` stored, a guard `x + 1 > 3`, and two conjunctions under a disjunction |
| Emission.ConvertNewest | smt/generator.go:783-790 | Outside parallel runs the order in which operands are converted makes no difference: every variable is read at its newest version |
| Models.ElseReadsThenArm | smt/generator.go:1005-1013 | For instance, when both arms store a variable and the else arm updates it, the newest version is the run's value if and only if the guard holds or the two operands happen to give the same result, because reads use the newest counter |
| Models.ElseOnlyReads | smt/generator.go:1031-1070 | When the else arm merely reads what the then arm stores, every model has the stored value whichever arm is taken, and that is the run's if and only if the guard holds or the store changes nothing, because the choice of the else arm ends at the version it read |
| Models.ElseOnlyReadsExample | smt/generator.go:1031-1070 | `if z > 0 { x = 1 } else { y = x + 1 }` from z = 0 and x = 0: every model ends with x at 1, the run with 0 |
| Models.CopyExactWhenAligned | smt/generator.go:1279-1296 | A bare variable copy is encoded correctly for all values if and only if both variables have the same counter, because the source is numbered with the destination's counter |
| Exactness.ArmFollows | smt/generator.go:1676-1733 | The equations of the arm taken force each phi of the fork to that arm's end where it mentions the variable, and to the value on entry where it does not |
| Exactness.ArmTotalFunctional | smt/generator.go:1676-1733 | An arm of an `Ite`, in whatever order the map yields it, holds exactly one equation for the phi of each variable of the fork and no other |
| Exactness.PhiDetermined | smt/generator.go:1676-1733 | The `Ite` fixes the phi of every variable of the fork, so both arms are total and functional |
| Variables.VarData.GetSSA | smt/variables/variables.go:156-163 | Reads a counter, creating it at zero |
| Variables.VarData.AdvanceSSA | smt/variables/variables.go:165-173 | Advances one counter as int16 does and no other, zero if it is new |
| Variables.VarData.NewPhi | smt/variables/variables.go:183-196 | Pushes a frame; the first frame of a variable is zero whatever was asked, minus one stands for the last state |
| Variables.VarData.StoreLastState | smt/variables/variables.go:247-255 | Lengthens the top frame of one variable and leaves every other stack alone |
| Variables.VarData.InitPhis | smt/variables/variables.go:177-181 | Every variable gets a frame holding its last state, whatever the map order |
| Variables.VarData.PopPhis | smt/variables/variables.go:198-202 | Every variable loses exactly its top frame |
| Variables.VarData.SaveState | smt/variables/variables.go:226-233 | The start of every variable's top frame |
| Variables.VarData.LoadState | smt/variables/variables.go:235-239 | Every saved variable gets a frame starting where it was saved (minus one standing for the last state), one without a stack its first frame, and the others are untouched |
| Variables.VarData.AppendState | smt/variables/variables.go:241-245 | Every recorded phi is appended to its variable's top frame, a variable without a stack gets its first frame, and the others are untouched |
| Generators.PushedStarts | smt/variables/variables.go:177-181 | On entry to a conditional the stacks stay in step with the counters and each new frame starts with the version current there |
| Generators.StartsKept | smt/variables/variables.go:218-224 | However deeply further conditionals nest, the top frame still starts with the version current on entry to this conditional |
| Generators.CapStacks | smt/generator.go:409-417 | After popping and appending the phis every stack is nonempty and ends in its variable's counter again, and inside an outer conditional only top frames have changed |
| Forks.PhiState.Out | smt/forks/forks.go:30-34 | Leaving a level never goes below zero |
| Forks.CollectedSorted | smt/forks/forks.go:51-59 | A choice holds exactly the versions it was given, sorted, so its end is their maximum |
| Forks.MentionsUpTo | smt/generator.go:1031-1070 | The versions in the rules of a program are those of exactly its forked variables, each up to its newest and no further; literals are the matter of `Emission.ChangesRead` |
| Forks.RulesVersAre | smt/generator.go:1031-1070 | What a fork collects are exactly the versions standing in definitions and in the equations of an `Ite` |
| Forks.BuildsFork | smt/generator.go:181-208 | Building the true and then the false branch records for every variable one choice per arm that mentions it, ending at its newest version in that arm |
| Forks.ForkBranches | smt/generator.go:1692-1698 | Capping a branch gives exactly one equation to each variable the branch mentions and none to the others |
| Forks.ForkSingles | smt/generator.go:1710-1711 | The variables with a single choice are exactly those only one arm mentions |
| Generators.Generator.ConvertInfixVar | smt/generator.go:999-1015 | A variable is read at its newest version, or once at the start of its frame when a parallel run begins |
| Generators.Generator.ConvertExpr | smt/generator.go:455-474 | Nested operations are converted first, then the operation's own operands; the first variable converted takes the read of its frame's start while that is pending |
| Generators.Generator.ConvertCond | smt/generator.go:475-530 | The guard at the newest versions, or the failure `GuardSucceeds` describes |
| Generators.Generator.StoreRule | smt/generator.go:1273-1353 | One definition of a fresh version, the destination's stack pushed outside and lengthened inside conditionals and groups; no rule, but the same new state, where looking up the left operand panics |
| Generators.Generator.ParseInstruct | smt/generator.go:435-468 | A block's stores emit one definition each, in order, and keep stacks and counters in step |
| Generators.Generator.NewFork | smt/generator.go:160-171 | A fresh fork, replacing the newest one inside conditionals and groups |
| Generators.Generator.BuildForkChoice | smt/generator.go:181-208 | Every variable the rules mention gets one more choice holding all its versions and earlier choices stay, or it panics, if and only if `IsNumeric` rejects the text of a literal in the rules |
| Generators.Generator.CapCond | smt/generator.go:1676-1702 | For every map order: each variable of the fork has one phi, fresh unless the other branch created it, and the branch gets exactly one equation per variable it mentions |
| Generators.Generator.SyncRules | smt/generator.go:1704-1721 | For every map order: exactly the variables only one branch mentions get an equation to their version on entry |
| Generators.FullArm | smt/generator.go:397-405 | A branch's own equations and its syncs together tie every variable of the fork exactly once |
| Generators.Generator.JoinArms | smt/generator.go:393-409 | The `Ite` of a conditional: both arms tie every variable of the fork, exactly once, to the same fresh version |
| Generators.Generator.LeaveConditional | smt/generator.go:390-417 | Emits that `Ite` unless both arms are silent, restores the stack invariant and the nesting level, and leaves the fork recorded |
| Generators.Generator.ParseBlock | smt/generator.go:342-371 | The rules of a block and all that follows encode the program read from it; counters, stacks, level and returns met are as the encoding says |
| Generators.Generator.ParseTermCon | smt/generator.go:373-426 | The same for a conditional branch, its arms and its after block |
| Generators.Generator.ParseFunction | smt/generator.go:319-340 | The blocks of a function, walked in creation order until a return, are emitted without failure as an encoding of the program read from them, every stack stays in step with its counter, and of the returns met one is forgotten again |
| Generators.Generator.ParseFunctions | smt/generator.go:319-340 | Functions whose walks meet one return each, parsed one after the other, are emitted as an encoding of all of them in order, and no return stays pending |
| Generators.Generator.ParseFlow | smt/generator.go:319-340 | The one-block function of a flow emits its store and leaves no return pending, so the next flow is not lost |
| EndToEnd.Translate | smt/generator.go:319-340 | Compiling a program that reads back and can be emitted and generating from its blocks succeeds, emits an encoding of that very program, and leaves the level and no pending return as before |
| EndToEnd.TranslateAll | smt/generator.go:319-340 | Compiling such programs and generating them one after the other emits an encoding of all of them in order |
| EndToEnd.FunctionsAreRuns | smt/generator.go:319-340 | Where arms keep apart those rules have a model from any store, and every model holds the store that running the programs one after the other leaves |
| EndToEnd.ModelsAreRuns | smt/generator.go:373-426 | There is a model whatever the initial store; the newest version of a variable holds its value in the store with which the compiled blocks return if and only if the rules mean that value, which they do for all variables where no else arm needs what its then arm writes |
| Compilers.Compiler.CompileBlock | llvm/compiler.go:559-576 | Statements become instructions and blocks realizing them; only the current block and new blocks change, the after-block stack is restored, and the block it ends in goes on to the enclosing after block or returns if there was a conditional |
| Compilers.Compiler.CompileIf | llvm/compiler.go:940-988 | The same for an if with or without else: branch, arms, jumps to the after block, and the after block's own terminator |
| Compilers.Compiler.CompileArm | llvm/compiler.go:957-975 | An arm jumps to the after block from wherever it ends, whether or not something in it has set a terminator |
| Compilers.CompiledAppend | llvm/compiler.go:559-576 | Compiling one list of statements after another realizes their concatenation, although the second overwrites the terminator the first left |
| ControlFlow.RegionRuns | llvm/compiler.go:940-988 | Executing the blocks of a program from its start reaches its end with the store the structured program leaves |
| ControlFlow.RunsToReturn | llvm/compiler.go:982-987 | From any initial store the compiled function reaches a return with the final store of the structured program |
| ControlFlow.Acyclic | llvm/compiler.go:940-988 | Every block has a terminator, and ranks strictly grow along every edge, so there is no cycle |
| ControlFlow.NeverBack | llvm/compiler.go:940-988 | No run visits a block twice |
| ReadBack.VisibleWhole | smt/generator.go:608-645 | The generator's walk sees a list of statements whole if and only if an if-else only ever stands last in its list |
| ReadBack.ReadWhole | smt/generator.go:319-340 | For every program, what the walk over the compiled blocks sees: its list as far as it is visible and, unless that led to the return, every later block over again in creation order; and that it meets exactly one return |
| ReadBack.ReadsBackExactly | smt/generator.go:319-340 | The walk finds the compiled program again if and only if no arm has statements after an if-else and, at the top, a conditional with an if-else still to come is itself an if-else with empty arms |
| ReadBack.ArmsAgain | smt/generator.go:328-333 | Two if-elses in a row: the walk takes the arms of the first again, both and unconditionally, before what follows |
| ReadBack.ArmsAgainDiffers | smt/generator.go:328-333 | So the constraints can be about another program: a concrete one leaves a variable at 1 and is encoded as leaving it at 4 |
| ReadBack.TailAgain | smt/generator.go:328-333 | A conditional without an else before an if-else: the walk takes the rest of the function twice |
| ReadBack.TailAgainDiffers | smt/generator.go:328-333 | A concrete program of that kind leaves a variable at 1 and is encoded as leaving it at 2 |
| Permutations.ParallelPermutations | smt/generator.go:1521-1537 | The array is back in its original order and the output is the enumeration described next |
| Permutations.ExactlyAllOrders | smt/generator.go:1521-1537 | The outputs are exactly the permutations of the input, n! of them, without repetition when the entries are distinct |
| Generators.Generator.RunCall | smt/generator.go:1546-1551 | A flow of a group emits one definition, the first variable converted being read at the start of its frame, opens a frame with the new version and leaves the level at one |
| Parallel.ReadsRightExactly | smt/generator.go:999-1015 | A flow reads its own variable at its frame's start and everything else at the newest version, for all counters and frames, if and only if its second operand is a literal, a variable or arithmetic on literals |
| Parallel.OrderMentions | smt/generator.go:1031-1070 | The rules of one order mention exactly its variables, those it writes up to their newest version; what it only reads at the newest version if its flows read right, and otherwise there or where the frame starts |
| ParallelForks.OrderReads | smt/generator.go:1559-1561 | The fork of a group reads an order if and only if `IsNumeric` accepts the text of every literal its flows add |
| Generators.Generator.RunOption | smt/generator.go:1543-1562 | One order: its chain of versions, one more choice for every variable mentioned, and all frames back at the group's start; it panics if and only if `IsNumeric` rejects the text of a literal its flows add |
| Generators.Generator.CapParallel | smt/generator.go:1613-1647 | For every map order: a fresh version of each variable of the fork, allowed to be the end of any one option, and a frame starting with it |
| Generators.Generator.RunParallel | smt/generator.go:1539-1568 | All orders from the same start, then the caps; the fork holds one choice per order and variable; it panics exactly when reading an order does |
| Generators.Generator.GenerateFromCallstack | smt/generator.go:284-299 | Nothing, a plain flow, or a group in all its orders, which alone can panic |
| Generators.Generator.GenerateRun | smt/generator.go:865-870 | The callstacks of a run one after the other emit the rules of the whole run, unless a group adds a literal whose text `IsNumeric` rejects |
| Parallel.GroupFollows | smt/generator.go:1539-1568 | In every model of the rules of a group whose flows read right and keep apart one order of the flows explains all capped versions at once, even if the caps chose different orders for different variables |
| Orders.OneOrder | smt/generator.go:1613-1628 | Whatever order is chosen for each variable, one order of the whole group leaves every variable as its own choice does |
| Parallel.RunFollows | smt/generator.go:1539-1568 | Every model of a whole run's rules is a run of the encoder's semantics in some order per callstack, for every sequence of callstacks in whose groups flows read right and keep apart |
| ParallelModels.RunHas | smt/generator.go:1539-1568 | Where flows read right and keep apart, every choice of orders is realized by a model extending the versions that existed before |
| ParallelModels.ParallelExact | smt/generator.go:1539-1568 | Over whole runs whose groups write no variable with a stale frame and in whose groups flows read right and no flow reads what another writes, on any number of variables: a value of a variable's final version is allowed by some model if and only if running each callstack's flows atomically in some order leads to it |
| ParallelModels.GroupsAreClean | smt/generator.go:288-299 | Runs whose callstacks never hold exactly one flow meet the side condition of `ParallelExact` |
| ParallelReads.GroupAllows | smt/generator.go:1539-1568 | For every group, whatever its flows read and however: the values the rules allow for a variable it writes are exactly those its options leave when each starts from the group's frames and from the newest values the option before left |
| ParallelReads.GroupExact | smt/generator.go:1539-1568 | Corollary: a group is encoded exactly for a variable if and only if its options leave the same values as its orders |
| ParallelReads.UprightExact | smt/generator.go:1546-1551 | They do in every group whose flows read right and keep apart |
| CrossReads.FirstOption | smt/generator.go:1546-1551 | In fresh frames the first option leaves what its order leaves, whatever its flows read |
| CrossReads.TwoFlowsExact | smt/generator.go:1543-1562 | In fresh frames two flows that may read each other's variables are encoded exactly for a variable if and only if the second option, its own variables read from the group's frames and the others where the first option left them, leaves what the second order leaves |
| CrossReads.GroupAllowsAll | smt/generator.go:1613-1628 | For every group and all its variables together: the rules allow exactly the outcomes of picking an option for each variable it writes, whatever was picked for the others |
| CrossReads.AllowedMix | smt/generator.go:1613-1628 | So of two allowed outcomes each variable may take its own |
| CrossReads.TwoFlowsJointly | smt/generator.go:1613-1628 | In fresh frames two flows of different variables are encoded exactly for both together if and only if they are for each, and the orders do not differ in both |
| CrossExample.Crossed | smt/generator.go:1005-1011 | `x := x + y | y := y + x` from 1 and 1, both reading right: the orders leave 2 and 3 for `x` and for `y`, the rules allow 2 and 4 for `x` and only 3 for `y` |
| ParallelReads.MisreadAllows | smt/generator.go:783-790 | In fresh frames, where no flow reads what another writes and all flows writing a variable misread it, the rules allow what running the orders one after another leaves, after the first, after the second and so on |
| ParallelReads.TwoMisreads | smt/generator.go:783-790 | Two such flows are encoded exactly if and only if the second order leaves the same after the first as from the start |
| MisreadExample.SumTwice | smt/generator.go:783-790 | Twice `c := c + (a + b)` in parallel from c = 0, a = 1, b = 2: every order leaves 6, and some model has 12 |
| MisreadExample.SumRule | smt/generator.go:999-1015 | The rule of that flow reads `a` at its frame's start and `c` and `b` at the newest version |
| ParallelRuns.ReadEndAt | smt/generator.go:1031-1070 | The choice for a variable an order only reads ends at its newest version if some flow reads that, and otherwise where its frame starts |
| ParallelRuns.RunFollowed | smt/generator.go:1539-1568 | For every sequence of callstacks: a model of the rules is the encoder's own run of them, with one option of each group picked for each variable the group writes |
| ParallelRuns.RunRealized | smt/generator.go:1613-1647 | Whatever is picked, some model extending the versions that existed before is that run |
| ParallelRuns.RunAllows | smt/generator.go:1539-1568 | So for every sequence of callstacks, flows that read one another's variables, misread operands and stale frames included, the rules allow a value of a variable's final version if and only if some picks lead the encoder's run to it |
| StaleFrames.ModelLoses | smt/generator.go:1546-1551 | After a group the level stays at one: every model of a plain flow and then a group writing the same variable, whose flows read right and keep apart, ends where some order of the group alone ends, and is the run of both exactly for the variables that order leaves alike with and without the flow |
| StaleFrames.PlainFlowLost | smt/generator.go:1546-1551 | The values the rules allow are exactly those of runs from which the plain flow is missing |
| StaleFrames.PlainFlowExact | smt/generator.go:1546-1551 | So the rules are exact if and only if the orders of the group leave the same values with the plain flow and without it |
| StaleFrames.PlainFlowLostExample | smt/generator.go:1546-1551 | Two increments, a plain addition of ten and two increments, from zero: every model of the rules has the eleventh version at 4, and every run ends at 14 |
| Meta.MaxInt16 | util/util.go:274-282 | The greatest of the numbers, or zero |
| Meta.LoadMeta | execute/execute.go:76-95 | For every variable, one branch per choice of each fork, guessing one more than the fork's greatest end, in the order of the forks |
| Meta.ConditionalBranches | execute/execute.go:76-95 | The fork of a conditional adds, after the branches of earlier forks and in order, one branch for each arm that mentions the variable: its base is the variable, its trail is sorted, holds exactly the versions standing in that arm's rules, and ends where the arm does |
| Meta.GroupBranches | execute/execute.go:76-95 | The fork of a group adds one branch for each order, whose trail is sorted, holds exactly the versions standing in that order's rules, and ends at the number its cap offers |
| Meta.ConditionalGuess | execute/execute.go:76-95 | For the fork of a conditional the guess is the phi version the generator created |
| Meta.ParallelGuess | execute/execute.go:76-95 | For the fork of a parallel group it is the phi version if and only if the group writes the variable, reads it at its newest version, or finds its frame fresh |
| Meta.StaleGuess | execute/execute.go:76-95 | A stale frame of `a` before `c := c + (a + b)` twice in parallel: the guess for `a` is not its phi |
| Filters.Cartesian | util/util.go:151-159 | As many pairs as the product of the lengths; entry i times the second length plus j pairs element i of the first list with element j of the second, so exactly the pairs of the two lists occur |
| Filters.Combinations | util/util.go:294-317 | The enumeration described next, or an out-of-range slice for subsets of size zero of two or more clauses |
| Filters.CombinationsAre | util/util.go:294-317 | For 2 <= n < len: exactly the windows made of an element and a run of n-1 later ones, (len-n+1)(len-n+2)/2 of them, and all pairs when n is 2 |
| Counting.NotInSet | util/util.go:319-335 | The clauses whose text is not among those of the subset, in order |
| Counting.OutsideInOrder | util/util.go:319-335 | It works clause by clause, in order |
| Counting.ExpandAssertStateGraph | smt/asserts.go:507-573 | One formula per enumerated subset: some on and the rest off for nmt, all on for nft; the plain clauses without a filter |
| Counting.ParseAssert | smt/asserts.go:47-50 | The expanded clauses under the operator or filter; nothing to join, or nothing to enumerate, is a failure |
| Counting.ComparisonWritten | smt/asserts.go:47-50 | Without a filter, an assumption is written as it is meant over all pairs of the two lists, and an assertion, whose operator has been negated, so that the formula holds exactly in the runs that violate it, for every temporal operator |
| Counting.PartMeans | smt/asserts.go:520-566 | With distinct texts such a formula holds if and only if the holding clauses meet and lie within the subset (nmt) or contain it (nft) |
| Bounds.NoMoreThan | smt/asserts.go:513-549 | The formula written for nmt n, in assumptions and in assertions, implies that between 1 and n clauses hold, with equivalence when n <= 2 or n is at least the number of clauses |
| Bounds.NoFewerThan | smt/asserts.go:550-569 | The formula written for nft n, in assumptions and in assertions, implies that at least n clauses hold, with equivalence when n <= 2 or n is the number of clauses |
| Bounds.Missed | util/util.go:294-317 | In between, with exactly the first n-1 clauses and the one at position n holding, both formulas are false although n clauses hold |
| Refuting.ExactWhen | smt/asserts.go:507-573 | For clauses that can hold independently both formulas, in either mode, count correctly for all values if and only if n <= 2 or n is the number of clauses |
| Refuting.NegatedTwice | llvm/compiler.go:1509-1521 | Double negation restores filter and bound, and the negated bound is the opposite one |
| Refuting.Refuted | llvm/compiler.go:1027-1053 | No false alarms: every model of the formula written for the negated filter violates the user's bound; where the formula is exact every violation is found, except an nft violated by no clause holding at all |
| Refuting.AtLeastOne | llvm/compiler.go:1515-1518 | An assertion nft 1 becomes nmt 0, for which no formula can be built |
| Temporals.EventuallyAlwaysRule | smt/generator.go:1787-1794 | One conjunction per suffix, joined by or |
| Temporals.ApplyTemporalLogic | smt/generator.go:1749-1785 | The connective for each operator and mode; a single state stands alone |
| Temporals.FilteredJoin | smt/generator.go:1769-1781 | Under a filter alone the formula holds if and only if some part does, whichever the filter and the mode |
| Temporals.Assumed | smt/generator.go:1749-1785 | An assumption's encoding holds if and only if the states satisfy the operator on the finite trace |
| Temporals.LastDecides | smt/generator.go:1787-1794 | On a finite trace, holding from some point on is holding in the last state |
| Temporals.Asserted | smt/asserts.go:30-37 | The assert-mode encoding of the negated states holds exactly in the runs that violate the assertion, for every operator |
| Counting.ComparisonAsserted | llvm/compiler.go:1036-1041 | In particular for comparisons whose operator is negated |
| Rounds.RoundLog.NewRound | smt/generator.go:102-104 | An empty round is added and the index still agrees with the log |
| Rounds.RoundLog.AddVarToRound | smt/generator.go:114-127 | The write goes to the current round, the first one opening round 0, and the index still agrees with the log |
| Rounds.LoggedAre | smt/generator.go:125-127 | An index that agrees with the log lists each write of a variable once, in order, at its true position |
| Rounds.RoundLog.LookupVarRounds | smt/generator.go:129-149 | All versions of a variable, or the first entry of one version, or failure if it is missing |
| Rounds.RoundLog.VarRounds | smt/generator.go:151-158 | Groups them by round |
| Rounds.GroupedAre | smt/generator.go:151-158 | Each round that writes the variable is there with exactly its versions, in order |
| Rounds.VersionsAreFound | smt/generator.go:151-158 | These are the versions at the positions the index lists, in order |
| RoundRules.Balance | smt/asserts.go:347-356 | One clause per version and round looked at, the version on the left |
| RoundRules.FlattenStates | smt/asserts.go:358-368 | The clauses of all rounds looked at, in order |
| RoundRules.FlattenedAt | smt/asserts.go:358-368 | Each round of each group stands there whole, after all earlier rounds of its group and all groups before it, and nothing else does |
| RoundRules.JoinStates | smt/asserts.go:370-376 | One clause stands alone, none or several are joined |
| RoundRules.OneClauseEach | smt/asserts.go:347-368 | While logged rounds stay within those looked at there is one clause per recorded version |
| RoundRules.LiteralRule | smt/asserts.go:370-376 | The and (or) join of a variable against a literal holds if and only if every (some) recorded version satisfies it |
| RoundRules.MergeLiteral | smt/asserts.go:260-272 | With a literal on either side the clauses are the same |
| RoundRules.LiteralOnTheLeft | smt/asserts.go:260-265 | With the literal on the left the joined rule says of every (some) recorded version what was written, in all models, if and only if the operator is equality or no version is recorded |
| RoundRules.LiteralOnTheLeftExample | smt/asserts.go:260-265 | `5 > x` with one version recorded is emitted as a rule that holds where x is 6 |
| RoundRules.TermCombos | smt/asserts.go:318-345 | For two different variables, each round's pairs are the newest versions of both at each write to either once both have been written, carried across rounds |
| RoundRules.CoexistingInOrder | smt/asserts.go:318-345 | A round's pairs stand in the order of its writes |
| RoundRules.ReportedCoexist | smt/asserts.go:318-345 | So the pairs reported are exactly the versions of the two variables that coexist at some moment of the run |
| Negation.NegationExact | llvm/compiler.go:1479-1507 | Over comparisons, conjunctions, disjunctions, negations, equivalences and literals the result has the opposite truth value in every valuation |
| Negation.NegationMeans | llvm/compiler.go:1479-1507 | Any Boolean expression: the result has the opposite truth value of the expression with every flag outside a `!` negated |
| Negation.NegationExactWhen | llvm/compiler.go:1479-1507 | So in a valuation the negation is right if and only if negating those flags leaves the truth of the expression as it is |
| Negation.EffectMeans | llvm/compiler.go:1479-1507 | Where the shape alone decides, in every valuation: without such flags the truth flips, and it is kept where just one side of an equivalence is a flag on its own |
| Negation.FlagAndComparison | llvm/compiler.go:1479-1507 | `flag and x > 1` is negated to `flag or x <= 1`, right if and only if x is at most 1 |
| Negation.FlagAgainstLiteral | llvm/compiler.go:1479-1507 | A flag compared with a literal keeps its truth when negated |
| Negation.NumericKept | llvm/compiler.go:1523-1578 | Arithmetic keeps its value as long as no fold overflows int64 or divides by zero |
| Negation.FoldKept | llvm/compiler.go:1523-1606 | Folding keeps the value of an operation if and only if it is not an integer operation that leaves int64 and not a division by a literal zero |
| Negation.FoldOverflows | llvm/compiler.go:1595-1606 | Adding one to the greatest int64 literal folds to a negative number |
| NegationInPlace.NegateNode | llvm/compiler.go:1479-1507 | Overwriting an expression tree node by node leaves exactly the negated expression, touches no other node, and fails exactly where no negated expression exists |
| NegationInPlace.EvaluateNode | llvm/compiler.go:1523-1578 | Folding makes one new node and leaves the folded ones alone |
| Names.RoundTrip | smt/variables/variables.go:99-106 | Splitting the name of any base and version, underscores in the base included, gives both back |
| Names.NoCollision | smt/variables/variables.go:165-173 | Different versions have different names |
| Names.AdvancedIsNew | smt/variables/variables.go:165-173 | Until the counter wraps, the name handed out differs from every earlier one |
| Names.FirstAndWrapped | smt/variables/variables.go:165-173 | The first name of a variable is its version 0, and after the greatest int16 comes the least |
| Names.DecimalRead | execute/responses.go:175-178 | The version part of a name reads back as the number that was printed |
| Reachability.Tracer.Define | reachability/reachability.go:42-49 | Adds a definition and nothing else to what is known, whether or not it was referenced before |
| Reachability.Tracer.Refer | reachability/reachability.go:55-64 | Adds a reference and nothing else, whether or not it is defined yet |
| Reachability.Tracer.Walk | reachability/reachability.go:30-94 | Adds exactly the definitions and references of a node, visiting components in any order |
| Reachability.Tracer.Check | reachability/reachability.go:115-122 | Succeeds when nothing is missing, and reports as a set the symmetric difference of definitions and references |
| Reachability.Scan | reachability/reachability.go:21-28 | The check succeeds if and only if the defined and the referenced sets are equal, and otherwise reports exactly their symmetric difference |
| Reachability.DefinedExactly | reachability/reachability.go:30-94 | Defined are exactly the states of components anywhere in the specification, under the component's name, an underscore and their own |
| Reachability.ReferredExactly | reachability/reachability.go:30-94 | Referred to are exactly the targets of start statements and transitions anywhere |
| Reachability.OrderIndependent | reachability/reachability.go:30-94 | Reordering statements changes neither set |

## Left out

- Reading and printing LLVM IR, pointers, parameters, metadata and function tables: loads,
  arithmetic and comparisons are folded into the expression they feed, and a flow is the
  one store its function performs.
- Grouping calls into callstacks by metadata (`isSameParallelGroup`,
  `singleParallelStep`): callstacks are inputs of `GenerateRun`.
- `Elif`, state choices, when/then invariants, Boolean variables in stores, built-in
  transitions, and conditionals inside parallel flows or groups inside conditionals.
- Guards with `!=`, whose printed form is not valid SMT-LIB, and guards on a bare name or
  literal.
- `Counting.ExpandAssertStateGraph`: the comparison operators, without the `not` that `!=` is
  written with; what that means is `Counting.ComparisonAsserted`.
- Literals are exact reals; how a double is printed is a parameter (`show`), assumed only not
  to look like an integer and to have no underscore.
- `Numerals.IsNumeric`: a float beyond the range of a double counts as a number, and text with
  an underscore never does; names start with a letter, so only names made of digits would
  differ. The literal that marks an unknown or uncertain value, for which no constraint is
  emitted, is a literal like any other here.
- Which forks survive: a fork made inside a conditional or after the first group replaces
  the one before it, so the result reader sees only the survivors; `Meta.ConditionalGuess`
  and `Meta.ParallelGuess` are about any one fork.
- The change log and display metadata (`AddNewVarChange`, `VarChangePhi`, rule tags) and
  declarations of variables; the order in which caps enter the round log.
- `Rounds.RoundLog`: kept beside the generator rather than inside it, so that stores and
  caps are not shown to call it; versions are logged as numbers, not as text.
- Pairing two composite rule groups or two groups of the same variable by round, two
  constants, and the filters' path for assertions about a single variable.
- `NegationInPlace.NegateNode`: expects a tree, so nodes shared between expressions are not
  captured; floating point is exact, and dividing by a zero literal is reported rather than
  computed as an infinity.
- `Forks.AddChoiceValue`: choices are values, and appending and sorting again is an insertion.
- `Names.Atoi`: accepts numbers of any size, where the original fails beyond int64.
- `Filters.Combos`: negative sizes, which are rejected before they reach it.
- `Compilers.Compiler`: branches and instructions name blocks by their position in creation
  order instead of by pointer.
- `Exactness.Encodable`: excludes bare copies between different counters, which read another
  version of the source (`Models.CopyExactWhenAligned`), reads before the first store, and
  counters that wrap.
- `ParallelModels.ParallelExact`: runs with a group whose flows misread or read one another's
  variables, or that writes a variable with a stale frame, may not be encoded as intended; what
  their rules allow is `ParallelRuns.RunAllows`.
- Environment lookup, probability weights, running the solver, formatting results, and the
  preprocessing and type-annotation passes.
