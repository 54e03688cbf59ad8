# calc: a verified model of a tree-walking calculator interpreter

calc reads statements in a small calculator language. It builds a syntax tree
for each one and evaluates it. Every name lives in one process-wide symbol
table: a singly linked list from a static `head`, where `lookup` finds or
creates a symbol. A symbol holds a numeric value and, once `dodef` has run, a
function body and a list of parameter symbols. Evaluation has one `eval` per
node class:

- numbers and symbol references;
- assignment;
- the arithmetic, comparison and `'L'` (sequence) binary nodes;
- absolute value and negation;
- the builtins `sqrt`, `exp`, `log` and `print`;
- `if` and `while`;
- calls to user functions, which bind parameters by saving and overwriting
  the parameter symbols' values and write them back afterwards.

The model has these parts:

- `wrappers.dfy` (`Wrappers`): the `Option` type.
- `ast.dfy` (`Ast`): the tree as a datatype, with the C++ `nodetype` tags and
  the builtin codes.
- `symbols.dfy` (`Symbols`): symbols, and the table as a class.
  - A symbol is identified by its index in creation order; the list from
    `head` is that sequence read from the end.
  - `Lookup` walks it newest first, as the C++ loop does, and is proved equal
    to the lookup-or-create function `Intern`.
  - `Define` is `dodef`.
- `semantics.dfy` (`Semantics`): the meaning of evaluation as functions.
  - `Eval` threads a state (the symbol table and the values `print` has
    written) and takes a fuel bound, since loops and recursive calls may run
    forever.
  - `EvalArgs`, `EvalCall` and `Invoke` follow `ufncall::eval` step by step.
- `fuel.dfy` (`Fuel`): more fuel never changes a finished evaluation, so the
  bound only cuts runs short and every finished run has one outcome.
- `evaluator.dfy` (`Evaluator`): the `eval` methods, working in place on a
  `Table` and an `Output` object.
  - Each is proved to give the value and leave the state that `Eval` gives.
  - On every path, including those cut short, only symbol values change, so
    the table keeps its distinct names and later lookups still work.
  - The call machinery keeps the C++ shape: the argument walk fills the array
    `newval`, a loop saves the parameters into the array `oldval` and assigns
    them, the body runs, and a loop writes the saved values back.
- `binding.dfy` (`Binding`): the call protocol.
  - Exactly the first `nargs` argument expressions are evaluated, before any
    binding.
  - Too few arguments gives 0.0; calling an undefined function gives 0.0.
  - With distinct parameters, binding and restoring are exact.
  - With a repeated parameter, the forward restore keeps the first argument.
- `properties.dfy` (`Properties`): assignment, comparisons, `'L'`, `if` and
  `while`, and the fact that evaluation changes only symbol values.
- `sum.dfy` (`SumExample`) and `session.dfy` (`Session`): the definition
  `f(n) = if n < 1 then 0 else n + f(n - 1)`.
  - `f(k)` gives k(k+1)/2 and leaves the state unchanged.
  - A session that looks up `f` and `n` in an empty table, defines `f` and runs
    `f(5)` through the imperative evaluator gets 15, with `n` still 0.

## Model

| member | source | states |
|---|---|---|
| Symbols.Table.constructor | calc.cpp:6 | the table starts empty (`head` is null) and satisfies the distinct-names invariant |
| Symbols.Table.Create | calc.cpp:8-16 | for a name not yet present, appends exactly one symbol (value 0.0, no body, no parameters), returns its id and keeps the names distinct |
| Symbols.NewSymbol | calc.cpp:10-12 | a fresh symbol carries its name, holds 0.0 and has no body and no parameters |
| Symbols.FindName | calc.cpp:21-27 | finds the newest symbol with the name, or returns None exactly when no symbol has it |
| Symbols.Intern | calc.cpp:18-31 | returns a symbol carrying the name. If the name exists the table is unchanged. Otherwise exactly one fresh symbol is appended and returned. Distinct names stay distinct |
| Symbols.Table.Lookup | calc.cpp:18-31 | the list walk from `head` returns the same symbol and leaves the same table as `Intern`, and keeps the invariant |
| Symbols.InternIdempotent | calc.cpp:18-31 | looking a name up twice gives the same symbol and adds nothing the second time |
| Symbols.InternUnique | calc.cpp:18-31 | in a table with distinct names, the symbol returned is the only one with that name |
| Symbols.SetValue | calc.cpp:400 | writing a value changes no name, body or parameter list |
| Symbols.Table.Store | calc.cpp:400 | the in-place write of one symbol's value |
| Symbols.Redefine | calc.cpp:410-417 | the symbol gets exactly the new parameter list and body, which may be absent (a null statement list), leaving it undefined; its name and value and every other symbol are unchanged |
| Symbols.RedefineOverrides | calc.cpp:412-416 | a second definition discards all trace of the first |
| Symbols.Table.Define | calc.cpp:410-417 | `dodef` in place, with a present or absent body: the table becomes `Redefine` of the old one, and names stay distinct |
| Ast.BinCode | calc.cpp:57-81 | a binary node's tag is one of the eleven case labels `+ - * / L 1 2 3 4 5 6` |
| Ast.BinOpOf | calc.cpp:57-81 | exactly the eleven tags `+ - * / L 1 2 3 4 5 6` denote a binary operator, and each maps back to its own tag |
| Ast.BinCodeRoundTrip | calc.cpp:57-81 | tags and binary operators correspond one to one, in both directions |
| Ast.BuiltinCode | calc.h:26-31 | builtin codes lie in 1..4 (`B_sqrt = 1` and so on) |
| Ast.BuiltinOf | calc.h:26-31 | exactly the codes 1..4 denote a builtin |
| Ast.BuiltinCodeRoundTrip | calc.h:26-31 | the four codes are distinct and decode back to their builtin |
| Ast.UnCode | calc.cpp:131-133 | a unary node's tag is the vertical bar (absolute value) or `'M'` (negation) |
| Ast.UnOpOf | calc.cpp:130-136 | exactly the vertical bar and `'M'` denote a unary operator, and each maps back to its own tag |
| Ast.UnCodeRoundTrip | calc.cpp:130-136 | the two unary tags are distinct and decode back to their operator |
| Ast.NodeType | calc.h:33-36 | a node's tag is `'L'` exactly for a sequence node, and a binary node's tag decodes to its operator |
| Semantics.Divide | calc.cpp:64-65 | for a non-zero divisor, the quotient times the divisor is the dividend; a zero divisor gives the uninterpreted library result |
| Semantics.ApplyBin | calc.cpp:56-83 | the six comparisons yield only 1.0 or 0.0 |
| Semantics.ApplyUn | calc.cpp:129-137 | absolute value yields a non-negative value equal to the operand or its negation; negation (`'M'`) yields the additive inverse |
| Semantics.ApplyBuiltin | calc.cpp:162-176 | `print` passes its argument through unchanged |
| Semantics.Overwrite | calc.cpp:257-264 | assigning values to parameters changes no name, body or parameter list |
| Semantics.SaveValues | calc.cpp:257-264 | one saved value per parameter |
| Semantics.Eval | calc.cpp:364-402 | evaluation never adds or removes a symbol |
| Semantics.EvalBranch | calc.cpp:309-319 | an `if` branch never adds or removes a symbol |
| Semantics.EvalLoop | calc.cpp:320-326 | the `while` loop never adds or removes a symbol |
| Semantics.EvalArgs | calc.cpp:238-254 | the walk collects at most `nargs` values and never adds or removes a symbol |
| Semantics.EvalCall | calc.cpp:208-283 | a user call never adds or removes a symbol |
| Semantics.Invoke | calc.cpp:257-282 | binding, the body and restoring never add or remove a symbol |
| Binding.OverwriteElsewhere | calc.cpp:257-264 | binding leaves every symbol that is not a parameter exactly as it was |
| Binding.OverwriteBinds | calc.cpp:257-264 | with distinct parameters, parameter k holds argument k after binding |
| Binding.SaveValuesAreOldValues | calc.cpp:257-264 | with distinct parameters, `oldval` holds the parameters' values from before binding |
| Binding.BindIsExact | calc.cpp:257-264 | the body runs with each parameter holding its argument and every other symbol as the arguments left it |
| Binding.RestoreIsExact | calc.cpp:272-278 | after the restore loop each parameter has its pre-binding value, and every other symbol is as the body left it |
| Binding.OverwriteOne | calc.cpp:257-264 | binding one parameter is one assignment, and the value saved is the one it held |
| Binding.OverwriteTwo | calc.cpp:257-264 | binding two parameters is two assignments in order |
| Binding.SaveValuesTwo | calc.cpp:257-264 | the second saved value is read after the first assignment |
| Binding.RepeatedParamKeepsFirstArg | calc.cpp:257-278 | with a parameter symbol listed twice, the forward restore leaves the first argument in it, not its pre-call value |
| Binding.EvalList | calc.cpp:238-254 | an independent reference: evaluating a list of expressions left to right gives one value per expression and adds no symbol |
| Binding.EvalArgsIsPrefix | calc.cpp:238-254 | the walk evaluates exactly the first `min(nargs, chain length)` argument expressions, in order, and nothing else; it comes up short exactly when the chain is shorter than `nargs` |
| Binding.CallUndefined | calc.cpp:217-220 | calling a symbol with no body gives 0.0, evaluates no argument and changes nothing |
| Binding.CallAfterUndefine | calc.cpp:217-220 | after `dodef` with no statement list, a call to the symbol gives 0.0, evaluates no argument and changes nothing, whatever it was before |
| Binding.CallTooFew | calc.cpp:238-244 | too few argument expressions gives 0.0 after all of them have been evaluated, with no parameter bound |
| Binding.CallTwoParamsOneLiteral | calc.cpp:238-244 | a two-parameter function called with one literal gives 0.0 and changes nothing |
| Binding.CallInvokes | calc.cpp:257-282 | once the walk yields one value per parameter, the call proceeds to binding and the body |
| Binding.CallRestoresParameters | calc.cpp:208-283 | a successful call with distinct parameters: arguments evaluated first, body run with exact binding, the call's value is the body's, every parameter restored, every other symbol and the output as the body left them |
| Properties.AssignStores | calc.cpp:398-402 | assignment yields the right-hand side's value and stores it in the symbol; every other symbol and the output are as the right-hand side left them |
| Properties.CompareIsBoolean | calc.cpp:69-80 | a comparison yields 1.0 or 0.0, and yields 1.0 exactly when its relation holds between the operand values |
| Properties.SeqRunsLeftThenRight | calc.cpp:66-68 | `'L'` evaluates its left child, then its right child in the state the left child leaves, and gives the right child's outcome; it stops if the left child does |
| Properties.SeqDiscardsLeft | calc.cpp:66-68 | `'L'` uses its left child only for its effects; with an effect-free left child it equals its right child |
| Properties.IfTakesOneBranch | calc.cpp:309-319 | `if` evaluates exactly one branch, chosen by the condition: a present taken branch runs in the state the condition leaves and gives the outcome, the other branch is irrelevant, and an absent taken branch gives 0.0 with only the condition's effects |
| Properties.WhileWithoutBody | calc.cpp:320-321 | a `while` without a body gives 0.0 and evaluates nothing, not even its condition |
| Properties.WhileInitiallyFalse | calc.cpp:320-326 | a `while` whose condition is zero at the start gives 0.0 and never runs its body |
| Properties.LoopYieldsLastBody | calc.cpp:322-324 | a finished loop either stops at its first test with the running value, or yields the value of this run's last body evaluation (started from the state `LastBodyStart` follows the run to), after which the condition was zero |
| Properties.WhileIsLoop | calc.cpp:320-326 | a `while` with a body is its loop started with result 0.0 |
| Properties.LoopStops | calc.cpp:322 | a loop whose condition tests zero stops there with its running result and the condition's effects |
| Properties.WhileYieldsLastBody | calc.cpp:306-330 | a finished `while` gives 0.0 when the condition is zero at once, and otherwise the value of this run's last body evaluation, after which the condition was zero |
| Properties.EvalKeepsDefs | calc.cpp:398-402 | evaluation changes symbol values only: names, bodies and parameter lists are untouched |
| Properties.EvalKeepsNames | calc.cpp:398-402 | so a table's names are distinct after an evaluation exactly when they were before |
| Properties.BranchKeepsDefs | calc.cpp:309-319 | an `if` branch changes symbol values only |
| Properties.LoopKeepsDefs | calc.cpp:320-326 | the `while` loop changes symbol values only |
| Properties.ArgsKeepDefs | calc.cpp:238-254 | the argument walk changes symbol values only |
| Properties.CallKeepsDefs | calc.cpp:208-283 | a user call changes symbol values only |
| Properties.InvokeKeepsDefs | calc.cpp:257-282 | binding, the body and restoring change symbol values only |
| Fuel.EvalMoreFuel | calc.cpp:322-324 | an evaluation that finishes with some fuel finishes with the same value and state given any more, so fuel only cuts runs short |
| Fuel.BranchMoreFuel | calc.cpp:309-319 | the same for an `if` branch |
| Fuel.LoopMoreFuel | calc.cpp:322-324 | the same for the `while` loop |
| Fuel.ArgsMoreFuel | calc.cpp:238-254 | the same for the argument walk |
| Fuel.CallMoreFuel | calc.cpp:208-283 | the same for a user call |
| Fuel.InvokeMoreFuel | calc.cpp:257-282 | the same for binding, the body and restoring |
| Fuel.EvalDeterministic | calc.cpp:306-330 | any two fuel bounds under which evaluation finishes give the same value and state |
| SumExample.BindAndRestore | calc.cpp:257-278 | for the one-parameter `f`, binding is one assignment to `n` and restoring writes `n`'s saved value back |
| SumExample.CallOnPred | calc.cpp:208-283 | `f(n - 1)` with `n` = m + 1 gives the body's value with `n` bound to m, and leaves the state as it found it |
| SumExample.BodyBase | calc.cpp:309-312 | with `n` < 1 the body of `f` gives 0 and changes nothing |
| SumExample.BodyStep | calc.cpp:309-319 | with `n` ≥ 1 the body of `f` gives `n` plus the value of `f(n - 1)` |
| SumExample.SumBodyValue | calc.cpp:208-283 | with `n` = k the body of `f` gives 0 + 1 + ... + k and leaves the state unchanged |
| SumExample.CallSum | calc.cpp:208-283 | `f(k)` gives k(k+1)/2 and leaves every symbol, `n` included, as it was |
| SumExample.SumOfFive | calc.cpp:208-283 | `f(5)` gives 15 and leaves `n` and every other symbol unchanged |
| Session.SumSession | calc.cpp:208-283 | looking up `f` and `n` in an empty table, defining `f` and evaluating `f(5)` in place with fuel for its six nested calls gives 15, and `n`, looked up again afterwards, still holds 0 |
| Evaluator.Output.constructor | calc.cpp:172 | standard output starts with nothing written by `print` |
| Evaluator.Evaluate | calc.h:33-41 | dispatch on the node class; the value and the new table and output are exactly those `Eval` gives, or `None` exactly when `Eval` gives `None` (out of fuel, or a symbol outside the table); on every path no definition changes, and the names are distinct afterwards exactly when they were before |
| Evaluator.EvalSymasgn | calc.cpp:398-402 | `symasgn::eval` in place agrees with `Eval`; no name, body or parameter list changes, on every path |
| Evaluator.EvalBinop | calc.cpp:56-83 | `binop::eval` in place agrees with `Eval`; no name, body or parameter list changes, on every path |
| Evaluator.EvalUnop | calc.cpp:129-137 | `unop::eval` agrees with `Eval`; no name, body or parameter list changes, on every path |
| Evaluator.EvalFncall | calc.cpp:162-176 | `fncall::eval` agrees with `Eval`; `print` appends its value to the output; no name, body or parameter list changes, on every path |
| Evaluator.EvalFlow | calc.cpp:306-330 | `flow::eval`, with the C++ `while` loop, agrees with `Eval`; no name, body or parameter list changes, on every path |
| Evaluator.EvalUfncall | calc.cpp:208-283 | `ufncall::eval` with its arrays and three loops agrees with `EvalCall`; no name, body or parameter list changes, on every path |
| Evaluator.EvalArguments | calc.cpp:238-254 | the argument loop fills `newval` with exactly the values `EvalArgs` collects, says how many, and leaves the state `EvalArgs` gives; no name, body or parameter list changes, on every path |
| Evaluator.NextArgument | calc.cpp:246-253 | one step of the walk: an `'L'` node yields its left child's value and moves to its right child; any other node is the last argument; no name, body or parameter list changes, on every path |
| Evaluator.BindAndRun | calc.cpp:257-282 | save, assign, run the body and restore agree with `Invoke`; no name, body or parameter list changes, on every path |
| Evaluator.SaveAndAssign | calc.cpp:257-264 | the loop leaves the table as `Overwrite` of the arguments and `oldval` as `SaveValues` |
| Evaluator.PutBack | calc.cpp:272-278 | the restore loop leaves the table as `Overwrite` of the saved values, in forward order |

## Left out

- The driver in main.cpp: the prompt, the `new_handler`, the parser (`yyparse`) and `yyerror`. Trees and definitions reach the model already built.
- All `print` methods and `print_indent`: diagnostic dumps of the tree to standard output.
- The diagnostic messages printed for a call to an undefined function and for too few arguments. The output trace holds only the values written by the `print` builtin, not their `%4.4g` formatting.
- `sqrt`, `exp` and `log`, and the result of dividing by zero (an infinity or a NaN), are left uninterpreted. They are fields of the `Libm` parameter.
- IEEE `double` arithmetic: values are `real`, with no rounding, NaN or infinity.
- Operand order of `+ - * /` and of the comparisons is unspecified in C++. The model evaluates the left operand first, which is one permitted order. Only `'L'` fixes the order in calc.cpp.
- Non-termination: every evaluation function and method takes fuel. One unit is spent per `while` iteration and per user-function body entered. `None` means the fuel ran out, so runs that never end are modelled only as running out of every bound. More fuel never changes a finished outcome (`Fuel.EvalMoreFuel`).
- Symbols are table indices, not heap addresses. A tree or definition that names an index outside the table stops evaluation with `None`. Trees built from looked-up names never do this.
- The out-of-memory branch of `ufncall::eval`, `delete` of the arrays, all destructors and the ownership of subtrees. Memory management is not observable behaviour, and `new` throws rather than returning null.
- The `el` slot of a `'W'` flow node, which `flow::eval` never reads.
- The fall-through `return 0.0` of `binop::eval` and `unop::eval`, and `return v` of `fncall::eval`. They serve tags outside the known set, and the model's operator types are closed.
- The linked `next` chain and the `symlist` nodes as heap objects. The table is a sequence in creation order and a parameter list is a sequence of symbol ids. Aliasing between list nodes is therefore not modelled.
