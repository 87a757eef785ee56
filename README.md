# Son: a verified model of the scenario compiler's core

Son compiles a "scenario" notation into ordinary JavaScript. An algorithm
body is a list of sections; each section has leading statements and plots
(scenarios), and each plot is a chain of `yes(cond)` / `no(cond)` rules that
ends in a `return` or `throw`. The compiler

- splits the statements into sections and plots with a small state machine
  (the section builder);
- turns every plot into a chain of rule and action nodes, merges the chains
  of a section into one decision tree and emits it as nested `if`/`else`;
- rewrites the scope of the algorithm: names assigned without a
  declaration are hoisted into one `var` at the top of their function,
  fields become `self.<name>`, and `if`/`for`/`switch` are rejected;
- reads module files: the header of an algorithm file, the arguments and
  configuration of `module(...)`, the uniqueness of names, the order of
  computed-property dependencies (a depth-first topological sort that
  reports cycles) and the exported object;
- ships helper code for its examples, among them an in-place quicksort
  written in the notation itself.

The Dafny modules follow the source files:

| module | file | models |
|---|---|---|
| `Errors` | errors.dfy | the error codes, and the `Option`/`Result` wrappers |
| `Text` | text.dfy | decimal text of numbers, `join`, the default string order and sort |
| `Syntax` | syntax.dfy | the syntax tree as a closed datatype, `getCall`, tree size |
| `Common` | common.dfy | `addToSet` and the topological sort (a class with the `permanent`/`temporary`/`output` fields) |
| `Sections` | section_builder.dfy | the section builder, as a class whose methods are proved against functions on a value of its fields |
| `DecisionTree` | decision_tree.dfy | node chains, merging, emission, and what the emitted code does |
| `FizzBuzz` | fizzbuzz.dfy | the fizzbuzz scenarios of examples/fizzbuzz.js, rewritten as `plot()`-marked plots of one section, compiled and run for every number |
| `Declarations` | declarations.dfy | `collectDeclarations` |
| `Scope` | scope.dfy | `processAst`, `cloneAst`, `cloneContextForFunction`, `prependVariables` |
| `ScopeExample` | scope_example.dfy | the scope pass over the quicksort's partition loop |
| `Prepare` | prepare.dfy | `createVarContext*`, `extractVariables`, `transformStatement`, `prepareAst` |
| `Structure` | structure.dfy | `parseStructure`, `createReturnObject`, `makeFunction`, `makeReturn` |
| `Validators` | validators.dfy | `areUnique`, `ensureUnique*`, `ensureIdentifier`, `extractConfig`, `checkConfig` |
| `ModuleFile` | module_file.dfy | `readJsFile`/`readSonFile` after parsing, `addToAlgos`, `getAllDeps`, `generateExportedObject`, the export rule, `decorateProperty` |
| `Tools` | tools.dfy | `swap`, `loop`, `compare`, `compareWithLastAndSwap` |
| `QuickSort` | quicksort.dfy | the example quicksort on an array, and the `[4, 2, 3, 1]` example |

Printing a syntax tree (escodegen) is a parameter `render: Node -> string`
wherever rendered text matters; the merge only compares it for equality, so
every result holds for every printer.

## Model

| member | source | states |
|---|---|---|
| Common.AddToSet | src/common.js:19-23 | the result is the old key set plus every element of the list; no key is lost |
| Syntax.GetCall | src/common.js:1-13 | a call is recognised exactly for an expression statement whose expression is a call with an identifier callee, and the statement is rebuilt from its name and arguments |
| Text.NatToString | src/sectionBuilder.js:198-205 | the decimal text of a section ordinal is non-empty, all digits, denotes the number, has two digits or more exactly from 10 on, and starts with `0` only for 0 |
| Text.DigitsCanonical | src/sectionBuilder.js:198-205 | every digit string without a leading zero (other than "0") is the text of the number it denotes, so the text of an ordinal is the one `"#" + ordinal` renders and no other |
| Text.NatToStringInjective | src/sectionBuilder.js:198-205 | distinct ordinals give distinct generated names "#k" |
| Text.Join | src/common.js:38-52 | joining no parts gives the empty text, one part gives the part itself |
| Text.StrLeIsCodeUnitOrder | src/ast.js:227-247 | comparing two strings character by character is comparing their UTF-16 code units lexicographically, the order `sort()` uses |
| Text.SupplementaryBeforeLastBmp | src/ast.js:227-247 | a character beyond U+FFFF sorts before U+FFFF, as its leading surrogate is smaller |
| Text.StrLeTotal | src/ast.js:227-247 | the default string order is total |
| Text.StrLeTransitive | src/ast.js:227-247 | the default string order is transitive |
| Text.StrLeAntisymmetric | src/ast.js:227-247 | the default string order is antisymmetric |
| Text.Insert | src/ast.js:227-247 | inserting into a sorted list keeps it sorted and adds exactly that element |
| Text.Sort | src/ast.js:227-247 | `sort()` yields a sorted permutation of the names |
| Common.CyclePathShowsCycle | src/common.js:38-52 | a reported cycle path really contains a cycle, so the graph is not acyclic |
| Common.SortContext.constructor | src/common.js:25-36 | the sort starts with no permanent or temporary marks and an empty output |
| Common.SortContext.Visit | src/common.js:38-59 | one visit of `topologicaSortCore` updates the marks and output exactly as the recursive specification does, or fails with its error |
| Common.TopologicalSort | src/common.js:25-59 | the output has no repeats, ends with `start`, holds only nodes reachable from `start`, lists every node after all of its adjacent nodes; a failure reports a genuine cycle path; an acyclic graph never fails |
| Common.SortSound | src/common.js:25-59 | the same facts stated for the recursive specification of the sort |
| Common.VisitGrows | src/common.js:38-59 | a visit only adds to the output and to the finished marks |
| Common.VisitKeepsInvariant | src/common.js:38-59 | after a visit every finished node is output once, after its neighbours, and reachable from `start` |
| Common.VisitFailsOnCycle | src/common.js:38-52 | a visit fails only by meeting a node still in progress, with the " > "-joined path from `start` to it |
| Sections.StringLiteral | src/sectionBuilder.js:21-88 | a string value is read exactly from a string literal |
| Sections.ReadExpression | src/sectionBuilder.js:21-88 | a function declaration is rejected with SON029; statements other than calls of plot/yes/no/section are plain code; a return/throw (and only it) ends a plot; rules keep exactly one argument; every failure has one of the codes SON029, SON028, SON0012, SON0013, SON0014 |
| Sections.ReadMarkers | src/sectionBuilder.js:21-88 | each marker a user writes (named or unnamed plot and section, yes, no) is read as that marker; `section(1)` fails with SON0013 and `yes()` with SON0012 |
| Sections.NewSection | src/sectionBuilder.js:198-205 | a new section is empty, has the given ordinal, and is named by the given name or, when that is empty, by "#<ordinal>" |
| Sections.StartPlot | src/sectionBuilder.js:160-172 | starting a plot appends one empty plot named by its name or "<section>, plot <k>", and changes nothing else in the section |
| Sections.AddToPlot | src/sectionBuilder.js:174-178 | adding appends the statement to the last plot only, keeping its name and every other plot |
| Sections.Advance | src/sectionBuilder.js:4-19 | an accepted statement keeps every stored section, leaves a well-formed builder that is not complete; a complete builder accepts nothing |
| Sections.AdvanceReadsFirst | src/sectionBuilder.js:4-19 | the statement is read first, so a malformed marker is reported in every state; otherwise the state's handler decides |
| Sections.Apply | src/sectionBuilder.js:4-19 | the handlers together keep every stored section and the builder well formed; the complete state accepts nothing |
| Sections.Close | src/sectionBuilder.js:189-196 | `done` succeeds exactly when the builder is not complete, stores the current section last and completes the builder |
| Sections.Initial | src/sectionBuilder.js:207-218 | the builder starts in the start state with no stored section and current section "#1" with ordinal 1 |
| Sections.Feed | src/sectionBuilder.js:4-19 | feeding a list of statements keeps the builder well formed |
| Sections.FeedKeepsStatements | src/sectionBuilder.js:90-178 | fed a list of statements, the builder holds exactly the statements that are not plot/section markers, each once, in input order |
| Sections.AdvanceAppends | src/sectionBuilder.js:90-178 | one statement: a marker adds nothing, any other statement is appended after everything already held |
| Sections.StartStepAppends | src/sectionBuilder.js:90-112 | in the start state a statement goes to the preamble, a rule opens a plot with it, a section marker opens a section: nothing is lost or reordered |
| Sections.PlotStepAppends | src/sectionBuilder.js:114-135 | in the plot state statements and rules are appended to the last plot, nothing is lost or reordered |
| Sections.NoPlotStepAppends | src/sectionBuilder.js:137-158 | in the no-plot state an accepted rule or marker starts a plot or section without losing anything |
| Sections.CloseKeepsStatements | src/sectionBuilder.js:189-196 | `done` keeps every statement the builder holds |
| Sections.AdvanceKeepsNumbering | src/sectionBuilder.js:180-185 | the k-th stored section has ordinal k and a non-empty name, and the current one is the next |
| Sections.CloseKeepsNumbering | src/sectionBuilder.js:189-196 | `done` keeps the numbering |
| Sections.SectionMarkerNames | src/sectionBuilder.js:180-185 | a section marker stores the current section and opens the next ordinal, named by the marker or "#<k>" when the name is empty, in the start state |
| Sections.AdvanceKeepsShape | src/sectionBuilder.js:114-158 | a return or throw is always the last statement of its plot and occurs once; the plot being filled has none; after one the builder is in the no-plot state |
| Sections.StatementAfterPlotEndFails | src/sectionBuilder.js:137-158 | after a return/throw ends a plot, a plain statement or another return/throw fails with SON0019 |
| Sections.CloseKeepsShape | src/sectionBuilder.js:189-196 | `done` keeps the plot shape |
| Sections.AdvanceKeepsValid | src/sectionBuilder.js:4-178 | one accepted statement keeps the whole builder invariant: well formed, numbered, shaped, holding every accepted non-marker statement once in order |
| Sections.CloseKeepsValid | src/sectionBuilder.js:189-196 | `done` keeps the whole builder invariant |
| Sections.SectionBuilder.constructor | src/sectionBuilder.js:207-218 | a new builder is valid and is in the initial state |
| Sections.SectionBuilder.NextExpression | src/sectionBuilder.js:4-19 | an accepted statement moves the fields to the next state of the specification; a rejected one returns its error and leaves the fields unchanged |
| Sections.SectionBuilder.Take | src/sectionBuilder.js:4-19 | reads the statement and dispatches, with the same outcome as the specification |
| Sections.SectionBuilder.Dispatch | src/sectionBuilder.js:4-19 | the state's handler, with the same outcome as the specification |
| Sections.SectionBuilder.HandleStart | src/sectionBuilder.js:90-112 | the fields become the specification's start-state step |
| Sections.SectionBuilder.HandlePlot | src/sectionBuilder.js:114-135 | the fields become the specification's plot-state step |
| Sections.SectionBuilder.HandleNoPlot | src/sectionBuilder.js:137-158 | the fields become the specification's no-plot step, or the error is returned with the fields unchanged |
| Sections.SectionBuilder.StartNextSection | src/sectionBuilder.js:180-185 | the fields store the current section and open the next |
| Sections.SectionBuilder.Done | src/sectionBuilder.js:189-196 | completes the builder as the specification does; a second call fails without a change |
| DecisionTree.ConvertExpressionToNode | src/sonCore.js:458-480 | a statement becomes a detached node; a rule exactly for a yes/no call; conversion fails, with its own error, exactly for a yes/no call without exactly one argument |
| DecisionTree.ConvertMeaning | src/sonCore.js:369-387 | a plot becomes one node per statement, in order, linked by `down`; the first failing statement decides the failure; an empty plot gives no chain |
| DecisionTree.MergeNodes | src/sonCore.js:345-367 | merging stops silently when either side ends; two nodes that differ in kind (rule or action) or in rendered text fail with SON0022, whatever their polarity, and that is the only error |
| DecisionTree.MergeExtends | src/sonCore.js:345-367 | merging only fills empty `right` fields of rules: every node of the main tree is kept with its item |
| DecisionTree.OppositeRuleFillsRight | src/sonCore.js:354-366 | a rule of opposite polarity with an empty `right` receives the rest of the addition's chain there |
| DecisionTree.MergeKeepsSound | src/sonCore.js:345-367 | the merged tree is built from parts of both trees only |
| DecisionTree.MergeSpineUnchanged | src/sonCore.js:345-367 | merging a chain identical to the tree's own spine changes nothing |
| DecisionTree.MergeScenarios | src/sonCore.js:331-343 | the loop computes the fold of the chains into the tree of the first plot |
| DecisionTree.MergeScenariosKeepsFirst | src/sonCore.js:331-343 | the tree extends the first plot's chain, and an empty first plot gives no tree whatever follows |
| DecisionTree.MergeScenariosSound | src/sonCore.js:331-343 | the tree of a section holds only converted statements of its plots |
| DecisionTree.AppendNodeToBody | src/sonCore.js:389-407 | the body gets exactly the emitted statements of the tree appended |
| DecisionTree.MakeIfStatement | src/sonCore.js:409-429 | builds the if-statement whose then and else blocks are the emitted branches, the else only when non-empty |
| DecisionTree.AppendSectionToBody | src/sonCore.js:281-290 | the body gets the section's leading statements, then its tree |
| DecisionTree.BuildBodyFromSections | src/sonCore.js:281-285 | the body is every section's code, in section order |
| DecisionTree.EmitMeansRun | src/sonCore.js:389-429 | running the emitted code prints and ends exactly as walking the tree does: an action runs and goes down, a yes-rule goes down when its test holds and right otherwise, a no-rule the reverse |
| DecisionTree.MergeAgreesWithAddition | src/sonCore.js:345-367 | a run of the merged tree and a run of the added chain agree for as long as both go on |
| DecisionTree.SectionsRunInOrder | src/sonCore.js:281-290 | sections run in order, and a later section runs only when the earlier ones finished without return or throw |
| FizzBuzz.FizzBuzzMerges | src/sonCore.js:331-367 | the three fizzbuzz plots merge without error into the expected tree, for every printer |
| FizzBuzz.TreeRuns | src/sonCore.js:389-429 | the merged fizzbuzz tree returns by the outcomes of its two tests |
| FizzBuzz.FizzBuzzReturns | test/functions.js:27-35 | the emitted fizzbuzz code returns "FizzBuzz" for multiples of 15, "Fizz" for other multiples of 3, "Buzz" for other multiples of 5, and nothing otherwise |
| Declarations.CollectAdds | src/ast.js:45-66 | the pass adds exactly the `var` names of the tree outside nested functions |
| Declarations.CollectListAdds | src/ast.js:45-66 | the same for a list of statements |
| Declarations.CollectKeepsVars | src/ast.js:45-66 | stamping keeps every node's kind and its declared names |
| Declarations.CollectStamps | src/ast.js:45-66 | after the pass every function node carries the set of names its own body declares |
| Declarations.CollectStampedUnchanged | src/ast.js:45-66 | stamping a stamped tree again changes nothing |
| Scope.AddName | src/ast.js:124-131 | recording a free name keeps the earlier names and adds this one |
| Scope.AddNames | src/ast.js:124-131 | recording names adds exactly them; recording two lists is recording their concatenation |
| Scope.AddNamesNoDuplicates | src/ast.js:124-131 | each free name is recorded once |
| Scope.EnterFunction | src/ast.js:68-79 | a nested function sees the parent's declarations, its own `var` names and the parent's free names as declared, shares the fields, and starts with no free names and no await |
| Scope.Declarators | src/ast.js:168-188 | one declarator per name, in order, without initialiser |
| Scope.PrependVariables | src/ast.js:168-188 | the body gets one declaration of the names at the front, or stays as it is when there are none |
| Scope.HoistedDeclares | src/ast.js:168-188 | the inserted declaration names exactly the hoisted names, and the body's other statements are unchanged |
| Scope.ProcessAst | src/ast.js:83-144 | the pass fails only on a restricted statement or on hoisting into an expression-bodied arrow |
| Scope.CloneAst | src/ast.js:26-43 | cloning fails only for the same reasons |
| Scope.ProcessList | src/ast.js:26-43 | a processed list has the length of its input |
| Scope.Free | src/ast.js:124-131 | a free name is neither declared nor a field |
| Scope.ProcessContext | src/ast.js:83-144 | the context after the pass records exactly the names assigned freely outside nested functions, in order of first assignment, and the await flag of this function only |
| Scope.ProcessListContext | src/ast.js:26-43 | a list threads the context through its elements in order |
| Scope.RestrictedFails | src/ast.js:134-141 | the pass fails on a tree containing if/for/for-in/for-of/switch anywhere, nested functions included, and a not-allowed failure means such a statement is there |
| Scope.ProcessFieldFree | src/ast.js:91-117 | after the pass no field is named as a bare identifier (plain member properties excepted); with no fields this says nothing, and what the output is comes from `ProcessRewrites` |
| Scope.SelfRewrite | src/ast.js:91-117 | the field rewrite on its own, a reference for the pass's output; with no fields it changes nothing |
| Scope.ProcessRewrites | src/ast.js:83-144 | on a tree without functions a successful pass yields exactly the field rewrite: every node, child and order kept, each field named bare becomes `self.<name>`, the property of a plain `a.b` stays as written |
| Scope.ProcessKeepsTree | src/ast.js:83-144 | with no own-key fields, as the pass is always entered (src/sonCore.js:67-80), a tree without functions comes out of a successful pass exactly as it went in |
| Scope.FunctionRewrites | src/ast.js:83-88 | a function without nested functions comes out as its field rewrite, with the declaration of its hoisted names in front of its body and nothing else changed |
| Scope.FunctionEntry | src/ast.js:68-88 | a nested function leaves the enclosing context unchanged; it hoists its own free names, once each, into a declaration at the top of its body; its name, parameters and the statements after that declaration are its processed children |
| Scope.HoistFailure | src/ast.js:83-88 | a nested function fails exactly when it is an expression-bodied arrow with names to hoist |
| ScopeExample.StoreIndexNotRehoisted | examples/myModule/quickSort.js:33-36 | with `storeIndex` already free in the enclosing function, the partition loop passes through unchanged and the arrow declares no `storeIndex` of its own |
| ScopeExample.StepHoistsWhenUnassigned | examples/myModule/quickSort.js:34-36 | without the earlier assignment the arrow would hoist its own `storeIndex` |
| Prepare.ModuleContext | src/sonCore.js:67-80 | an algorithm of a module starts with no free names, no await, no fields, and the module's declarations and free names as declarations |
| Prepare.ModuleNamesNotRehoisted | src/sonCore.js:67-80 | no name the module already declared is hoisted again in one of its algorithms |
| Prepare.TransformStatement | src/sonCore.js:321-328 | transforming fails only for the reasons of the scope pass |
| Prepare.ExtractStatements | src/sonCore.js:311-317 | the pre-pass loop computes the stamped statements and the declarations of the specification |
| Prepare.TransformStatements | src/sonCore.js:321-328 | the transforming loop computes the specification's result |
| Prepare.PrepareAst | src/sonCore.js:294-301 | the method computes the specification's result |
| Prepare.ExtractAllAdds | src/sonCore.js:311-317 | the pre-pass declares exactly the parameters' set plus every top-level `var` |
| Prepare.TransformAllContext | src/sonCore.js:321-328 | transforming statement by statement threads the context as one pass over all statements |
| Prepare.PrepareResult | src/sonCore.js:294-301 | after preparation the free names are recorded once and exclude every parameter and `var`, and the body starts with their declaration |
| Structure.GetPropertyKey | src/ast.js:215-225 | a key is read exactly from a property with an identifier or literal key, an identifier giving its name; other keys fail with SON0024 |
| Structure.ParseStructure | src/ast.js:190-201 | the loop computes the structure the object denotes |
| Structure.PropertyValue | src/ast.js:203-213 | a property value is read as its literal or nested structure |
| Structure.ParseSucceeds | src/ast.js:190-213 | a non-object gives undefined; an object parses exactly when all its keys and values are readable |
| Structure.FailedPrefixDecides | src/ast.js:190-201 | the first unreadable property decides the error |
| Structure.EntriesKeys | src/ast.js:190-201 | the keys of the structure are exactly the keys of its properties |
| Structure.LastKeyWins | src/ast.js:190-201 | a key written twice takes the value of its last property |
| Structure.CreateReturnObject | src/ast.js:227-247 | one `name: name` property per given name, in sorted order |
| Structure.ReturnObjectExports | src/ast.js:227-247 | the returned object exports every given name as often as given, sorted, each under its own name |
| Structure.MakeFunction | src/ast.js:153-166 | builds a function declaration with the given body |
| Structure.MakeFunctionRoundTrip | src/ast.js:146-166 | the name and parameter names given are read back from the declaration |
| Structure.MakeReturn | src/ast.js:249-254 | a return statement of the given expression |
| Validators.AreUnique | src/sonCore.js:520-529 | true exactly when the list has no duplicate |
| Validators.PrototypeNameReportedAsDuplicate | src/sonCore.js:520-529 | the check as written reports a lone "toString" or "constructor" as a duplicate |
| Validators.PrototypeSectionAndPlotNamesRejectedAsWritten | src/sonCore.js:482-502 | the uniqueness checks as written reject a lone section named "constructor" and a lone plot named "toString", which repeat no name |
| Validators.AsWrittenAgreesOffPrototype | src/sonCore.js:520-529 | the check as written is right for lists without the host's prototype names |
| Validators.SectionNames | src/sonCore.js:494-502 | the names of the sections, position by position |
| Validators.PlotNames | src/sonCore.js:482-492 | the names of the plots, position by position |
| Validators.EnsureUniqueSections | src/sonCore.js:494-502 | passes exactly when section names are distinct, and otherwise fails with SON0020 |
| Validators.EnsureUniquePlots | src/sonCore.js:482-492 | passes exactly when the plot names of all sections together are distinct, and otherwise fails with SON0021 |
| Validators.EnsureIdentifier | src/sonCore.js:219-225 | succeeds exactly on an identifier, giving its name; otherwise SON0011 |
| Validators.EnsureIdentifiers | src/sonCore.js:106-114 | succeeds exactly when every argument is an identifier, giving their names in order; otherwise SON0011 |
| Validators.ExtractConfig | src/sonCore.js:196-217 | the loop computes the specification's names and configuration |
| Validators.ExtractConfigSucceeds | src/sonCore.js:196-217 | `module(...)` arguments are accepted exactly when each is an identifier or a readable object, the names are distinct and there is at most one object; the names are the identifiers in order |
| Validators.CollectedFails | src/sonCore.js:196-217 | the first bad argument decides the error |
| Validators.ConfigIsTheObject | src/sonCore.js:207-211 | the configuration is the structure of the one object argument |
| Validators.NoObjectNoConfig | src/sonCore.js:216 | without an object argument the configuration is empty |
| Validators.CheckConfigMeaning | src/sonCore.js:614-620 | the module type is "object" only when asked for by name; a missing or false-like type gives "functions"; every other value fails with SON0025 |
| ModuleFile.ClassifyJs | src/sonCore.js:106-147 | a file without a fun/pfun/prop header is other code; an algorithm keeps the statements after the header, is private exactly for pfun and a property exactly for prop, and has distinct identifier arguments; it fails exactly for a prop with arguments or fun/pfun arguments that are not distinct identifiers |
| ModuleFile.ReadJsFile | src/sonCore.js:106-147 | the method classifies the file as the specification does |
| ModuleFile.ReadSonFile | src/sonCore.js:164-192 | the splitting loop computes the specification's module source |
| ModuleFile.SplitKeepsStatements | src/sonCore.js:164-192 | the statements before and after the module call are exactly the other statements, in order |
| ModuleFile.SplitFails | src/sonCore.js:164-192 | the first bad module call decides the error |
| ModuleFile.BeforeModuleNothingAfter | src/sonCore.js:164-192 | before any module call nothing is put after |
| ModuleFile.SplitNoModule | src/sonCore.js:164-192 | without a module call every statement is before it |
| ModuleFile.SplitAfterModule | src/sonCore.js:164-192 | once a module call is seen, every further plain statement goes after it |
| ModuleFile.SingleModule | src/sonCore.js:150-193 | with one module call the file gives its arguments and configuration, the statements before it and those after it |
| ModuleFile.NoModuleStatement | src/sonCore.js:185-187 | a module file without a module call fails with SON0028 |
| ModuleFile.ModuleAlgos.constructor | src/sonCore.js:607-612 | a module starts without algorithms |
| ModuleFile.ModuleAlgos.AddToAlgos | src/sonCore.js:607-612 | a name already present fails with SON0031 and changes nothing; otherwise the algorithm is stored under its name |
| ModuleFile.ModuleAlgos.GetAllDeps | src/sonCore.js:741-753 | the properties among the topological order of the dependencies, each once and reachable from the start; a cycle is reported with its path; an acyclic graph never fails |
| ModuleFile.DepGraph | src/sonCore.js:741-746 | the dependency graph has one node per algorithm |
| ModuleFile.PropertiesMeaning | src/sonCore.js:752 | the filter keeps exactly the properties |
| ModuleFile.PropertiesDistinct | src/sonCore.js:752 | the filter keeps distinct names distinct |
| ModuleFile.WithoutDepsOnlyStart | src/sonCore.js:741-753 | without dependencies the order is the start alone |
| ModuleFile.PublicNamesMeaning | src/sonCore.js:684-689 | exactly the names of the non-private functions are public |
| ModuleFile.GenerateExportedObject | src/sonCore.js:684-689 | the exported object lists the public functions, as often as they occur, in sorted order, each as a `name: name` property |
| ModuleFile.ExportRuleAgreesWithObject | src/sonCore.js:696-702 | in an ES module of functions the functions marked `export` are exactly the public ones; in every other format or module type none is marked |
| ModuleFile.DecorateRoundTrip | src/sonCore.js:277-279 | the decorated name gives the property back, and distinct properties get distinct names |
| Tools.Swapped | examples/tools.js:2-6 | a swap keeps the length |
| Tools.SwappedMeaning | examples/tools.js:2-6 | a swap exchanges the two positions, keeps every other one and the elements, and undoes itself |
| Tools.Swap | examples/tools.js:2-6 | the array becomes its old contents with the two positions exchanged |
| Tools.Range | examples/tools.js:8-12 | the indices from `begin` up to `end - 1` in increasing order, none when `begin >= end` |
| Tools.Loop | examples/tools.js:8-12 | the callback is called for exactly those indices in order, its state threaded through the calls |
| Tools.Compare | examples/tools.js:22-26 | returns the comparison of the two elements and changes nothing |
| Tools.CompareWithLastAndSwap | examples/tools.js:14-20 | when the left element compares below the right one it is swapped into `storeIndex`, which moves up by one; otherwise nothing changes |
| QuickSort.Sort | examples/myModule/quickSort.js:1-41 | for a total order, the range ends sorted, holds the same elements, and nothing outside it changes |
| QuickSort.TwoSorted | examples/myModule/quickSort.js:13-18 | two elements already in order are left sorted |
| QuickSort.TwoSwappedSorted | examples/myModule/quickSort.js:21-25 | two elements out of order are sorted by the swap |
| QuickSort.Partition | examples/myModule/quickSort.js:30-37 | the pivot ends at `storeIndex`, everything before it compares below it and nothing after does, the range keeps its elements |
| QuickSort.PartitionStep | examples/myModule/quickSort.js:34-36 | one loop turn keeps `begin <= storeIndex <= i + 1`, the elements before `storeIndex` below the pivot and those after not |
| QuickSort.PartitionFinish | examples/myModule/quickSort.js:37 | the final swap puts the pivot between the two sides |
| QuickSort.SortedAfterRecursion | examples/myModule/quickSort.js:40-41 | sorting the two sides of a partitioned range sorts the range and keeps its elements |
| QuickSort.NumberCompareIsTotalOrder | test/modules.js:17-25 | the test's comparison is a total order |
| QuickSort.SortsFourNumbers | test/modules.js:16-29 | sorting `[4, 2, 3, 1]` gives `[1, 2, 3, 4]` |
| QuickSort.SortedNumbers | test/modules.js:26-29 | the only ascending arrangement of 1, 2, 3, 4 is `[1, 2, 3, 4]` |

## Left out

- File system, directory walking, reading and writing files, the command line, `printList`, `log` and `inject`: I/O and wiring.
- Parsing and printing: esprima is not part of this model; a parsed file is a list of statements, and escodegen is the parameter `render`.
- Error messages and line numbers: an error is its code only.
- Module text assembly (`addHeader`, `addFooter`, `pushExpressions`, `addOtherBlock`, `addPropertyVariables`, `handleModule`): it concatenates printed text; only the export rule of `addFunctionBlock` is modelled.
- The computed-property pipeline beyond `getAllDeps` (`generateCompute`, `generateInvokeCalculate`): it calls helpers that src/ast.js does not export, and `deps`/`computes` are never filled by the scope pass.
- `generateFunction` and the per-module loops that call the modelled steps: orchestration only.
- DecisionTree.MergeNodes: merging is modelled on tree values and returns the merged tree; the source writes `main.right` in place, so aliasing between trees is not modelled.
- DecisionTree.ConvertMeaning: the chain is a recursive value instead of nodes linked by assigning `prev.down` in a loop.
- Common.TopologicalSort: `reportError` is modelled as throwing, the only behaviour its caller uses; a `reportError` that returns is not modelled.
- ModuleFile.ModuleAlgos.GetAllDeps: requires every dependency to name an algorithm of the module; the source fails with a host TypeError on an unknown dependency.
- Structure.ParseStructure: the dictionary is a map, so the insertion order of its keys is not kept.
- Structure.ParseStructure: a property keyed `__proto__` is stored as an own key; in the source `result[key] = value` on `{}` (src/ast.js:194-198) runs the `Object.prototype` setter instead, so a literal value is dropped and an object value becomes the prototype of the result, whose keys are then read through it (for `module({__proto__: {type: "object"}})` the source's `config.type` at src/sonCore.js:615 is "object", the model's configuration has no `type` and gives "functions").
- Structure.EntriesKeys: holds for own keys as the model stores them; in the source a `__proto__` key never becomes an own key of the result, for the reason on the Structure.ParseStructure line above.
- Structure.CreateReturnObject: sorts a copy of the names; the source sorts the caller's list in place.
- Declarations.CollectAdds: function parameters are not declarations here, as in the source; only `var` names are.
- Tools.Swap, Tools.Compare, Tools.CompareWithLastAndSwap: require in-range indices; out of range the host reads `undefined` or extends the array.
- Tools.Loop: the callback returns the new state instead of updating a captured variable; in QuickSort.Partition the loop is written out as a `for` loop over CompareWithLastAndSwap with `storeIndex` as a local.
- QuickSort.Sort: the three sections of the compiled function are written as its branches (the `if`s the compiler emits), with the partition statements as the method QuickSort.Partition; `begin <= end` is required, because with `begin > end` the source's third section calls itself on `(begin + 1, end)`, again an inverted range, without end, and `cmp` is required to be a total order, which the sorted result needs.
- Validators.AreUnique: membership is own-key membership (see Findings), not the host's `in`, which also holds for the twelve keys every plain object inherits from `Object.prototype` (`constructor`, `toString`, `valueOf`, ...).
- Validators.ExtractConfig: own-key membership; the source rejects an argument named like an inherited key with SON0022.
- ModuleFile.ModuleAlgos.AddToAlgos: own-key membership; the source rejects an algorithm named like an inherited key with SON0031.
- Validators.EnsureUniqueSections: own-key membership; the source rejects a section named like an inherited key (for example "constructor") with SON0020, as Validators.PrototypeSectionAndPlotNamesRejectedAsWritten shows.
- Validators.EnsureUniquePlots: own-key membership; the source rejects a plot named like an inherited key (for example "toString") with SON0021, as Validators.PrototypeSectionAndPlotNamesRejectedAsWritten shows.
- Scope.ProcessAst: own-key membership in `fields` and `declarations`; since `fields` is never filled (src/sonCore.js:56-80), the only identifiers the source rewrites to `self.<name>` are inherited names such as `toString` or `valueOf`, which the model leaves unchanged.
- Scope.ProcessKeepsTree: about own-key membership in an empty `fields`; in the source an inherited name such as `toString` or `valueOf` still becomes `self.<name>` with `fields` empty (src/ast.js:93), as the Scope.ProcessAst line says.
- Scope.ProcessRewrites: compares the output with the field rewrite only on trees without functions inside; a nested function's output is stated through FunctionEntry (the hoisted declaration, then its processed children), not against a context-free reference, because the names it hoists depend on the names assigned before it.
- Scope.Free: own-key membership; the source never treats an inherited name (such as `constructor`) as free, because `name in declarations` already holds for it.
- Scope.ProcessContext: own-key membership; the source never records an assignment to an inherited name (`constructor = 1`) among the hoisted names, the model does.
- Common.SortContext.Visit: own-key marks; in the source `key in permanent` already holds for an inherited name, so such a node is skipped without being visited.
- Common.TopologicalSort: own-key marks; for a start named like an inherited key (`"toString"`) the source returns an empty list, while the contract puts the start last.
- Syntax.Literal: numbers are integers; the host's numeric literals are doubles, so fractional numbers (and regular-expression literals) are not represented.
- Structure.KeyText: a numeric key is rendered as an integer; the host renders any double, so a key such as `1.5` is not covered.
- Validators.Falsy: only the integer 0 is a false-like number; fractions such as `0.5` (true-like, hence SON0025 as a module type) and `NaN` are not represented.

## Findings

| source | as written | input that shows it | evidently intended | confidence | as-written member | corrected member |
|---|---|---|---|---|---|---|
| src/sonCore.js:520-529 | `areUnique` tests `item in values` on a fresh `{}`, which also sees the keys inherited from `Object.prototype` | `["toString"]` (or a parameter named `constructor`) is reported as a duplicate, so `fun(toString)` fails with SON0022; `extractConfig` (src/sonCore.js:201), `addToAlgos` (src/sonCore.js:608), `ensureUniquePlots` (src/sonCore.js:486), `ensureUniqueSections` (src/sonCore.js:497), `processAst` (src/ast.js:93, 127) and `topologicaSortCore` (src/common.js:45, 49) test names the same way: a section named "constructor" or a plot named "toString" is rejected | a list has duplicates only when an element occurs twice | not executed | Validators.AreUniqueAsWritten, Validators.PrototypeNameReportedAsDuplicate, Validators.PrototypeSectionAndPlotNamesRejectedAsWritten | Validators.AreUnique, Validators.EnsureUniqueSections, Validators.EnsureUniquePlots |
