# Solidity deep analyzer, modelled in Dafny

This project models the analysis core of `rust_solidity_deep_analyzer`, a static analyzer
for Solidity contracts. The Rust program parses each contract with `solang_parser` and
computes the following:

- per function: the state variables and struct fields it writes, the functions it calls,
  the events it emits, the errors it raises, its `unchecked` blocks, its storage-reference
  parameters and its calls through typed state variables into other contracts;
- per state variable: the modification chains, meaning every function that writes the
  variable plus every function that reaches such a writer through internal calls;
- writes through storage parameters, propagated to callers by a bounded fixed-point
  iteration;
- for upgradeable contracts, the fields of the storage struct, rewritten to their field
  names and exposed as virtual state variables;
- a taint analysis per function: sources, sinks, a variable flow graph, validations and
  parameter influence, combined into flows with a severity;
- cross-contract relations: for every external call whose target resolves, the state
  written by the target, the other functions that write it, and the full call chain;
- the queries behind the JSON reports and DOT graphs: the call graph, direct and
  indirect readers and writers, call chains to writers, interactions between contracts;
- the helpers of the file scanner (ignore patterns) and of the parser front end (line
  numbers, attribute defaults, type and parameter strings).

Every operation is a pure Dafny function or a method over immutable values. The syntax
tree is a closed datatype holding only the shapes the analyzer matches (module `Ast`).
Hash sets and hash maps become sequences in insertion order or Dafny sets and maps. Where
the Rust iteration order is unspecified, the model fixes one order, and the stated
properties hold for any order.

Modules, in dependency order:

- `Wrappers`, `Strings`, `Collections`: option type, the Rust `str` methods the analyzer
  uses, and duplicate-free sequences.
- `Ast`: the syntax tree fragment.
- `Records`: the analysis records (`FunctionInfo`, `StateVariable`, `ContractInfo`,
  `ExternalCall`, …).
- `Paths`, `Extract`, `Propagate`, `Chains`, `ExternalCalls`, `Upgradeable`, `Analyze`:
  `src/analyzer.rs`.
- `Coverage`: reference predicates for the walkers of `src/analyzer.rs`, saying which
  nodes each walker visits, and lemmas that what a walker collects at such a node is in
  its result.
- `TaintTypes`, `TaintScan`, `FlowGraph`, `Validations`, `Influence`, `Taint`:
  `src/dataflow.rs`.
- `Relations`: `src/relations.rs`.
- `Reports`: `src/json_reports.rs` and `src/graph_generator.rs`. The two files carry
  identical copies of `build_call_graph`, `find_writers`, `find_readers` and
  `find_call_chain_to_targets`. The model defines each of them once and cites both copies.
- `Scanner`: `src/scanner.rs`.
- `Parser`: `src/parser.rs`.

## Model

| member | source | states |
|---|---|---|
| Ast.DefinitionName | src/analyzer.rs:17-19 | A definition's name is its identifier, and "constructor" when it has none (also src/parser.rs:205-207). |
| Ast.DefinitionsByName | src/analyzer.rs:11-27 | A name maps to a body exactly when some function (or modifier) part defines it. When several parts share a name, the last one wins, as with repeated `HashMap::insert`. |
| Paths.ExtractBaseVariable | src/analyzer.rs:419-426 | Defined exactly for access chains. A variable gives its own name. A member access or subscript gives the base of the expression it applies to, so the result is the root identifier of the chain. |
| Paths.ExtractMemberPath | src/analyzer.rs:430-441 | Defined on the same chains as the base variable. The dotted path starts with the base variable, followed by the end of the path or a `.`. |
| Paths.PathRootAgree | src/analyzer.rs:419-441 | The two extractors agree on which expressions they accept. When the base has no `.`, it is the first dotted segment of the path. |
| Paths.ChainRoot | src/analyzer.rs:419-441 | Member accesses and subscripts applied to an access chain give an access chain with the same base variable. Each member access adds `.` and the field name to the path, and a subscript adds nothing. |
| Paths.ChainShape | src/analyzer.rs:419-441 | Every access chain is its base variable under a sequence of member accesses and subscripts. |
| Paths.ResolveToStateVar | src/analyzer.rs:444-462 | A state variable resolves to itself. Otherwise a storage alias resolves to its target, the storage-struct marker included. Any other name does not resolve. |
| Extract.BindAlias | src/analyzer.rs:308-332 | A storage-accessor call (name holding both "get" and "Storage") binds the local to the storage-struct marker. A non-call initializer rooted at a state variable binds the local to that variable. Every other alias is unchanged, and well-formed aliases stay well-formed. |
| Extract.MarkResolved | src/analyzer.rs:348-353 | Recording a write only adds names, adds no duplicates, and adds only state variables or alias targets. |
| Extract.ExprMods | src/analyzer.rs:340-416 | Scanning an expression only adds state variables or alias targets, without duplicates. |
| Extract.MergeScope | src/analyzer.rs:275-280 | After a block, outer aliases are kept. A block-local alias survives only when its target is a state variable and the outer scope did not bind the name. |
| Extract.StmtMods | src/analyzer.rs:259-337 | Scanning a statement keeps aliases well-formed. It only adds names, and each added name is a state variable or the storage-struct marker. It adds no duplicates. |
| Extract.BlockScopeMerge | src/analyzer.rs:269-281 | A block keeps every outer alias. Every alias it adds points at a state variable. |
| Extract.ParamNames | src/analyzer.rs:216-218 | Exactly the names of the storage parameters. |
| Extract.FindStateModifications | src/analyzer.rs:207-228 | The modified variables are state variables or the storage-struct marker. They hold no storage-parameter name and no duplicates. A function without a body modifies nothing. |
| Coverage.StateWriteRecorded | src/analyzer.rs:207-228 | A write (an assignment, `++`, `--`, `delete`, or a `push`, `pop` or `delete` call) whose target is rooted at a state variable other than a storage parameter is among the modified variables, wherever the walker reaches it. |
| Coverage.AssignmentRecorded | src/analyzer.rs:259-416 | `v = e;` inside a block, with `v` a state variable, makes the body a writer of `v`. |
| Extract.FieldWrite | src/analyzer.rs:612-639 | A field write is recorded only for an access chain. A storage-parameter base becomes `@param` followed by the rest of the path. Any other base is recorded exactly when it resolves. A base resolving to the storage struct is recorded under it. Any other resolved base is recorded as the resolved variable followed by the rest of the path. |
| Extract.StorageStructField | src/analyzer.rs:626-630 | A path with a `.` is recorded as `@storage_struct` followed by the path from its first `.` on. A path without one is recorded as `@storage_struct.` followed by the whole path. |
| Extract.StmtFields | src/analyzer.rs:465-602 | Scanning a statement for field writes keeps aliases well-formed. It only adds well-formed fields, without duplicates. |
| Extract.ExprFields | src/analyzer.rs:605-778 | Scanning an expression for field writes only adds well-formed fields, without duplicates. |
| Extract.FindFieldModifications | src/analyzer.rs:232-256 | Every recorded field is well-formed, and no field appears twice. |
| Coverage.FieldWriteDirect | src/analyzer.rs:612-639 | For a target rooted at a storage parameter or a state variable, the recorded field does not depend on the aliases in scope. |
| Coverage.FieldWriteRecorded | src/analyzer.rs:232-256 | A write whose target is rooted at a storage parameter or a state variable is among the field modifications, under its direct path. |
| Coverage.MemberAssignmentRecorded | src/analyzer.rs:465-778 | `s.a = e;` with `s` a state variable records the field `s.a`. |
| Extract.StmtCalls | src/analyzer.rs:1047-1089 | Collecting calls from a statement extends the collected names and adds no duplicates. |
| Extract.ExprCalls | src/analyzer.rs:1090-1109 | Collecting calls from an expression extends the collected names and adds no duplicates. |
| Extract.FindFunctionCalls | src/analyzer.rs:1036-1046 | The called names form a set: no duplicates. |
| Coverage.FunctionCallsExact | src/analyzer.rs:1036-1109 | A name is among the called functions exactly when the body calls it at a position the walker visits. |
| Extract.StmtEvents | src/analyzer.rs:1211-1246 | Only declared event names are added, without duplicates. |
| Extract.FindEventEmissions | src/analyzer.rs:1201-1210 | The emitted events are declared events, listed once each. |
| Coverage.EventEmissionsExact | src/analyzer.rs:1201-1246 | A name is among the emitted events exactly when it is declared and a reached `emit` statement emits it. |
| Extract.StmtErrors | src/analyzer.rs:1257-1301 | Collecting error names from a statement extends the collected names and adds no duplicates. |
| Extract.FindErrorUsage | src/analyzer.rs:1247-1256 | The used errors are listed once each. |
| Coverage.ErrorUsageExact | src/analyzer.rs:1247-1301 | A name is among the used errors exactly when a reached `revert` statement names it. |
| Extract.ErrorNameRoundTrip | src/analyzer.rs:1257-1301 | Splitting a revert's dotted error name on `.` gives back its path. |
| Extract.HasUnchecked | src/analyzer.rs:1316-1350 | An `unchecked` block is detected. A checked block holds one exactly when one of its statements does. An `if` holds one exactly when a branch does. A `while`, `do … while` or `for` holds one exactly when its body does. No other statement holds one. |
| Extract.AnyUnchecked | src/analyzer.rs:1316-1350 | A statement list holds an `unchecked` block exactly when one of its statements does. |
| Extract.HasUncheckedBlocks | src/analyzer.rs:1308-1315 | A function without a body has no `unchecked` block. |
| Extract.ExtractStorageParams | src/analyzer.rs:781-802 | Exactly the parameters declared `storage` with a name, each with its position, in increasing position order. |
| Propagate.StorageMapping | src/analyzer.rs:900-940 | Building the alias map only adds names, and every target is a state variable. |
| Coverage.StorageMappingSpec | src/analyzer.rs:900-940 | A name is in the alias map exactly when it was there before or some reached `T x = init;` binds it to a state-variable root. A name the statement does not bind keeps its target. |
| Coverage.StorageBindingLastWins | src/analyzer.rs:906-919 | `T storage x = sv…;` in a block maps `x` to `sv` when no later statement of the block binds `x` again. |
| Propagate.ResolveArg | src/analyzer.rs:1005-1017 | A resolved argument is a state variable or an alias target. A state variable passed directly resolves to itself. An unresolved argument is the empty string. |
| Propagate.ResolveArgs | src/analyzer.rs:1004-1018 | There is one resolved argument per argument, in order. |
| Propagate.ExtractFunctionCallsWithArgs | src/analyzer.rs:879-897 | Every non-empty argument of a recorded call site is a state variable. |
| Propagate.SitesArgsResolved | src/analyzer.rs:943-988 | A statement's call sites carry only state variables or empty arguments, given aliases into state variables. |
| Propagate.StmtCallsAgree | src/analyzer.rs:943-1033 | The call sites found with arguments name exactly the functions that the plain call scan finds (src/analyzer.rs:1047-1109). |
| Propagate.CallSitesMatchCalls | src/analyzer.rs:879-897 | Over a whole body, the callees of the call sites are exactly the function's called names. |
| Propagate.ParamModifications | src/analyzer.rs:843-860 | A variable is gained from a call site exactly when it is passed in the position of a callee storage parameter that the callee writes. |
| Propagate.SiteModifications | src/analyzer.rs:837-862 | A call site adds exactly the variables it passes to written storage parameters of a known callee. The result has no duplicates. |
| Propagate.NewModifications | src/analyzer.rs:835-863 | A function gains exactly the variables some call site justifies. The result has no duplicates. |
| Propagate.Step | src/analyzer.rs:827-872 | Processing one function only grows its modified variables, by exactly the justified ones. Other functions are untouched, and no duplicates arise. |
| Propagate.RoundFrom | src/analyzer.rs:827-873 | A round keeps every earlier write, and every gain is justified. A round that reports no change changed nothing. |
| Propagate.Iterate | src/analyzer.rs:818-874 | The iteration runs at most `MAX_ITERATIONS` (10) rounds. Writes only grow, and every gained write is justified by a call site. Stopping before the limit means a fixed point: one more round changes nothing. |
| Propagate.Propagate | src/analyzer.rs:806-875 | Propagation runs between 1 and 10 rounds, keeps every existing write, adds no duplicates, and adds only writes justified by a call site. Stopping before 10 rounds means a fixed point: one more round changes nothing. |
| Propagate.PropagateStorageParamModifications | src/analyzer.rs:806-875 | The propagator as written runs between 1 and 10 rounds and only grows the writes. Every gain is justified by a callee whose own filtered modification list names the parameter. |
| Propagate.PropagationNeverFires | src/analyzer.rs:848-853 | As written, the propagator never adds anything to functions as extraction leaves them: it stops after one round with the functions unchanged. |
| Propagate.ParamWriteExample | src/analyzer.rs:224-227 | A write through a storage parameter is dropped from the writer's own modified variables, yet the parameter is written in the body. |
| Propagate.ParamsWrittenInBody | src/analyzer.rs:848-853 | Exactly the storage parameters that the body writes when the parameters are scanned as roots. |
| Propagate.DirectParamWrites | src/analyzer.rs:812-815 | For each function with a body, the storage parameters its own body writes. |
| Propagate.PropagateCorrected | src/analyzer.rs:806-875 | The propagator as intended. Its writes only grow, gains are justified, and every direct gain is present at the end. |
| Propagate.CalleeParamWriteReachesCaller | src/analyzer.rs:837-871 | A caller that passes a state variable to a storage parameter the callee writes ends up writing that variable. |
| Chains.BuildCallGraph | src/analyzer.rs:1110-1115 | The graph has one key per function name. The value is the called names of the last function with that name. |
| Chains.FindCallers | src/analyzer.rs:1171-1198 | The caller search only grows the visited set and the chain. Every newly visited target has all its callers visited and in the chain. Every pushed caller calls some visited function, and every newly visited function is the target or has a chain of calls to it. |
| Chains.CallersFrom | src/analyzer.rs:1185-1197 | Scanning the functions from a position visits and records every later function that calls the target, and visits nothing without a chain of calls to the target. |
| Chains.BuildReverseCallChain | src/analyzer.rs:1150-1198 | Every chain entry is the name and visibility of one of the contract's functions, and a chain of calls leads from that function to the target. |
| Chains.ReverseChainExact | src/analyzer.rs:1150-1198 | For a call graph whose keys are the contract's functions, a function is in the reverse chain if and only if a chain of calls leads from it to the target. |
| Chains.ReverseChainComplete | src/analyzer.rs:1150-1198 | Every function with a call path to the target is in the reverse chain. |
| Chains.ChainFor | src/analyzer.rs:1139-1143 | A chain records its direct modifier's name and visibility. |
| Chains.WriterPositions | src/analyzer.rs:1126-1129 | Exactly the positions of the functions that write the variable, in order. |
| Chains.BuildModificationChains | src/analyzer.rs:1118-1147 | There is one chain per direct writer, in function order. |
| ExternalCalls.ExtractTypeName | src/analyzer.rs:1418-1424 | A named type gives its name, and an expression that is no type gives "unknown". |
| ExternalCalls.TypeExprToString | src/analyzer.rs:1426-1436 | Sized types render with their width. Payable addresses, mappings, dynamic bytes and other types give "unknown". |
| ExternalCalls.VarTypes | src/analyzer.rs:1360-1369 | Exactly the declared state variables, each mapped to the type of its last declaration. |
| ExternalCalls.ResolveContractFromType | src/analyzer.rs:1550-1573 | The interface form `I` + uppercase letter resolves to the implementing contract first. Otherwise the type resolves to a contract of the same name, or does not resolve. |
| ExternalCalls.InterfaceResolvesToImplementation | src/analyzer.rs:1556-1565 | `IToken` resolves to `Token` when that contract is known. |
| ExternalCalls.ContractNames | src/analyzer.rs:1372-1375 | Exactly the names of the known contracts. |
| ExternalCalls.FindContract | src/analyzer.rs:1602-1603 | The first contract of that name, or none when no contract has it. |
| ExternalCalls.CalleeMutability | src/analyzer.rs:1601-1609 | Without a contract of the target's name the result is "unknown". Otherwise it is the mutability of the first function of that name in the first such contract, or "unknown" when that contract has no such function. |
| ExternalCalls.CallThrough | src/analyzer.rs:1591-1627 | A call through a typed state variable is recorded exactly when the variable's type is known. The record carries the source, the type, the resolved contract, the mutability and the line. |
| ExternalCalls.ExprExternal | src/analyzer.rs:1575-1662 | Scanning an expression only appends records made in its own function context. |
| ExternalCalls.StmtExternal | src/analyzer.rs:1438-1548 | Scanning a statement only appends records made in its own function context. |
| ExternalCalls.SingleCallRecorded | src/analyzer.rs:1587-1627 | `v.f(literals)` as a statement yields exactly one record, for `v` and `f`. |
| ExternalCalls.ScanFunctions | src/analyzer.rs:1390-1406 | Every record comes from one of the scanned functions, with that function's name and line. |
| Coverage.StmtExternalRecords | src/analyzer.rs:1438-1662 | A call `v.f(…)` through a typed state variable, at a position the walker reaches, is recorded. |
| Coverage.ScanFunctionsRecords | src/analyzer.rs:1390-1406 | Such a call in a function's body is recorded under that function's name and line. |
| Coverage.ExternalCallDetected | src/analyzer.rs:1351-1416 | Such a call in a contract function's body is among the contract's external calls and among that function's own calls. |
| ExternalCalls.CallsOf | src/analyzer.rs:1623-1626 | Exactly the records whose source function has the given name. |
| ExternalCalls.DetectExternalCalls | src/analyzer.rs:1351-1416 | Every record names the scanned contract. A function with records gets exactly its own records. A function without records keeps its old list, and nothing else changes. |
| Upgradeable.ResolveField | src/analyzer.rs:1676-1683 | A field under `@storage_struct.` loses that prefix, and any other field is unchanged. |
| Upgradeable.BaseField | src/analyzer.rs:1695-1699 | The base of a field is its longest prefix without `[` or `.`. |
| Upgradeable.NewBases | src/analyzer.rs:1692-1702 | Exactly the non-empty field bases not yet listed. |
| Upgradeable.ResolveStates | src/analyzer.rs:1689-1704 | The marker is dropped and every other state is kept. Every non-empty field base is added, and nothing else is. |
| Upgradeable.ResolveStorageStructFields | src/analyzer.rs:1666-1706 | Without upgradeable storage nothing changes. With it, every function's fields and states are rewritten and nothing else changes. |
| Upgradeable.NoPrefixAfterRewrite | src/analyzer.rs:1676-1683 | After the rewrite, no field starts with `@storage_struct.`, given that `@` occurs only at the front. |
| Upgradeable.DoublePrefixSurvives | src/analyzer.rs:1679 | `replacen` strips one prefix only: a doubled prefix survives. |
| Upgradeable.ParamBaseListed | src/analyzer.rs:1692-1704 | A field write through a storage parameter makes `@param` a listed modified state. |
| Upgradeable.CreateVirtualStateVariables | src/analyzer.rs:1710-1747 | Without upgradeable storage nothing changes. With it, every storage-struct field is appended as a private, non-constant variable. Its type carries the " (upgradeable storage)" suffix, and it has the struct's line and its own modification chains. |
| Analyze.Bodies | src/analyzer.rs:11-27 | Every defined name maps to that definition's body. |
| Analyze.StateVarNames | src/analyzer.rs:30-33 | Exactly the names of the state variables. |
| Analyze.EventNames | src/analyzer.rs:36-39 | Exactly the names of the events. |
| Analyze.ErrorNames | src/analyzer.rs:41-44 | Exactly the names of the declared errors. |
| Analyze.AnalyzeFunction | src/analyzer.rs:46-77 | A function without a body is unchanged. Otherwise it gets its storage parameters, its filtered writes, its well-formed field writes, calls, declared events, errors and `unchecked` flag, and nothing else changes. |
| Coverage.AnalyzedFunctionComplete | src/analyzer.rs:46-77 | A function with a body gets every state write and field write rooted at a state variable or storage parameter. Its calls, events and errors are exactly those the walkers reach. |
| Analyze.AnalyzeFunctions | src/analyzer.rs:46-77 | Every function is analysed, in order. |
| Analyze.ModifierErrors | src/analyzer.rs:80-85 | Each modifier maps to the errors its body uses. |
| Analyze.ModifierOrder | src/analyzer.rs:82 | Exactly the modifier names, once each. |
| Analyze.LinkStateVariables | src/analyzer.rs:97-104 | Each state variable gets one chain per direct writer, and only those. |
| Analyze.NamesWhere | src/analyzer.rs:108-112 | Exactly the names of the functions that satisfy the test. |
| Analyze.LinkEvents | src/analyzer.rs:106-113 | An event is emitted in exactly the functions that list it. |
| Analyze.LinkModifiers | src/analyzer.rs:189-196 | A modifier is used in exactly the functions that list it. |
| Analyze.DeclaredErrorUsers | src/analyzer.rs:117-139 | A declared error is used in the functions that use it directly. It is also used in each modifier, named by a function, that raises it; the modifier's name is what gets recorded. |
| Analyze.InheritedErrorUsers | src/analyzer.rs:160-174 | An inherited error is used in the functions that use it, and in the modifiers that raise it. |
| Analyze.LinkErrors | src/analyzer.rs:117-139 | Each declared error gets its users and is otherwise unchanged. |
| Analyze.UsedErrors | src/analyzer.rs:147-154 | Exactly the errors used by some function or some modifier, once each. |
| Analyze.FunctionErrors | src/analyzer.rs:149-151 | Exactly the errors used by some function, once each. |
| Analyze.InheritedErrors | src/analyzer.rs:156-187 | Exactly the used but undeclared errors, each with line 0, the inherited flag and its users. |
| Analyze.LinkAllErrors | src/analyzer.rs:115-187 | Declared errors come first, with their users. Inherited errors are appended, and every undeclared error used by a function is among them. |
| Analyze.EventsLinked | src/analyzer.rs:106-113 | After the whole pass, an event's emitters are exactly the functions that emit it. |
| Analyze.ModifiersLinked | src/analyzer.rs:189-196 | After the whole pass, a modifier's users are exactly the functions that list it. |
| Analyze.ErrorsLinked | src/analyzer.rs:115-187 | After the whole pass, declared errors carry their users, inherited ones are appended, and none is missed. |
| Analyze.ChainsLinked | src/analyzer.rs:97-104 | After the whole pass, a state variable has a chain for a function exactly when that function writes it. |
| Analyze.Finish | src/analyzer.rs:198-202 | The upgradeable-storage steps leave events, modifiers, errors and function identities unchanged. Without upgradeable storage they change nothing. |
| Analyze.Linked | src/analyzer.rs:97-196 | Steps 4 to 7 install the given functions and change only the state variables, events, errors and modifiers. These keep their counts, and errors can only be added. |
| Analyze.LinkAndFinish | src/analyzer.rs:97-202 | Steps 4 to 9 keep the contract name, the storage struct, and each function's name and line. Its events, errors and modifiers are those of the given functions. |
| Analyze.PropagatedFunctions | src/analyzer.rs:29-92 | The per-function facts of steps 1 and 2 are kept, one function per declared function with the same name and line. Propagation (step 2c) only appends writes. |
| Analyze.AnalyzeContract | src/analyzer.rs:10-202 | The whole pass keeps the contract name, the storage struct, and the numbers of functions, events and modifiers. |
| Analyze.AnalyzeContractKeepsFacts | src/analyzer.rs:10-202 | After the whole pass, each function keeps its name and line. Its events, errors and modifiers are those that steps 1 and 2 found in its definition. |
| TaintScan.MsgSource | src/dataflow.rs:281-302 | `msg.sender`, `msg.value` and `msg.data` are the environment sources, and no other member is. |
| TaintScan.AddSourcesMembers | src/dataflow.rs:278-391 | Folding the source test over the visited expressions keeps earlier sources and adds no duplicates. A source is present exactly when it was there before or some visited expression yields it. |
| TaintScan.ScanExprSources | src/dataflow.rs:278-391 | The recursive source scan of an expression equals the source fold over the expression's nodes in visiting order. |
| TaintScan.ScanStmtSources | src/dataflow.rs:228-275 | The recursive source scan of a statement equals the source fold over the statement's expression nodes in visiting order. |
| TaintScan.ParamTokens | src/dataflow.rs:204-207 | A parameter's name is the last whitespace-separated token of its string. |
| TaintScan.ParamSourcesFrom | src/dataflow.rs:204-216 | There is one parameter source per parameter with a non-empty name, carrying its position in the full list. Nothing else is produced, and there are no duplicates. |
| TaintScan.IdentifyTaintSources | src/dataflow.rs:198-225 | The parameter sources come first, followed by the fold of the body's sources. |
| TaintScan.ParameterSources | src/dataflow.rs:202-216 | A parameter source exists exactly for an entry point (external or public) and a parameter whose last token is non-empty. |
| TaintScan.EnvironmentSources | src/dataflow.rs:281-302 | `msg.sender`, `msg.value` and `msg.data` are sources exactly when the body reads them. |
| TaintScan.CallReturnSources | src/dataflow.rs:308-321 | The return value of `v.g(…)` is a source exactly when the body makes such a call. |
| TaintScan.SourcesDistinct | src/dataflow.rs:198-225 | No source is listed twice, and no array-access source is ever produced. |
| TaintScan.ExprToString | src/dataflow.rs:608-619 | A variable renders as its name. Anything other than a variable, member access or subscript renders as "complex_expr". |
| TaintScan.SinksOfMembers | src/dataflow.rs:484-605 | A body-level sink is present exactly when some visited expression yields it. |
| TaintScan.ScanExprSinks | src/dataflow.rs:484-605 | The recursive sink scan of an expression appends the sinks of its nodes in visiting order. |
| TaintScan.ScanStmtSinks | src/dataflow.rs:434-481 | The recursive sink scan of a statement appends the sinks of its expression nodes in visiting order. |
| TaintScan.FieldSinks | src/dataflow.rs:406-415 | A field write is a sink exactly when its first dotted segment is a state variable. The sink is recorded under that variable with the full path. |
| TaintScan.IdentifyTaintSinks | src/dataflow.rs:394-431 | The recorded writes, field writes and external calls come first, followed by the body's sinks. |
| TaintScan.WriteSinks | src/dataflow.rs:398-415 | A state-write sink exists exactly for a recorded write, or for a field write rooted at a state variable. |
| TaintScan.CallSinks | src/dataflow.rs:418-423 | An external-call sink exists exactly for a recorded external call. |
| TaintScan.DelegateSinks | src/dataflow.rs:510-514 | A delegatecall sink exists exactly for a `.delegatecall(…)` in the body, named by its rendered target. |
| TaintScan.NoArrayIndexSinks | src/dataflow.rs:394-605 | No array-index sink is ever produced. |
| FlowGraph.AddEdge | src/dataflow.rs:843-856 | Inserting an edge adds exactly that edge. Successor lists stay duplicate-free, as the source's successor sets are. |
| FlowGraph.AddEdges | src/dataflow.rs:819-832 | Inserting edges from a list of sources to one target adds exactly those edges and keeps successor lists duplicate-free. |
| FlowGraph.ExprVariables | src/dataflow.rs:905-986 | The base variable of any variable, member or subscript chain is among the expression's variables. |
| FlowGraph.VariablesNamed | src/dataflow.rs:912-986 | Every collected variable names a node of the expression: either a plain variable, or a member access written `base.member` over a named base. |
| FlowGraph.ArgsNamed | src/dataflow.rs:936-941 | The same holds for every argument of a call. |
| FlowGraph.NestedMemberPath | src/dataflow.rs:917-928 | `s.x.y` yields `s`, `s.x` and `s.y`, and never the full path `s.x.y`. Only the base name is prefixed to each member. |
| FlowGraph.ExprFlows | src/dataflow.rs:837-887 | An expression adds exactly the edges of its assignment. A plain assignment adds one edge per right-hand variable into the written base variable. A compound assignment also adds the self edge. |
| FlowGraph.StmtFlows | src/dataflow.rs:790-835 | A statement adds exactly the edges of the assignments and initialised declarations reachable through blocks, both branches of an if, and loop bodies. |
| FlowGraph.StmtsFlows | src/dataflow.rs:796-803 | A block adds exactly the edges of its statements. |
| FlowGraph.BuildVariableFlowGraph | src/dataflow.rs:776-788 | The graph holds exactly the edges of the body, and none when there is no body. |
| FlowGraph.ReachesStep | src/dataflow.rs:1014-1029 | Reachability extends by one edge. |
| FlowGraph.ClosedHoldsReach | src/dataflow.rs:1014-1029 | A set closed under edges contains everything reachable from its members. |
| FlowGraph.TraceVariableInfluence | src/dataflow.rs:1004-1032 | The worklist search returns exactly the targets of edges leaving nodes reachable from the source, restricted to state variables or fields of state variables. |
| FlowGraph.InInfluenced | src/dataflow.rs:1020-1025 | A target is influenced exactly when it is state-like and an edge into it leaves a node reachable from the source. |
| FlowGraph.InfluencedReached | src/dataflow.rs:1020-1025 | Every influenced target is itself reachable from the source and is a node of the graph. |
| FlowGraph.BuildFlowPath | src/dataflow.rs:1035-1065 | The path starts at the source, ends at the sink and repeats no node. It is a real path of the graph exactly when the sink is reachable. Otherwise it is the two-element fallback `[source, sink]`. |
| FlowGraph.PathStep | src/dataflow.rs:1044-1060 | One step of the search keeps its invariant. Every queued path is a graph path from the source whose earlier nodes were all expanded, the sink is never expanded, and every successor of an expanded node is expanded or queued. The step either expands a new node or shrinks the stack. |
| FlowGraph.PathMissing | src/dataflow.rs:1063-1064 | When the search ends without meeting the sink, the sink is unreachable and differs from the source, so the fallback is not a path. |
| FlowGraph.FoundPath | src/dataflow.rs:1044-1047 | A path popped at the sink witnesses reachability and repeats no node. |
| Validations.ExprValidations | src/dataflow.rs:1114-1127 | A `require` or `assert` call with arguments yields the variables of its first argument. Every other expression yields nothing. |
| Validations.StmtValidationsAreGuards | src/dataflow.rs:1079-1111 | A variable is reported exactly when it occurs in a guard of the statement. A guard is the condition of a check call, or the condition of an if whose then-branch directly reverts. Blocks, both if branches and loop bodies are searched. |
| Validations.StmtsValidationsAreGuards | src/dataflow.rs:1081-1085 | The same holds for the statements of a block. |
| Validations.ValidationsAreGuards | src/dataflow.rs:1068-1076 | A missing body yields no validations. Otherwise a variable is reported exactly when it occurs in a guard. |
| Validations.ValidatedByName | src/dataflow.rs:705 | A source whose name is a validated variable counts as validated. |
| Validations.SubstringCountsAsValidation | src/dataflow.rs:705 | The test is containment: a source `a` counts as validated by a check on `amount`. |
| Validations.RequireValidates | src/dataflow.rs:1115-1124 | `require(p, …)` validates `p`. |
| Validations.NestedRevertNotSeen | src/dataflow.rs:1130-1139 | A revert nested inside an inner if is not seen by the revert test, so the outer condition is not a guard. |
| Taint.AssessSeverity | src/dataflow.rs:743-775 | A parameter flowing into a delegatecall or selfdestruct is critical. A parameter into an external call or value transfer is high. A parameter into a state write, or the sender into a delegatecall, is medium. Nothing is ever info. |
| Taint.ParameterMostSevere | src/dataflow.rs:743-775 | For a fixed sink, no source is rated above a parameter source. |
| Taint.BuildTaintFlows | src/dataflow.rs:663-725 | One flow is emitted per (source, sink) pair in source-then-sink order, exactly when the source is traced and influences the sink's variable. Each flow carries the search path, the validation flag and the assessed severity. |
| Taint.FlowsOfSource | src/dataflow.rs:679-722 | The flows of one source are, in sink order, exactly the sinks it taints. Each flow is justified by the body. |
| Taint.FlowToSink | src/dataflow.rs:692-720 | One sink gets a flow exactly when the traced source taints it, and that flow is justified by the body. |
| Taint.FlowIffTainted | src/dataflow.rs:679-703 | Take a listed source and a listed sink. A flow between them exists exactly when the source taints the sink. |
| Taint.HitsIffTainted | src/dataflow.rs:692-703 | Per source, the flows to the listed sinks are exactly those the source taints. Unlisted sinks get none. |
| Taint.NoHitsUntraced | src/dataflow.rs:680-686 | A source other than a parameter or `msg.sender`, `msg.value` or `msg.data` produces no flows. |
| Taint.FlowKeysSources | src/dataflow.rs:679-722 | Every flow starts at a listed source. |
| Taint.SinkHitsSource | src/dataflow.rs:692-720 | The flows produced for one source start at that source. |
| Taint.NamedParams | src/dataflow.rs:630-636 | Every parameter name is non-empty, and there are never more names than parameters. |
| Taint.NamedParamsSpec | src/dataflow.rs:630-636 | The parameter names are exactly the non-empty last tokens of the parameter strings. |
| Taint.AnalyzeParameterInfluence | src/dataflow.rs:622-660 | One influence is recorded per named parameter that reaches some state variable, in parameter order. |
| Taint.ExpectedInfluences | src/dataflow.rs:622-660 | A parameter index is recorded exactly when that named parameter reaches some state variable. Recorded indices are in range and strictly increasing. |
| Taint.InfluencesWellFormed | src/dataflow.rs:642-656 | Each influence names its function, indexes the parameter it records, and lists a non-empty set of influenced state variables. That set is exactly the parameter's trace. |
| Taint.StateVarNames | src/dataflow.rs:160-162 | The state-variable set is exactly the names of the contract's state variables. |
| Taint.Analyze | src/dataflow.rs:156-195 | Flows and influences are collected function by function, for the functions with a body. Every flow is justified by its function's body, and the unvalidated-input list stays empty. |
| Influence.AsWrittenMentions | src/dataflow.rs:1303-1332 | If the variable test finds a variable, the variable occurs in the expression. |
| Influence.ContainsVarMentions | src/dataflow.rs:1303-1332 | The same holds for either variable test. |
| Influence.Priority | src/dataflow.rs:1176-1188 | The chosen kind is one whose flag is raised, and no raised kind outranks it: index access, then conditional, then arithmetic, then direct. |
| Influence.AbsentParamIsDirect | src/dataflow.rs:1156-1188 | A parameter that does not occur in the body is classified as direct. |
| Influence.InfluenceMonotone | src/dataflow.rs:1156-1361 | Influencing more state variables never lowers the classification. |
| Influence.ModifiesMonotone | src/dataflow.rs:1336-1361 | A branch that modifies a smaller influenced set also modifies a larger one. |
| Influence.ModuloNotArithmetic | src/dataflow.rs:1303-1332 | As written, `total = amount % 7` is classified direct, because the variable test does not look inside `%`. With operands looked through, it is arithmetic. |
| Influence.LessEqualNotConditional | src/dataflow.rs:1303-1332 | As written, `if (amount <= cap) total = 1;` is classified direct, because the variable test does not look inside `<=`. With operands looked through, it is conditional. |
| Influence.ArithmeticDetected | src/dataflow.rs:1234-1301 | With operands looked through, assigning to an influenced state variable an arithmetic expression over the parameter is classified at least arithmetic. |
| Influence.ConditionalDetected | src/dataflow.rs:1192-1232 | With operands looked through, an if whose condition mentions the parameter and whose then-branch modifies an influenced variable is classified at least conditional. |
| Relations.OtherModifiers | src/relations.rs:37-48 | The other modifiers are exactly the functions, other than the called one, that write one of the modified variables. They are listed without duplicates. |
| Relations.OthersFrom | src/relations.rs:80-91 | Folding over the remaining variables adds exactly their other writers to what was collected, and keeps the list duplicate-free and free of the excluded name. |
| Relations.LastContract | src/relations.rs:18-21 | The name lookup finds the last contract with that name, or reports that none has it. The last one wins because later map inserts overwrite earlier ones. |
| Relations.ResolveCall | src/relations.rs:23-33 | A call resolves to an index of the named contract and of the called function in it. It fails exactly when the call names no contract, the contract is unknown, or the function is missing. |
| Relations.ResolvedCallsIff | src/relations.rs:23-65 | The calls kept are exactly the listed calls that resolve. |
| Relations.RelationFor | src/relations.rs:33-62 | A resolved call's relation records the call, the target function's writes, its other modifiers and its full chain. |
| Relations.BuildRelationships | src/relations.rs:11-68 | There is one relation per resolving call, in call order, each satisfying the relation contract. |
| Relations.RelationIffResolved | src/relations.rs:23-65 | A listed call has a relation exactly when it resolves. |
| Relations.CollectAllModifications | src/relations.rs:232-256 | The collected writes extend the initial ones without introducing duplicates. Each added name is written by some function of the contract. The writes of each newly visited function are included. Every callee of a newly visited function is visited too, so the visit is closed under calls. |
| Relations.ReachableWritesCollected | src/relations.rs:232-256 | Take a call path from the start whose functions were not visited before. Every function on it is visited, and its writes are among the collected ones. |
| Relations.CollectCalls | src/relations.rs:238-255 | The loop over callees keeps the same guarantees for the callees from the current index on. |
| Relations.CollectNew | src/relations.rs:239-254 | For a callee not seen before, the writes only grow and gain no repeats. Each added write belongs to some function of the contract, and the writes of every newly seen name are included. Every callee from this index on ends up seen. |
| Relations.CollectFound | src/relations.rs:244-254 | A callee the contract defines adds its own writes without repeats, then those of its callees. All the guarantees carry over to the result. |
| Relations.GrowsTrans | src/relations.rs:112-229 | The growth relation between chain states is transitive. |
| Relations.ChainRec | src/relations.rs:112-229 | Expanding a function only extends the chain and the visited set. A new step's key was not visited before, and every newly visited key is the key of a resolved new step, so no resolved key gets two steps. Every defined callee of the function ends up visited. Every new step is at least as deep as the current level, and an unresolved step records no writes. Every new resolved step records a function of one of the contracts: its key, the writes collected from that function, and exactly the other functions of that contract writing one of them. |
| Relations.InternalSteps | src/relations.rs:126-162 | Internal calls grow the chain state in the same way, every call the contract defines ends up visited, and every new resolved step records the function it expands. |
| Relations.InternalNew | src/relations.rs:127-160 | An unseen callee the contract defines grows the chain state in the same way, and it and every later defined callee end up visited. The first new step is the callee's: its key is `Contract::callee`, it lists the writes collected from the callee, and its other modifiers are the other functions of the contract writing one of them. |
| Relations.ExternalSteps | src/relations.rs:165-228 | External calls grow the chain state in the same way. Unresolved calls still get a step with no writes, and every new resolved step records the function it expands. |
| Relations.ExternalNew | src/relations.rs:177-228 | An external call with an unseen key grows the chain state. When the target does not resolve, the step records no writes and no other modifiers. A resolved step records the target function. |
| Relations.ExternalResolved | src/relations.rs:186-217 | For a resolved external call, the chain and the seen keys only grow. Each new step's key was unseen before, each newly seen key belongs to a resolved new step, and every new step is well formed. The first new step is the target's: its key is the call's key, it lists the writes collected from the target function in the target contract, and its other modifiers are the other functions of that contract writing one of them. |
| Relations.Expand | src/relations.rs:134-160 | Expanding an unvisited key marks it visited and appends exactly one step. That step's key is `Contract::function`, it lists the writes collected from the function (its own writes first), and its other modifiers are the other functions of the contract that write one of them. |
| Relations.FullChainState | src/relations.rs:71-109 | No step has the root `Contract::function` key, and no resolved key has two steps. Every visited key other than the root is the key of a resolved step, and every defined callee of the root is visited. Every step is at depth one or more. Every resolved step records a function of the root's contract or of another contract: its key, its collected writes and its other modifiers. |
| Relations.BuildFullChain | src/relations.rs:71-229 | No step of the full chain is the root function, no resolved key has two steps, and every step is at depth one or more. Every callee of the root that the contract defines, other than the root itself, has a resolved step. Every resolved step records a function of one of the contracts: its key, the writes collected from it, and exactly the other functions writing one of them. |
| Relations.RecordedStepSound | src/relations.rs:137-148 | A step recorded for a function lists that function's own writes, lists otherwise only variables some function of the contract writes, and its other modifiers are exactly the functions of the contract, other than the expanded one, that write a listed variable. |
| Relations.RecordedStepComplete | src/relations.rs:137-143 | A step recorded for a function lists the writes of every function reachable from it by a call path that avoids the keys already seen. |
| Relations.StepFromGrows | src/relations.rs:95-143 | A step recorded against some set of seen keys stays recorded against any larger set. |
| Relations.RecordsTrans | src/relations.rs:112-229 | The property that every new resolved step records its function is transitive across chain states. |
| Relations.StepContents | src/relations.rs:137-203 | A resolved step recorded from a list of contracts names one of their functions by key, lists that function's own writes, lists otherwise only writes some function of that contract makes, and has as other modifiers exactly the functions of that contract writing a listed variable. |
| Relations.FullChainStepContents | src/relations.rs:71-229 | Every resolved step of the full chain names a function of the root's contract or of another contract by key, with that function's writes among those listed, nothing listed that no function of the contract writes, and exactly the other writers of the listed variables as other modifiers. |
| Relations.EntriesForNonEmpty | src/relations.rs:262-283 | A key with entry points was produced by some relation. |
| Relations.DistinctKeys | src/relations.rs:262-283 | Each (contract, variable) key appears once, and every produced key is present. |
| Relations.MultiEntry | src/relations.rs:286-288 | Only keys with more than one entry point are kept, with all their entry points in order. |
| Relations.MultiEntryComplete | src/relations.rs:286-288 | Every key with more than one entry point is kept. |
| Relations.MultiEntryDistinct | src/relations.rs:286-288 | No key is kept twice. |
| Relations.InsertByCount | src/relations.rs:300-302 | Inserting into a list sorted by descending count keeps it sorted and adds exactly the new group. |
| Relations.SortByCount | src/relations.rs:300-302 | The sort result is a permutation of its input, ordered by descending number of entry points. |
| Relations.StateModificationSummary | src/relations.rs:259-314 | The summary lists exactly the (contract, variable) keys written through more than one entry point, each once with all its entry points. The list is ordered by descending count. |
| Relations.FormatFunctionWithBackticks | src/relations.rs:317-333 | Without a parenthesis, a visibility word or a ` (` separator, the whole trimmed string is wrapped in backticks. |
| Relations.FormatInternalLabel | src/relations.rs:319-328 | A caption `name (vis)` with a visibility word becomes the backticked name followed by `(vis)`. |
| Reports.ReportCallGraph | src/json_reports.rs:161-169 | Every node of the call graph has at least one callee. |
| Reports.ReportCallGraphSpec | src/json_reports.rs:161-169 | A function name is a node exactly when some function of that name calls something. Its callees are those of the last such function, because later inserts overwrite earlier ones. |
| Reports.FirstTarget | src/json_reports.rs:244-249 | The scan stops at the first callee that is a target, or runs to the end when none is. |
| Reports.FindCallChainToTargets | src/json_reports.rs:229-259 | A returned chain is non-empty, ends at a target and is a call path from the start. None is returned exactly when no target is reachable by a call from the start. |
| Reports.SearchFound | src/json_reports.rs:245-249 | Meeting a target among the callees yields a valid chain and witnesses reachability. |
| Reports.SearchMissing | src/json_reports.rs:237-258 | When the worklist empties, no target is reachable. |
| Reports.StartNotATarget | src/json_reports.rs:237-249 | The start is matched against the targets only as a callee, so a function reaches itself only through a call. |
| Reports.DirectAccessors | src/json_reports.rs:180-186 | The direct accessors are exactly the functions that access the variable. A writer writes it or a field under `v.`, and a reader reads it. |
| Reports.IndirectAccessors | src/json_reports.rs:188-195 | Indirect accessors are listed in function order. They are exactly the functions that are not direct accessors but reach one, each with a valid call chain. |
| Reports.FindAccessors | src/json_reports.rs:172-226 | The direct and indirect accessors of a variable satisfy both of the above. |
| Reports.IndirectIff | src/json_reports.rs:188-195 | A name is an indirect accessor exactly when some function has that name, it is not direct, and a direct accessor is reachable from it by calls. |
| Reports.GetFuncVisibility | src/json_reports.rs:262-268 | The visibility of the first function with the name, or "unknown" when there is none. |
| Reports.AccessFor | src/json_reports.rs:90-134 | Every entry carries the visibility of its function. The direct entries are exactly the accessors, and each call-chain entry has a valid chain. |
| Reports.DirectEntries | src/json_reports.rs:91-99 | One entry per direct accessor, in order, with its visibility. |
| Reports.ChainEntries | src/json_reports.rs:102-111 | One entry per indirect accessor, keeping its chain, with its visibility. |
| Reports.VariableEntry | src/json_reports.rs:75-151 | A variable's entry copies its type, visibility and flags. Its direct readers and writers are exactly the accessing functions. No function is listed both directly and through a call chain. |
| Reports.CalleeEntry | src/json_reports.rs:25-34 | An internal call entry names the callee and lists its parameters. Its returns field is null exactly when the callee returns nothing. |
| Reports.InternalCallsSpec | src/json_reports.rs:20-37 | Every internal call entry is the entry of a listed callee that the contract defines. Every defined callee gets an entry. |
| Reports.InternalCalls | src/json_reports.rs:20-37 | There are never more internal call entries than listed callees. |
| Reports.InternalCallsConcat | src/json_reports.rs:20-37 | The entries are a filter-map over the call list in call order: one listed name gives its first definition's entry if the contract defines it and nothing otherwise, and the entries of a concatenation are the entries of its parts. |
| Reports.ExternalEntry | src/json_reports.rs:40-49 | An external call entry names the contract, or "unknown", along with the variable and the function. It is a value transfer exactly when the call is payable. |
| Reports.FunctionCalls | src/json_reports.rs:16-55 | A function's entry lists one external entry per external call, in order, and internal entries only for its own callees. |
| Reports.CallsOfSpec | src/json_reports.rs:13-58 | The report has a key for exactly the functions of the contract. A repeated name keeps the entry of its last function. |
| Reports.ContractCalls | src/json_reports.rs:13-58 | The report has a key for exactly the functions of the contract. |
| Reports.FirstImplementing | src/graph_generator.rs:270-277 | The search finds the first contract whose lower-cased name contains the interface name, or reports that none does. |
| Reports.InteractionTarget | src/graph_generator.rs:261-280 | A resolved call targets its contract. Otherwise the target is the first contract whose lower-cased name contains the interface name, stripped of leading `I`s and lower-cased, or the interface type itself when none does. |
| Reports.GroupInteractions | src/graph_generator.rs:282-287 | There is an interaction key for exactly the (caller, target) pairs of distinct contracts with some call. Each key lists its called functions in order. |
| Reports.Interactions | src/graph_generator.rs:255-290 | Each interaction joins two different contracts and lists at least one function, in call order. |
| Reports.ResolvedCallRecorded | src/graph_generator.rs:257-287 | Every resolved call to another contract is recorded as an interaction. |
| Reports.CalledUnderHas | src/graph_generator.rs:284-286 | A recorded call's function is listed under its key. |
| Reports.InAllCalls | src/graph_generator.rs:257-260 | Every external call of every function is visited. |
| Parser.LineNumber | src/parser.rs:242-250 | A location inside a file gets the 1-based number of the line it starts on, which is the number of line-feed-separated pieces before it. Only a location without a file position gets 0. |
| Parser.LineNumberMonotone | src/parser.rs:242-250 | A later offset is never on an earlier line. |
| Parser.LineNumberAfterLines | src/parser.rs:242-250 | The first character after `n` lines joined by line feeds is on line `n`. |
| Parser.ParseVisibility | src/parser.rs:311-343 | Reading a visibility word back gives a visibility with exactly that word. |
| Parser.VisibilityNameRoundTrip | src/parser.rs:316-319 | Each visibility is recovered from its word, so the four words are distinct. |
| Parser.FuncVisibilityToString | src/parser.rs:328-343 | A function's visibility is the word of its first visibility attribute, or "public" when it has none. The result is always a visibility word. |
| Parser.VisibilityToString | src/parser.rs:311-326 | A state variable's visibility is the word of its first visibility attribute, or "internal" when it has none. The result is always a visibility word. |
| Parser.MutabilityName | src/parser.rs:349-354 | The word is "view" exactly for `view` and for its old spelling `constant`. |
| Parser.FuncMutabilityToString | src/parser.rs:345-360 | A function's mutability is the word of its first mutability attribute, or "nonpayable" when it has none. The result is one of pure, view, payable or nonpayable. |
| Parser.ConstantMeansView | src/parser.rs:353 | A first mutability attribute of `constant` or `view` yields "view", whatever follows it. |
| Parser.ParseElementary | src/parser.rs:271-288 | Reading an elementary type keyword back gives an elementary type. |
| Parser.ElementaryRoundTrip | src/parser.rs:271-288 | Every elementary type, sized ones included, is recovered from its rendering, so no two elementary types render alike. |
| Parser.SizedRoundTrip | src/parser.rs:277-279 | The digits after `uint`, `int` or `bytes` give the size back, and the three prefixes are not confused. |
| Parser.ElementText | src/parser.rs:257-259 | The element text, followed by `[]`, is the array text. |
| Parser.ArrayRoundTrip | src/parser.rs:257-259 | The element type's text is recovered from a dynamic array type's text. |
| Parser.MappingKeyRoundTrip | src/parser.rs:280-284 | The key type of a mapping with an elementary key is recovered from the mapping's text, whatever the value type. |
| Parser.MappingKeyOfText | src/parser.rs:281-283 | A key text without `=` is what stands between `mapping(` and ` =>`. |
| Parser.ParamToString | src/parser.rs:298-309 | A parameter's text is its type's text. A space and the name follow when the name is present and non-empty. |
| Parser.ParamNameRecovered | src/parser.rs:298-309 | For a named parameter, the last whitespace-separated token of its text is the name, even when the type text holds a space. |
| Parser.ExprToString | src/parser.rs:290-296 | An array length renders as a number literal's digits or a constant's name, and as nothing for any other expression. |
| Parser.ParamStrings | src/parser.rs:178-182 | There is one string per parameter slot, in order. A missing parameter gives the empty string. |
| Scanner.MatchesPattern | src/scanner.rs:50-77 | A pattern without exactly one `*` matches exactly the paths that contain it. |
| Scanner.SingleStar | src/scanner.rs:52-71 | The one-star rule decides exactly when the pattern holds a `*` and splits into two parts. |
| Scanner.TrailingWildcard | src/scanner.rs:59-62 | `prefix*` matches exactly the paths that contain the prefix. |
| Scanner.LeadingWildcard | src/scanner.rs:64-67 | `*suffix` matches exactly the paths that end with the suffix. |
| Scanner.InnerWildcard | src/scanner.rs:69-70 | `prefix*suffix` matches exactly the paths that contain the prefix and end with the suffix. |
| Scanner.TwoStarsLiteral | src/scanner.rs:75 | A pattern with two stars is matched as a literal substring, stars included. |
| Scanner.ShouldExclude | src/scanner.rs:38-49 | A path is excluded exactly when some pattern matches it. |
| Scanner.LoadExclusions | src/scanner.rs:17-37 | The patterns are exactly the trimmed lines that are neither blank nor comments. None of them starts or ends with whitespace. |
| Scanner.TrimAll | src/scanner.rs:29 | Each line is trimmed in place, and a non-empty result has no surrounding whitespace. |
| Scanner.KeepPatternsSpec | src/scanner.rs:30 | A line is kept exactly when it names a pattern. |

## Left out

- Terminal, Markdown, DOT and JSON rendering, serde serialisation, `save_json`, `generate_relations_markdown`, the DOT emission of `generate_function_call_graph`, `generate_state_variable_graph` and `generate_contract_interaction_graph`, and every `fs::write`. These are presentation and I/O. The model stops at the values these functions print.
- `generate_cross_contract_state_dependencies` (src/graph_generator.rs:404-496) is DOT rendering over the same reader and writer queries that `Reports.FindAccessors` models.
- The interface map built in src/graph_generator.rs:231-252 is never read afterwards, so it has no effect on the output and is not modelled.
- Directory walking and file reading in src/scanner.rs (WalkDir, the `.analyzerignore` lookup). `Scanner.LoadExclusions` takes the file's content as a parameter. A missing or unreadable file gives the empty list in the source, which is `LoadExclusions("")`.
- Parsing with `solang_parser` and its parse-error path. The syntax tree is a closed datatype holding the node shapes the analyzer matches, plus an opaque case for everything else.
- Iteration order of hash maps and hash sets. Where the source collects one into a list, the model fixes insertion order, or uses a Dafny set. The stated properties do not depend on the order.
- `TaintSeverity::emoji`, DOT colours and the tree prefixes of chain captions, which are cosmetic.
- `Parser.LineNumber`: offsets count characters, while the source slices the content by byte offset. For non-ASCII content, the source's offsets are byte offsets.
- `Parser.TypeToString` renders unmatched expression shapes as the empty string, and only `OtherExpr` keeps a debug text. The source prints the parser's `Debug` form, which is not part of this model.
- Whitespace, lower-casing and trimming are ASCII only. Rust's `trim`, `split_whitespace` and `to_lowercase` also handle Unicode.
- The record builders for structs, enums, events, errors and modifiers in src/parser.rs, and the `constant`/`immutable` attributes of state variables, except as carried in the records. The parser's variable attribute datatype holds only visibility.
- src/models.rs is not part of this model. The records are derived from the fields the analysis reads and writes.
- `Reports.FindCallChainToTargets` and `FlowGraph.BuildFlowPath` search depth-first, as the source does despite its comments. No shortest-path property is claimed.
- The json_reports.rs and graph_generator.rs copies of `build_call_graph`, `find_writers`, `find_readers` and `find_call_chain_to_targets` are textually identical. They are modelled once, in `Reports`, so their equivalence holds by construction rather than by a lemma.
- Analyze.PropagatedFunctions: runs the corrected propagator `Propagate.PropagateCorrected`, not the one at src/analyzer.rs:88-92 as written, following the first row of "## Findings". As written, that step adds nothing (`Propagate.PropagationNeverFires`). So the whole pass (`Analyze.AnalyzeContract`) can list more writes for a caller of a function that writes a storage parameter than the program does.
- Taint.AnalyzeParameterInfluence: classifies influence with the corrected operand test `Influence.AnyOperand`, following the second row of "## Findings". As written (`Influence.AsWritten`), `x % 7` and `x ** 2` are Direct rather than Arithmetic, and a `<=` or `>=` condition is Direct rather than Conditional.
- Taint.ExpectedInfluences: uses the same corrected operand test as `Taint.AnalyzeParameterInfluence`.
- Taint.Analyze: its influences use the same corrected operand test. Its flows do not depend on that test.
- ExternalCalls.IsUpper: the interface test `I` + uppercase letter knows only the ASCII letters A to Z. `Strings.ToLower` likewise lower-cases only ASCII letters. Rust's `is_uppercase` and `to_lowercase` also cover Unicode letters.
- Analyze.AnalyzeFunction: completeness of its writes (`Coverage.AnalyzedFunctionComplete`) is stated only for targets rooted at a state variable or a storage parameter. A write through a local storage alias is covered by the soundness contracts alone, because the alias in scope depends on the statements before the write.
- Coverage.FieldWriteRecorded: covers the same directly rooted targets. A field write through a local alias is pinned per write by `Extract.FieldWrite` but has no whole-body completeness lemma. The storage-struct marker is left out as a root, since it is never a Solidity identifier.

## Findings

| source | as written | input that shows it | evidently intended | confidence | as-written member | corrected member |
|---|---|---|---|---|---|---|
| src/analyzer.rs:848-853 | A storage-parameter write is detected by looking for the parameter's name in the callee's `modifies_states`. That list never contains parameter names, because they are filtered out at src/analyzer.rs:225-227. | `function g(S storage s) internal { s.x = 1; }` called as `g(data)`: the caller does not gain `data`. | The caller gains the state variable it passed when the callee's body writes the storage parameter. | medium, not executed | Propagate.PropagationNeverFires | Propagate.CalleeParamWriteReachesCaller |
| src/dataflow.rs:1303-1332 | The variable test looks through `+ - * /`, comparisons `== != < >`, `&& \|\|`, `!`, unary `-` and parentheses only. So the `%`/`**` arm of the arithmetic check and `<=`/`>=` conditions never see the parameter. | `total = amount % 7;` is classified Direct. `if (amount <= cap) { total = 1; }` is classified Direct. | The operand test covers every operator, so these are Arithmetic and Conditional. | medium, not executed | Influence.ModuloNotArithmetic | Influence.ArithmeticDetected |
