/** The analysis pass over one contract (src/analyzer.rs): per-function facts read from
    the bodies, the storage-parameter propagation, the call graph and modification
    chains, the reverse links of events, errors and modifiers, and the rewrite for
    upgradeable storage. */
module Analyze {
  import opened Wrappers
  import opened Ast
  import opened Paths
  import opened Collections
  import opened Records
  import opened Extract
  import opened Propagate
  import opened Chains
  import opened Upgradeable

  // ---------------------------------------------------------------------------
  // Step 1 and 2: definitions and per-function facts.

  /** Statement bodies of the function definitions, by name. */
  function Bodies(defs: map<string, FunctionDefinition>): (r: map<string, Option<Stmt>>)
    ensures r.Keys == defs.Keys
    ensures forall n :: n in r ==> r[n] == defs[n].fnBody
  {
    map n | n in defs :: defs[n].fnBody
  }

  /** Names of the state variables of a contract. */
  function StateVarNames(vs: seq<StateVariable>): (r: set<string>)
    ensures forall x :: x in r <==> exists i :: 0 <= i < |vs| && vs[i].name == x
  {
    set i | 0 <= i < |vs| :: vs[i].name
  }

  function EventNames(es: seq<EventDef>): (r: set<string>)
    ensures forall x :: x in r <==> exists i :: 0 <= i < |es| && es[i].name == x
  {
    set i | 0 <= i < |es| :: es[i].name
  }

  function ErrorNames(es: seq<ErrorDef>): (r: set<string>)
    ensures forall x :: x in r <==> exists i :: 0 <= i < |es| && es[i].name == x
  {
    set i | 0 <= i < |es| :: es[i].name
  }

  /** A function with a definition of its name gets its storage parameters, writes,
      field writes, calls, events, errors and unchecked flag from that definition's body;
      one without keeps what the parser gave it. Only declared events are kept, and the
      write list never names a storage parameter. */
  function AnalyzeFunction(f: FunctionInfo, defs: map<string, FunctionDefinition>, stateVars: set<string>,
                           events: set<string>): (r: FunctionInfo)
    ensures f.name !in defs ==> r == f
    ensures r == f.(storageParams := r.storageParams, modifiesStates := r.modifiesStates,
                    modifiesStateFields := r.modifiesStateFields, callsFunctions := r.callsFunctions,
                    emitsEvents := r.emitsEvents, usesErrors := r.usesErrors, hasUnchecked := r.hasUnchecked)
    ensures f.name in defs ==>
              && r.storageParams == ExtractStorageParams(defs[f.name].params)
              && (forall x :: x in r.modifiesStates ==> x !in ParamNames(r.storageParams))
              && (forall x :: x in r.modifiesStates ==> x in stateVars || x == StorageStructMarker)
              && NoDups(r.modifiesStates)
              && (forall x :: x in r.modifiesStateFields ==> WellFormedField(x, stateVars))
              && r.callsFunctions == FindFunctionCalls(defs[f.name].fnBody)
              && (forall x :: x in r.emitsEvents ==> x in events)
              && r.usesErrors == FindErrorUsage(defs[f.name].fnBody)
              && r.hasUnchecked == HasUncheckedBlocks(defs[f.name].fnBody)
  {
    if f.name !in defs then f
    else
      var d := defs[f.name];
      var sps := ExtractStorageParams(d.params);
      f.(storageParams := sps,
         modifiesStates := FindStateModifications(d.fnBody, stateVars, sps),
         modifiesStateFields := FindFieldModifications(d.fnBody, stateVars, sps),
         callsFunctions := FindFunctionCalls(d.fnBody),
         emitsEvents := FindEventEmissions(d.fnBody, events),
         usesErrors := FindErrorUsage(d.fnBody),
         hasUnchecked := HasUncheckedBlocks(d.fnBody))
  }

  function AnalyzeFunctions(fns: seq<FunctionInfo>, defs: map<string, FunctionDefinition>, stateVars: set<string>,
                            events: set<string>): (r: seq<FunctionInfo>)
    ensures |r| == |fns|
    ensures forall i :: 0 <= i < |fns| ==> r[i] == AnalyzeFunction(fns[i], defs, stateVars, events)
  {
    seq(|fns|, i requires 0 <= i < |fns| => AnalyzeFunction(fns[i], defs, stateVars, events))
  }

  /** Errors each modifier reverts with, by modifier name. */
  function ModifierErrors(mods: map<string, FunctionDefinition>): (r: map<string, seq<string>>)
    ensures r.Keys == mods.Keys
    ensures forall m :: m in r ==> r[m] == FindErrorUsage(mods[m].fnBody) && NoDups(r[m])
  {
    map m | m in mods :: FindErrorUsage(mods[m].fnBody)
  }

  /** Names of the modifier definitions in definition order, each once. */
  function ModifierOrder(parts: seq<ContractPart>): (r: seq<string>)
    ensures NoDups(r)
    ensures forall n :: n in r <==> exists i: nat :: DefinesAt(parts, i, true, n)
  {
    if |parts| == 0 then []
    else
      var k := |parts| - 1;
      var init := parts[..k];
      var m := ModifierOrder(init);
      InitDefines(parts, init, true);
      if parts[k].FunctionPart? && parts[k].def.isModifier then
        var n0 := DefinitionName(parts[k].def);
        assert DefinesAt(parts, k, true, n0);
        Insert(m, n0)
      else
        assert forall n :: !DefinesAt(parts, k, true, n);
        m
  }

  // ---------------------------------------------------------------------------
  // Steps 4 to 7: chains and reverse links.

  /** Every state variable gets one chain per function that writes it directly. */
  function LinkStateVariables(vs: seq<StateVariable>, fns: seq<FunctionInfo>, cg: CallGraph): (r: seq<StateVariable>)
    ensures |r| == |vs|
    ensures forall i :: 0 <= i < |vs| ==> r[i] == vs[i].(modificationChains := r[i].modificationChains)
    ensures forall i, c :: 0 <= i < |vs| && c in r[i].modificationChains ==>
              exists j :: 0 <= j < |fns| && c.directModifier == fns[j].name && vs[i].name in fns[j].modifiesStates
    ensures forall i, j :: 0 <= i < |vs| && 0 <= j < |fns| && vs[i].name in fns[j].modifiesStates ==>
              ChainFor(fns[j], fns, cg) in r[i].modificationChains
  {
    var r := seq(|vs|, i requires 0 <= i < |vs| =>
      vs[i].(modificationChains := BuildModificationChains(vs[i].name, fns, cg)));
    forall i, c | 0 <= i < |vs| && c in r[i].modificationChains
      ensures exists j :: 0 <= j < |fns| && c.directModifier == fns[j].name && vs[i].name in fns[j].modifiesStates
    {
      var ws := WriterPositions(fns, vs[i].name, 0);
      var k :| 0 <= k < |r[i].modificationChains| && r[i].modificationChains[k] == c;
      assert c == ChainFor(fns[ws[k]], fns, cg);
    }
    forall i, j | 0 <= i < |vs| && 0 <= j < |fns| && vs[i].name in fns[j].modifiesStates
      ensures ChainFor(fns[j], fns, cg) in r[i].modificationChains
    {
      var ws := WriterPositions(fns, vs[i].name, 0);
      var k :| 0 <= k < |ws| && ws[k] == j;
      assert r[i].modificationChains[k] == ChainFor(fns[j], fns, cg);
    }
    r
  }

  /** Names of the functions, in order, that satisfy `p`. */
  function NamesWhere(fns: seq<FunctionInfo>, p: FunctionInfo -> bool): (r: seq<string>)
    ensures |r| <= |fns|
    ensures forall x :: x in r <==> exists j :: 0 <= j < |fns| && p(fns[j]) && fns[j].name == x
  {
    if |fns| == 0 then []
    else
      var rest := NamesWhere(fns[1..], p);
      assert forall j :: 1 <= j < |fns| ==> fns[j] == fns[1..][j - 1];
      if p(fns[0]) then [fns[0].name] + rest else rest
  }

  /** Every event lists the functions that emit it, in function order. */
  function LinkEvents(es: seq<EventDef>, fns: seq<FunctionInfo>): (r: seq<EventDef>)
    ensures |r| == |es|
    ensures forall i :: 0 <= i < |es| ==> r[i].name == es[i].name && r[i].line == es[i].line
    ensures forall i, x :: 0 <= i < |es| ==>
              (x in r[i].emittedIn <==> exists j :: 0 <= j < |fns| && es[i].name in fns[j].emitsEvents && fns[j].name == x)
  {
    seq(|es|, i requires 0 <= i < |es| =>
      es[i].(emittedIn := NamesWhere(fns, (f: FunctionInfo) => es[i].name in f.emitsEvents)))
  }

  /** Every modifier lists the functions that apply it, in function order. */
  function LinkModifiers(ms: seq<ModifierDef>, fns: seq<FunctionInfo>): (r: seq<ModifierDef>)
    ensures |r| == |ms|
    ensures forall i :: 0 <= i < |ms| ==> r[i].name == ms[i].name && r[i].line == ms[i].line
    ensures forall i, x :: 0 <= i < |ms| ==>
              (x in r[i].usedIn <==> exists j :: 0 <= j < |fns| && ms[i].name in fns[j].usesModifiers && fns[j].name == x)
  {
    seq(|ms|, i requires 0 <= i < |ms| =>
      ms[i].(usedIn := NamesWhere(fns, (f: FunctionInfo) => ms[i].name in f.usesModifiers)))
  }

  /** Users of a declared error: the functions that revert with it, and the modifiers,
      applied by some function, that revert with it (the modifier's name is recorded,
      not the function's). */
  function DeclaredErrorUsers(e: string, fns: seq<FunctionInfo>, modErrors: map<string, seq<string>>): (r: set<string>)
    ensures forall x :: x in r <==>
              (exists j :: 0 <= j < |fns| && e in fns[j].usesErrors && fns[j].name == x)
              || (exists j :: 0 <= j < |fns| && x in fns[j].usesModifiers && x in modErrors && e in modErrors[x])
  {
    (set j | 0 <= j < |fns| && e in fns[j].usesErrors :: fns[j].name)
    + (set j, m | 0 <= j < |fns| && m in fns[j].usesModifiers && m in modErrors && e in modErrors[m] :: m)
  }

  /** Users of an error not declared here: the functions that revert with it, and every
      modifier that reverts with it, applied or not. */
  function InheritedErrorUsers(e: string, fns: seq<FunctionInfo>, modErrors: map<string, seq<string>>): (r: set<string>)
    ensures forall x :: x in r <==>
              (exists j :: 0 <= j < |fns| && e in fns[j].usesErrors && fns[j].name == x)
              || (x in modErrors && e in modErrors[x])
  {
    (set j | 0 <= j < |fns| && e in fns[j].usesErrors :: fns[j].name)
    + (set m | m in modErrors && e in modErrors[m])
  }

  function LinkErrors(es: seq<ErrorDef>, fns: seq<FunctionInfo>, modErrors: map<string, seq<string>>): (r: seq<ErrorDef>)
    ensures |r| == |es|
    ensures forall i :: 0 <= i < |es| ==> r[i] == es[i].(usedIn := DeclaredErrorUsers(es[i].name, fns, modErrors))
  {
    seq(|es|, i requires 0 <= i < |es| => es[i].(usedIn := DeclaredErrorUsers(es[i].name, fns, modErrors)))
  }

  /** All errors reverted with, each once: the functions' in function order, then the
      modifiers' in the given modifier order. */
  function UsedErrors(fns: seq<FunctionInfo>, modOrder: seq<string>, modErrors: map<string, seq<string>>)
    : (r: seq<string>)
    ensures NoDups(r)
    ensures forall x :: x in r <==>
              (exists j :: 0 <= j < |fns| && x in fns[j].usesErrors)
              || (exists k :: 0 <= k < |modOrder| && modOrder[k] in modErrors && x in modErrors[modOrder[k]])
  {
    var a := FunctionErrors(fns);
    ModifierErrorsFrom(modOrder, modErrors, a)
  }

  function FunctionErrors(fns: seq<FunctionInfo>): (r: seq<string>)
    ensures NoDups(r)
    ensures forall x :: x in r <==> exists j :: 0 <= j < |fns| && x in fns[j].usesErrors
  {
    if |fns| == 0 then []
    else
      var k := |fns| - 1;
      var a := FunctionErrors(fns[..k]);
      assert forall j :: 0 <= j < k ==> fns[..k][j] == fns[j];
      InsertAll(a, fns[k].usesErrors)
  }

  function ModifierErrorsFrom(modOrder: seq<string>, modErrors: map<string, seq<string>>, acc: seq<string>)
    : (r: seq<string>)
    requires NoDups(acc)
    ensures NoDups(r)
    ensures forall x :: x in r <==>
              x in acc || exists k :: 0 <= k < |modOrder| && modOrder[k] in modErrors && x in modErrors[modOrder[k]]
  {
    if |modOrder| == 0 then acc
    else
      var k := |modOrder| - 1;
      var a := ModifierErrorsFrom(modOrder[..k], modErrors, acc);
      assert forall j :: 0 <= j < k ==> modOrder[..k][j] == modOrder[j];
      if modOrder[k] in modErrors then InsertAll(a, modErrors[modOrder[k]]) else a
  }

  /** One record per error used but not declared: line 0, marked inherited, with its
      users; in order of first use. */
  function InheritedErrors(used: seq<string>, declared: set<string>, fns: seq<FunctionInfo>,
                           modErrors: map<string, seq<string>>): (r: seq<ErrorDef>)
    ensures forall x :: (exists k :: 0 <= k < |r| && r[k].name == x) <==> x in used && x !in declared
    ensures forall k :: 0 <= k < |r| ==>
              r[k] == ErrorDef(r[k].name, 0, InheritedErrorUsers(r[k].name, fns, modErrors), true)
    ensures NoDups(used) ==> forall a, b :: 0 <= a < b < |r| ==> r[a].name != r[b].name
  {
    if |used| == 0 then []
    else
      var k := |used| - 1;
      var rest := InheritedErrors(used[..k], declared, fns, modErrors);
      assert forall x :: x in used <==> x in used[..k] || x == used[k];
      assert NoDups(used) ==> NoDups(used[..k]) && used[k] !in used[..k] by {
        if NoDups(used) {
          forall a, b | 0 <= a < b < k ensures used[..k][a] != used[..k][b] {
            assert used[a] != used[b];
          }
        }
      }
      if used[k] !in declared then
        var r := rest + [ErrorDef(used[k], 0, InheritedErrorUsers(used[k], fns, modErrors), true)];
        forall x ensures (exists j :: 0 <= j < |r| && r[j].name == x) <==> x in used && x !in declared {
          if x == used[k] {
            assert r[|rest|].name == x;
          } else if exists j :: 0 <= j < |r| && r[j].name == x {
            var j :| 0 <= j < |r| && r[j].name == x;
            assert j < |rest| && rest[j].name == x;
          } else {
            assert forall j :: 0 <= j < |rest| ==> rest[j] == r[j];
          }
        }
        r
      else rest
  }

  // ---------------------------------------------------------------------------
  // The pass.

  /** The declared errors with their users, then one record per error used but not
      declared. Declared errors keep their place; every appended error is inherited, on
      line 0, and not declared; every error a function reverts with but the contract
      does not declare is appended. */
  function LinkAllErrors(es: seq<ErrorDef>, fns: seq<FunctionInfo>, modOrder: seq<string>,
                         modErrors: map<string, seq<string>>): (r: seq<ErrorDef>)
    ensures |es| <= |r|
    ensures forall i :: 0 <= i < |es| ==>
              r[i] == es[i].(usedIn := DeclaredErrorUsers(es[i].name, fns, modErrors))
    ensures forall k :: |es| <= k < |r| ==>
              r[k] == ErrorDef(r[k].name, 0, InheritedErrorUsers(r[k].name, fns, modErrors), true)
              && r[k].name !in ErrorNames(es)
    ensures forall x :: x !in ErrorNames(es) && (exists j :: 0 <= j < |fns| && x in fns[j].usesErrors) ==>
              exists k :: |es| <= k < |r| && r[k].name == x
  {
    var used := UsedErrors(fns, modOrder, modErrors);
    var declared := LinkErrors(es, fns, modErrors);
    var inherited := InheritedErrors(used, ErrorNames(es), fns, modErrors);
    AppendedErrors(es, fns, modErrors, used, declared, inherited);
    declared + inherited
  }

  lemma AppendedErrors(es: seq<ErrorDef>, fns: seq<FunctionInfo>, modErrors: map<string, seq<string>>,
                       used: seq<string>, declared: seq<ErrorDef>, inherited: seq<ErrorDef>)
    requires forall x :: (exists j :: 0 <= j < |fns| && x in fns[j].usesErrors) ==> x in used
    requires forall x :: (exists k :: 0 <= k < |inherited| && inherited[k].name == x) <==> x in used && x !in ErrorNames(es)
    requires |declared| == |es|
    ensures forall k :: |es| <= k < |declared + inherited| ==>
              (declared + inherited)[k] == inherited[k - |es|] && (declared + inherited)[k].name !in ErrorNames(es)
    ensures forall x :: x !in ErrorNames(es) && (exists j :: 0 <= j < |fns| && x in fns[j].usesErrors) ==>
              exists k :: |es| <= k < |declared + inherited| && (declared + inherited)[k].name == x
  {
    var r := declared + inherited;
    forall x | x !in ErrorNames(es) && (exists j :: 0 <= j < |fns| && x in fns[j].usesErrors)
      ensures exists k :: |es| <= k < |r| && r[k].name == x
    {
      assert x in used;
      var k :| 0 <= k < |inherited| && inherited[k].name == x;
      assert r[|es| + k] == inherited[k];
    }
    forall k | |es| <= k < |r| ensures r[k] == inherited[k - |es|] && r[k].name !in ErrorNames(es) {
      assert r[k] == inherited[k - |es|];
      assert exists k' :: 0 <= k' < |inherited| && inherited[k'].name == r[k].name;
    }
  }

  /** Steps 4 to 7 on the propagated functions: chains, and the reverse links of events,
      errors and modifiers. */
  function Linked(info: ContractInfo, parts: seq<ContractPart>, fns: seq<FunctionInfo>, cg: CallGraph,
                  modErrors: map<string, seq<string>>): (r: ContractInfo)
    ensures r.functions == fns
    ensures r == info.(functions := fns, stateVariables := r.stateVariables, events := r.events,
                       errors := r.errors, modifiers := r.modifiers)
    ensures |r.stateVariables| == |info.stateVariables| && |r.events| == |info.events|
    ensures |r.modifiers| == |info.modifiers| && |info.errors| <= |r.errors|
  {
    info.(functions := fns,
          stateVariables := LinkStateVariables(info.stateVariables, fns, cg),
          events := LinkEvents(info.events, fns),
          errors := LinkAllErrors(info.errors, fns, ModifierOrder(parts), modErrors),
          modifiers := LinkModifiers(info.modifiers, fns))
  }

  /** Steps 1 and 2: every function analysed against the definition of its name. */
  function PerFunctionFacts(info: ContractInfo, parts: seq<ContractPart>): seq<FunctionInfo> {
    AnalyzeFunctions(info.functions, DefinitionsByName(parts, false), StateVarNames(info.stateVariables),
                     EventNames(info.events))
  }

  /** Steps 1 to 2c: per-function facts from the definitions, then the propagation of
      storage-parameter writes (as corrected, see `Propagate.PropagateCorrected`); the
      propagation only appends to write lists. */
  function PropagatedFunctions(info: ContractInfo, parts: seq<ContractPart>): (r: seq<FunctionInfo>)
    ensures |r| == |info.functions|
    ensures forall i :: 0 <= i < |r| ==> r[i].name == info.functions[i].name && r[i].line == info.functions[i].line
    ensures Grows(PerFunctionFacts(info, parts), r)
  {
    var defs := DefinitionsByName(parts, false);
    var sv := StateVarNames(info.stateVariables);
    var fns := AnalyzeFunctions(info.functions, defs, sv, EventNames(info.events));
    var r := PropagateCorrected(fns, Bodies(defs), sv).functions;
    assert fns == PerFunctionFacts(info, parts);
    assert Grows(fns, r);
    assert forall i :: 0 <= i < |r| ==> r[i].name == fns[i].name && r[i].line == fns[i].line;
    r
  }

  /** Steps 8 and 9: the upgradeable-storage rewrite. It touches only write lists and
      state variables, and nothing at all without a storage struct. */
  function Finish(linked: ContractInfo, cg: CallGraph): (r: ContractInfo)
    ensures linked.upgradeableStorage.None? ==> r == linked
    ensures r.name == linked.name && r.upgradeableStorage == linked.upgradeableStorage
    ensures r.events == linked.events && r.modifiers == linked.modifiers && r.errors == linked.errors
    ensures |r.functions| == |linked.functions|
    ensures forall j :: 0 <= j < |r.functions| ==>
              && r.functions[j].name == linked.functions[j].name
              && r.functions[j].line == linked.functions[j].line
              && r.functions[j].emitsEvents == linked.functions[j].emitsEvents
              && r.functions[j].usesModifiers == linked.functions[j].usesModifiers
              && r.functions[j].usesErrors == linked.functions[j].usesErrors
  {
    CreateVirtualStateVariables(ResolveStorageStructFields(linked), cg)
  }

  /** Steps 4 to 9 on the propagated functions `fns` and their call graph `cg`. */
  function LinkAndFinish(info: ContractInfo, parts: seq<ContractPart>, fns: seq<FunctionInfo>, cg: CallGraph,
                         modErrors: map<string, seq<string>>): (r: ContractInfo)
    ensures r.name == info.name && r.upgradeableStorage == info.upgradeableStorage
    ensures |r.functions| == |fns|
    ensures forall j :: 0 <= j < |fns| ==> r.functions[j].name == fns[j].name && r.functions[j].line == fns[j].line
    ensures |r.events| == |info.events| && |r.modifiers| == |info.modifiers| && |info.errors| <= |r.errors|
    ensures forall j :: 0 <= j < |fns| ==>
              && r.functions[j].emitsEvents == fns[j].emitsEvents
              && r.functions[j].usesErrors == fns[j].usesErrors
              && r.functions[j].usesModifiers == fns[j].usesModifiers
  {
    Finish(Linked(info, parts, fns, cg, modErrors), cg)
  }

  /** Every event lists exactly the functions that emit it. */
  lemma EventsLinked(info: ContractInfo, parts: seq<ContractPart>, fns: seq<FunctionInfo>, cg: CallGraph,
                     modErrors: map<string, seq<string>>)
    ensures var r := LinkAndFinish(info, parts, fns, cg, modErrors);
            forall i, x :: 0 <= i < |info.events| ==>
              (x in r.events[i].emittedIn <==>
                exists j :: 0 <= j < |r.functions| && info.events[i].name in r.functions[j].emitsEvents && r.functions[j].name == x)
  {
  }

  /** Every modifier lists exactly the functions that apply it. */
  lemma ModifiersLinked(info: ContractInfo, parts: seq<ContractPart>, fns: seq<FunctionInfo>, cg: CallGraph,
                        modErrors: map<string, seq<string>>)
    ensures var r := LinkAndFinish(info, parts, fns, cg, modErrors);
            forall i, x :: 0 <= i < |info.modifiers| ==>
              (x in r.modifiers[i].usedIn <==>
                exists j :: 0 <= j < |r.functions| && info.modifiers[i].name in r.functions[j].usesModifiers && r.functions[j].name == x)
  {
  }

  /** Declared errors keep their place and gain their users; every appended error is
      inherited, on line 0, and not declared; every undeclared error a function reverts
      with is appended. */
  lemma ErrorsLinked(info: ContractInfo, parts: seq<ContractPart>, fns: seq<FunctionInfo>, cg: CallGraph,
                     modErrors: map<string, seq<string>>)
    ensures var r := LinkAndFinish(info, parts, fns, cg, modErrors);
            && (forall i :: 0 <= i < |info.errors| ==>
                  r.errors[i] == info.errors[i].(usedIn := DeclaredErrorUsers(info.errors[i].name, fns, modErrors)))
            && (forall k :: |info.errors| <= k < |r.errors| ==>
                  r.errors[k] == ErrorDef(r.errors[k].name, 0, InheritedErrorUsers(r.errors[k].name, fns, modErrors), true)
                  && r.errors[k].name !in ErrorNames(info.errors))
            && (forall x :: x !in ErrorNames(info.errors) && (exists j :: 0 <= j < |r.functions| && x in r.functions[j].usesErrors) ==>
                  exists k :: |info.errors| <= k < |r.errors| && r.errors[k].name == x)
  {
  }

  /** Without upgradeable storage, each state variable's chains are sound (each starts
      at a function that writes the variable) and complete (each such function has its
      chain). */
  lemma ChainsLinked(info: ContractInfo, parts: seq<ContractPart>, fns: seq<FunctionInfo>, cg: CallGraph,
                     modErrors: map<string, seq<string>>)
    requires info.upgradeableStorage.None?
    ensures var r := LinkAndFinish(info, parts, fns, cg, modErrors);
            && |r.stateVariables| == |info.stateVariables|
            && (forall i, c :: 0 <= i < |r.stateVariables| && c in r.stateVariables[i].modificationChains ==>
                  exists j :: 0 <= j < |fns| && c.directModifier == fns[j].name
                    && r.stateVariables[i].name in fns[j].modifiesStates)
            && (forall i, j :: (0 <= i < |r.stateVariables| && 0 <= j < |fns|
                  && r.stateVariables[i].name in fns[j].modifiesStates) ==>
                  exists c :: c in r.stateVariables[i].modificationChains && c.directModifier == fns[j].name)
  {
    var r := LinkAndFinish(info, parts, fns, cg, modErrors);
    assert r == Linked(info, parts, fns, cg, modErrors);
    forall i, j | (0 <= i < |r.stateVariables| && 0 <= j < |fns|
                  && r.stateVariables[i].name in fns[j].modifiesStates)
      ensures exists c :: c in r.stateVariables[i].modificationChains && c.directModifier == fns[j].name
    {
      assert ChainFor(fns[j], fns, cg) in r.stateVariables[i].modificationChains;
    }
  }

  /** The analysis of one contract: definitions are looked up by name (a later one
      wins), and the call graph is built once, before the upgradeable-storage rewrite,
      and serves the virtual variables too. The facts of the stages are stated by
      `PropagatedFunctions` and the lemmas on `LinkAndFinish`. */
  function AnalyzeContract(info: ContractInfo, parts: seq<ContractPart>): (r: ContractInfo)
    ensures r.name == info.name && r.upgradeableStorage == info.upgradeableStorage
    ensures |r.functions| == |info.functions| && |r.events| == |info.events| && |r.modifiers| == |info.modifiers|
  {
    var fns := PropagatedFunctions(info, parts);
    var cg := BuildCallGraph(fns);
    LinkAndFinish(info, parts, fns, cg, ModifierErrors(DefinitionsByName(parts, true)))
  }

  /** The whole pass keeps each function's identity and the events, errors and modifiers
      read from its definition; only write lists change after step 2. */
  lemma AnalyzeContractKeepsFacts(info: ContractInfo, parts: seq<ContractPart>)
    ensures var r := AnalyzeContract(info, parts);
            var base := PerFunctionFacts(info, parts);
            forall j :: 0 <= j < |info.functions| ==>
              && r.functions[j].name == info.functions[j].name && r.functions[j].line == info.functions[j].line
              && r.functions[j].emitsEvents == base[j].emitsEvents
              && r.functions[j].usesErrors == base[j].usesErrors
              && r.functions[j].usesModifiers == base[j].usesModifiers
  {
    var fns := PropagatedFunctions(info, parts);
    var r := LinkAndFinish(info, parts, fns, BuildCallGraph(fns), ModifierErrors(DefinitionsByName(parts, true)));
    assert AnalyzeContract(info, parts) == r;
    var base := PerFunctionFacts(info, parts);
    assert forall j :: 0 <= j < |info.functions| ==> fns[j] == base[j].(modifiesStates := fns[j].modifiesStates);
  }
}
