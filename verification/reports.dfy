/** The queries behind the JSON reports (src/json_reports.rs) and the DOT graphs
    (src/graph_generator.rs): a contract's call graph, the direct and indirect readers
    and writers of a state variable, the depth-first call-chain search they use, the
    fields of the function-calls report, and the target inferred for a contract
    interaction. The two files carry identical copies of the helpers; each is defined
    once here. */
module Reports {
  import opened Wrappers
  import opened Strings
  import opened Collections
  import opened Records
  import opened FlowGraph

  // ---------------------------------------------------------------------------
  // Call graph.

  /** Caller to callees, for the functions that call something; a later function of
      the same name replaces an earlier one. */
  function ReportCallGraph(fns: seq<FunctionInfo>): (g: Graph)
    ensures forall n :: n in g ==> |g[n]| > 0
  {
    if |fns| == 0 then map[]
    else
      var f := fns[|fns| - 1];
      var g := ReportCallGraph(fns[..|fns| - 1]);
      if |f.callsFunctions| > 0 then g[f.name := f.callsFunctions] else g
  }

  /** The function has the name and calls something. */
  ghost predicate CallerNamed(fns: seq<FunctionInfo>, i: int, n: string) {
    0 <= i < |fns| && fns[i].name == n && |fns[i].callsFunctions| > 0
  }

  /** The graph holds exactly the functions that call something, each with the callees
      of the last such function of its name. */
  lemma {:induction false} ReportCallGraphSpec(fns: seq<FunctionInfo>, n: string)
    ensures n in ReportCallGraph(fns) <==> exists i :: CallerNamed(fns, i, n)
    ensures n in ReportCallGraph(fns) ==>
              exists i :: && CallerNamed(fns, i, n) && ReportCallGraph(fns)[n] == fns[i].callsFunctions
                          && forall j :: i < j < |fns| ==> !CallerNamed(fns, j, n)
    decreases |fns|
  {
    if |fns| > 0 {
      var m := |fns| - 1;
      var pre := fns[..m];
      ReportCallGraphSpec(pre, n);
      assert forall i :: CallerNamed(pre, i, n) <==> i < m && CallerNamed(fns, i, n);
      if CallerNamed(fns, m, n) {
        assert ReportCallGraph(fns)[n] == fns[m].callsFunctions;
      } else if n in ReportCallGraph(pre) {
        var i :| && CallerNamed(pre, i, n) && ReportCallGraph(pre)[n] == pre[i].callsFunctions
                 && forall j :: i < j < |pre| ==> !CallerNamed(pre, j, n);
        assert CallerNamed(fns, i, n);
      }
    }
  }

  // ---------------------------------------------------------------------------
  // Call-chain search.

  /** Some function reached from `start` calls a target; the start itself counts only
      when it is reached again through a call. */
  ghost predicate ReachesTarget(g: Graph, start: string, targets: seq<string>) {
    exists v, t :: Reaches(g, start, v) && HasEdge(g, v, t) && t in targets
  }

  /** Position of the first callee that is a target, or the length when none is. */
  function FirstTarget(callees: seq<string>, targets: seq<string>): (k: nat)
    ensures k <= |callees|
    ensures k < |callees| ==> callees[k] in targets
    ensures forall j :: 0 <= j < k ==> callees[j] !in targets
  {
    if |callees| == 0 then 0
    else if callees[0] in targets then 0
    else 1 + FirstTarget(callees[1..], targets)
  }

  /** The calls after `start` leading to a target, found depth first: each function is
      expanded once, and the search stops at the first callee of an expanded function
      that is a target. There is a chain exactly when a target can be reached by at
      least one call. */
  method FindCallChainToTargets(start: string, targets: seq<string>, g: Graph) returns (r: Option<seq<string>>)
    ensures r.Some? ==> |r.value| > 0 && r.value[|r.value| - 1] in targets && IsPath(g, [start] + r.value)
    ensures r.None? <==> !ReachesTarget(g, start, targets)
  {
    ghost var universe := Nodes(g) + {start};
    var stack := [Pending(start, [start])];
    var visited: set<string> := {};
    SearchStart(g, start, targets, universe);
    while |stack| > 0
      invariant SearchInv(g, start, targets, universe, stack, visited)
      decreases |universe - visited|, |stack|
    {
      var top := stack[|stack| - 1];
      if top.node in visited {
        SearchSkip(g, start, targets, universe, stack, visited);
        stack := stack[..|stack| - 1];
      } else {
        var callees := Succ(g, top.node);
        var k := FirstTarget(callees, targets);
        if k < |callees| {
          var chain := top.path[1..] + [callees[k]];
          SearchFound(g, start, targets, top, callees[k], chain);
          return Some(chain);
        }
        SearchVisit(g, start, targets, universe, stack, visited);
        RemainingShrinks(universe, visited, top.node);
        stack := stack[..|stack| - 1] + Extend(top, callees);
        visited := visited + {top.node};
      }
    }
    SearchMissing(g, start, targets, universe, visited);
    return None;
  }

  /** The entry's path is a path from `start` to its function. */
  ghost predicate Walk(g: Graph, start: string, p: Pending) {
    IsPath(g, p.path) && p.path[0] == start && p.path[|p.path| - 1] == p.node
  }

  /** What the chain search keeps true: stacked entries are walks known to the universe,
      the start is expanded or queued, and every callee of an expanded function is no
      target and is expanded or queued. */
  ghost predicate SearchInv(g: Graph, start: string, targets: seq<string>, universe: set<string>,
                            stack: seq<Pending>, visited: set<string>) {
    && universe == Nodes(g) + {start}
    && visited <= universe
    && (forall k :: 0 <= k < |stack| ==> stack[k].node in universe && Walk(g, start, stack[k]))
    && (start in visited || Queued(stack, start))
    && (forall v, w :: v in visited && HasEdge(g, v, w) ==> w !in targets && (w in visited || Queued(stack, w)))
  }

  lemma SearchStart(g: Graph, start: string, targets: seq<string>, universe: set<string>)
    requires universe == Nodes(g) + {start}
    ensures SearchInv(g, start, targets, universe, [Pending(start, [start])], {})
  {
    assert [Pending(start, [start])][0].node == start;
  }

  lemma SearchSkip(g: Graph, start: string, targets: seq<string>, universe: set<string>,
                   stack: seq<Pending>, visited: set<string>)
    requires SearchInv(g, start, targets, universe, stack, visited)
    requires |stack| > 0 && stack[|stack| - 1].node in visited
    ensures SearchInv(g, start, targets, universe, stack[..|stack| - 1], visited)
  {
    QueuedAfterPop(stack, stack[..|stack| - 1], stack[|stack| - 1]);
  }

  lemma SearchVisit(g: Graph, start: string, targets: seq<string>, universe: set<string>,
                    stack: seq<Pending>, visited: set<string>)
    requires SearchInv(g, start, targets, universe, stack, visited)
    requires |stack| > 0 && stack[|stack| - 1].node !in visited
    requires forall t :: t in Succ(g, stack[|stack| - 1].node) ==> t !in targets
    ensures var top := stack[|stack| - 1];
            && top.node in universe
            && SearchInv(g, start, targets, universe, stack[..|stack| - 1] + Extend(top, Succ(g, top.node)),
                         visited + {top.node})
  {
    var top := stack[|stack| - 1];
    var rest := stack[..|stack| - 1];
    var next := Succ(g, top.node);
    var pushed := Extend(top, next);
    var visited' := visited + {top.node};
    QueuedAfterPop(stack, rest, top);
    SuccInNodes(g, top.node);
    QueuedAfterPush(rest, pushed, next);
    var stack' := rest + pushed;
    forall k | 0 <= k < |stack'| ensures stack'[k].node in universe && Walk(g, start, stack'[k]) {
      if k >= |rest| {
        var t := next[k - |rest|];
        assert stack'[k] == pushed[k - |rest|] == Pending(t, top.path + [t]);
        assert HasEdge(g, top.node, t);
        assert IsPath(g, top.path + [t]);
      } else {
        assert stack'[k] == stack[k];
      }
    }
    forall v, w | v in visited' && HasEdge(g, v, w) ensures w !in targets && (w in visited' || Queued(stack', w)) {
      if v == top.node { assert w in next; }
    }
  }

  /** The chain returned ends in a target and follows calls from the start. */
  lemma SearchFound(g: Graph, start: string, targets: seq<string>, top: Pending, t: string, chain: seq<string>)
    requires Walk(g, start, top) && t in Succ(g, top.node) && t in targets
    requires chain == top.path[1..] + [t]
    ensures |chain| > 0 && chain[|chain| - 1] in targets && IsPath(g, [start] + chain)
    ensures ReachesTarget(g, start, targets)
  {
    SuccInNodes(g, top.node);
    assert [start] + chain == top.path + [t];
    assert IsPath(g, top.path + [t]);
    assert Reaches(g, start, top.node);
  }

  /** When the search runs dry the expanded set is closed, holds the start, and no call
      out of it reaches a target. */
  lemma SearchMissing(g: Graph, start: string, targets: seq<string>, universe: set<string>, visited: set<string>)
    requires SearchInv(g, start, targets, universe, [], visited)
    ensures !ReachesTarget(g, start, targets)
  {
    if ReachesTarget(g, start, targets) {
      var v, t :| Reaches(g, start, v) && HasEdge(g, v, t) && t in targets;
      ClosedHoldsReach(g, visited, start, v);
    }
  }

  /** A chain of calls from a function to itself and on to a target is found even though
      the start is not a target candidate. */
  lemma StartNotATarget(f: string)
    ensures !ReachesTarget(map[f := []], f, [f])
    ensures ReachesTarget(map[f := [f]], f, [f])
  {
    var g0: Graph := map[f := []];
    assert forall v, t :: !HasEdge(g0, v, t);
    var g1: Graph := map[f := [f]];
    ReachesSelf(g1, f);
    assert HasEdge(g1, f, f);
  }

  // ---------------------------------------------------------------------------
  // Readers and writers.

  /** The function writes the variable, as a whole or through a field path under it. */
  predicate IsDirectWriter(f: FunctionInfo, v: string) {
    v in f.modifiesStates || exists k :: 0 <= k < |f.modifiesStateFields| && StartsWith(f.modifiesStateFields[k], v + ".")
  }

  /** The function reads the variable. */
  predicate IsDirectReader(f: FunctionInfo, v: string) {
    v in f.readsStates
  }

  /** Which access a search is about. */
  datatype Access = Read | Write

  predicate Accesses(a: Access, f: FunctionInfo, v: string) {
    match a
    case Read => IsDirectReader(f, v)
    case Write => IsDirectWriter(f, v)
  }

  /** The names of the functions with the access, in order. */
  function DirectAccessors(a: Access, v: string, fns: seq<FunctionInfo>): (r: seq<string>)
    ensures |r| <= |fns|
    ensures forall x :: x in r <==> exists i :: 0 <= i < |fns| && fns[i].name == x && Accesses(a, fns[i], v)
  {
    if |fns| == 0 then []
    else
      var n := |fns| - 1;
      var rest := DirectAccessors(a, v, fns[..n]);
      assert forall i :: 0 <= i < n ==> fns[..n][i] == fns[i];
      if Accesses(a, fns[n], v) then rest + [fns[n].name] else rest
  }

  /** The names of the functions that are no direct accessor but reach one through calls,
      in order. */
  ghost function IndirectNames(fns: seq<FunctionInfo>, direct: seq<string>, g: Graph): seq<string> {
    if |fns| == 0 then []
    else
      var n := |fns| - 1;
      var f := fns[n];
      IndirectNames(fns[..n], direct, g) + (if f.name !in direct && ReachesTarget(g, f.name, direct) then [f.name] else [])
  }

  /** An indirect accessor and the calls leading from it to a direct one. */
  datatype ViaChain = ViaChain(caller: string, chain: seq<string>)

  function Callers(vs: seq<ViaChain>): (r: seq<string>)
    ensures |r| == |vs| && forall k :: 0 <= k < |vs| ==> r[k] == vs[k].caller
  {
    seq(|vs|, k requires 0 <= k < |vs| => vs[k].caller)
  }

  /** Each chain leads by calls from its caller, who is no direct accessor, to one. */
  ghost predicate ChainOk(g: Graph, direct: seq<string>, x: ViaChain) {
    && x.caller !in direct
    && |x.chain| > 0
    && x.chain[|x.chain| - 1] in direct
    && IsPath(g, [x.caller] + x.chain)
  }

  /** The functions that reach a direct accessor through calls, each with a chain. */
  method IndirectAccessors(fns: seq<FunctionInfo>, direct: seq<string>, g: Graph) returns (r: seq<ViaChain>)
    ensures Callers(r) == IndirectNames(fns, direct, g)
    ensures forall k :: 0 <= k < |r| ==> ChainOk(g, direct, r[k])
  {
    r := [];
    var i := 0;
    while i < |fns|
      invariant i <= |fns|
      invariant Callers(r) == IndirectNames(fns[..i], direct, g)
      invariant forall k :: 0 <= k < |r| ==> ChainOk(g, direct, r[k])
    {
      var f := fns[i];
      assert fns[..i + 1][..i] == fns[..i];
      if f.name !in direct {
        var chain := FindCallChainToTargets(f.name, direct, g);
        if chain.Some? {
          r := r + [ViaChain(f.name, chain.value)];
        }
      }
      i := i + 1;
    }
    assert fns[..i] == fns;
  }

  /** The direct accessors of a variable and the functions reaching one through calls. */
  method FindAccessors(a: Access, v: string, fns: seq<FunctionInfo>, g: Graph)
    returns (direct: seq<string>, indirect: seq<ViaChain>)
    ensures forall x :: x in direct <==> exists i :: 0 <= i < |fns| && fns[i].name == x && Accesses(a, fns[i], v)
    ensures Callers(indirect) == IndirectNames(fns, direct, g)
    ensures forall k :: 0 <= k < |indirect| ==> ChainOk(g, direct, indirect[k])
  {
    direct := DirectAccessors(a, v, fns);
    indirect := IndirectAccessors(fns, direct, g);
  }

  /** Some function of the list has the name. */
  ghost predicate Defines(fns: seq<FunctionInfo>, x: string) {
    exists i :: 0 <= i < |fns| && fns[i].name == x
  }

  lemma DefinesSnoc(fns: seq<FunctionInfo>, x: string)
    requires |fns| > 0
    ensures Defines(fns, x) <==> Defines(fns[..|fns| - 1], x) || fns[|fns| - 1].name == x
  {
    var m := |fns| - 1;
    if Defines(fns, x) && fns[m].name != x {
      var i :| 0 <= i < |fns| && fns[i].name == x;
      assert fns[..m][i] == fns[i];
    }
    if Defines(fns[..m], x) {
      var i :| 0 <= i < m && fns[..m][i].name == x;
      assert fns[i] == fns[..m][i];
    }
  }

  /** A function is listed as an indirect accessor exactly when it is a function of the
      contract, is no direct accessor, and reaches one through calls. */
  lemma {:induction false} IndirectIff(fns: seq<FunctionInfo>, direct: seq<string>, g: Graph, x: string)
    ensures x in IndirectNames(fns, direct, g) <==> Defines(fns, x) && x !in direct && ReachesTarget(g, x, direct)
    decreases |fns|
  {
    if |fns| > 0 {
      var m := |fns| - 1;
      IndirectIff(fns[..m], direct, g, x);
      DefinesSnoc(fns, x);
    }
  }

  /** The visibility of the first function with the name, "unknown" without one. */
  function GetFuncVisibility(name: string, fns: seq<FunctionInfo>): (r: string)
    ensures || (exists i :: && 0 <= i < |fns| && fns[i].name == name && r == fns[i].visibility
                            && forall j :: 0 <= j < i ==> fns[j].name != name)
            || ((forall i :: 0 <= i < |fns| ==> fns[i].name != name) && r == "unknown")
  {
    match FindFunction(fns, name)
    case Some(k) => fns[k].visibility
    case None => "unknown"
  }

  /** A named accessor with its visibility. */
  datatype NamedAccess = NamedAccess(functionName: string, visibility: string)

  /** An accessor through calls with its visibility and chain. */
  datatype ChainAccess = ChainAccess(functionName: string, visibility: string, callChain: seq<string>)

  datatype AccessReport = AccessReport(direct: seq<NamedAccess>, viaCallChains: seq<ChainAccess>)

  /** One variable's entry in the state-variables report. */
  datatype VariableReport = VariableReport(
    varType: string,
    visibility: string,
    isConstant: bool,
    isImmutable: bool,
    readers: AccessReport,
    writers: AccessReport)

  /** The report part for one access kind: each accessor with its visibility. */
  method AccessFor(a: Access, v: string, fns: seq<FunctionInfo>, g: Graph) returns (r: AccessReport)
    ensures forall x :: x in Names(r.direct) <==> exists i :: 0 <= i < |fns| && fns[i].name == x && Accesses(a, fns[i], v)
    ensures forall k :: 0 <= k < |r.direct| ==> r.direct[k].visibility == GetFuncVisibility(r.direct[k].functionName, fns)
    ensures forall k :: 0 <= k < |r.viaCallChains| ==>
              && r.viaCallChains[k].visibility == GetFuncVisibility(r.viaCallChains[k].functionName, fns)
              && ChainOk(g, Names(r.direct), ViaChain(r.viaCallChains[k].functionName, r.viaCallChains[k].callChain))
  {
    var direct, indirect := FindAccessors(a, v, fns, g);
    var ds := DirectEntries(direct, fns);
    var vs := ChainEntries(indirect, fns);
    r := AccessReport(ds, vs);
  }

  function DirectEntries(direct: seq<string>, fns: seq<FunctionInfo>): (r: seq<NamedAccess>)
    ensures Names(r) == direct
    ensures forall k :: 0 <= k < |r| ==> r[k].visibility == GetFuncVisibility(r[k].functionName, fns)
  {
    seq(|direct|, k requires 0 <= k < |direct| => NamedAccess(direct[k], GetFuncVisibility(direct[k], fns)))
  }

  function ChainEntries(indirect: seq<ViaChain>, fns: seq<FunctionInfo>): (r: seq<ChainAccess>)
    ensures |r| == |indirect|
    ensures forall k :: 0 <= k < |r| ==> ViaChain(r[k].functionName, r[k].callChain) == indirect[k]
    ensures forall k :: 0 <= k < |r| ==> r[k].visibility == GetFuncVisibility(r[k].functionName, fns)
  {
    seq(|indirect|, k requires 0 <= k < |indirect| =>
          ChainAccess(indirect[k].caller, GetFuncVisibility(indirect[k].caller, fns), indirect[k].chain))
  }

  function Names(ds: seq<NamedAccess>): (r: seq<string>)
    ensures |r| == |ds| && forall k :: 0 <= k < |ds| ==> r[k] == ds[k].functionName
  {
    seq(|ds|, k requires 0 <= k < |ds| => ds[k].functionName)
  }

  /** A state variable's entry: its declared attributes, and its readers and writers
      over the contract's call graph. */
  method VariableEntry(c: ContractInfo, v: StateVariable) returns (r: VariableReport)
    ensures r.varType == v.varType && r.visibility == v.visibility
    ensures r.isConstant == v.isConstant && r.isImmutable == v.isImmutable
    ensures forall x :: x in Names(r.writers.direct) <==>
              exists i :: 0 <= i < |c.functions| && c.functions[i].name == x && IsDirectWriter(c.functions[i], v.name)
    ensures forall x :: x in Names(r.readers.direct) <==>
              exists i :: 0 <= i < |c.functions| && c.functions[i].name == x && IsDirectReader(c.functions[i], v.name)
    ensures forall k :: 0 <= k < |r.writers.viaCallChains| ==> r.writers.viaCallChains[k].functionName !in Names(r.writers.direct)
    ensures forall k :: 0 <= k < |r.readers.viaCallChains| ==> r.readers.viaCallChains[k].functionName !in Names(r.readers.direct)
  {
    var g := ReportCallGraph(c.functions);
    var writers := AccessFor(Write, v.name, c.functions, g);
    var readers := AccessFor(Read, v.name, c.functions, g);
    r := VariableReport(v.varType, v.visibility, v.isConstant, v.isImmutable, readers, writers);
  }

  // ---------------------------------------------------------------------------
  // Function-calls report.

  /** A call to a function of the same contract: its name, parameters, and return types
      joined with commas, none when it returns nothing. */
  datatype InternalCallEntry = InternalCallEntry(functionName: string, parameters: seq<string>, returnsText: Option<string>)

  /** A call to another contract. */
  datatype ExternalCallEntry = ExternalCallEntry(
    targetContract: string,
    targetVariable: string,
    functionName: string,
    stateMutability: string,
    isValueTransfer: bool)

  datatype FunctionCallsEntry = FunctionCallsEntry(internalCalls: seq<InternalCallEntry>, externalCalls: seq<ExternalCallEntry>)

  /** The entry for a called function of the contract. */
  function CalleeEntry(g: FunctionInfo): (r: InternalCallEntry)
    ensures r.functionName == g.name && r.parameters == g.parameters
    ensures r.returnsText.None? <==> |g.returnTypes| == 0
  {
    InternalCallEntry(g.name, g.parameters, if |g.returnTypes| == 0 then None else Some(Join(g.returnTypes, ", ")))
  }

  /** The callees the contract defines, in call order, each described by the first
      function of its name; callees it does not define are dropped. */
  function InternalCalls(calls: seq<string>, c: ContractInfo): (r: seq<InternalCallEntry>)
    ensures |r| <= |calls|
  {
    if |calls| == 0 then []
    else
      var rest := InternalCalls(calls[1..], c);
      match FindFunction(c.functions, calls[0])
      case Some(i) => [CalleeEntry(c.functions[i])] + rest
      case None => rest
  }

  /** Every entry describes a callee the contract defines, by its first function of that
      name, and every such callee has an entry. */
  lemma {:induction false} InternalCallsSpec(calls: seq<string>, c: ContractInfo)
    ensures forall e :: e in InternalCalls(calls, c) ==>
              && e.functionName in calls
              && FindFunction(c.functions, e.functionName).Some?
              && e == CalleeEntry(c.functions[FindFunction(c.functions, e.functionName).value])
    ensures forall x :: x in calls && FindFunction(c.functions, x).Some? ==>
              exists e :: e in InternalCalls(calls, c) && e.functionName == x
    decreases |calls|
  {
    if |calls| > 0 {
      InternalCallsSpec(calls[1..], c);
      assert forall x :: x in calls ==> x == calls[0] || x in calls[1..];
      match FindFunction(c.functions, calls[0]) {
        case Some(i) =>
          assert CalleeEntry(c.functions[i]) in InternalCalls(calls, c);
        case None =>
      }
    }
  }

  /** The internal calls are a filter-map over the call list: a defined callee yields
      exactly its entry, an undefined one nothing, and the entries of a concatenation are
      the entries of its parts in order. */
  lemma {:induction false} InternalCallsConcat(a: seq<string>, b: seq<string>, c: ContractInfo)
    ensures InternalCalls(a + b, c) == InternalCalls(a, c) + InternalCalls(b, c)
    ensures forall x :: InternalCalls([x], c) ==
              match FindFunction(c.functions, x)
              case Some(i) => [CalleeEntry(c.functions[i])]
              case None => []
    decreases |a|
  {
    forall x ensures InternalCalls([x], c) == match FindFunction(c.functions, x)
                                              case Some(i) => [CalleeEntry(c.functions[i])]
                                              case None => [] {
      assert [x][1..] == [];
    }
    if |a| == 0 {
      assert a + b == b;
    } else {
      var ab := a + b;
      assert ab[0] == a[0] && ab[1..] == a[1..] + b;
      InternalCallsConcat(a[1..], b, c);
      assert InternalCalls(ab, c) == InternalCalls([a[0]], c) + InternalCalls(ab[1..], c);
      assert InternalCalls(a, c) == InternalCalls([a[0]], c) + InternalCalls(a[1..], c);
    }
  }

  /** The entry for a call to another contract: an unresolved contract reads "unknown",
      and a call transfers value exactly when it is payable. */
  function ExternalEntry(call: ExternalCall): (r: ExternalCallEntry)
    ensures r.isValueTransfer <==> call.stateMutability == "payable"
    ensures call.targetContract.Some? ==> r.targetContract == call.targetContract.value
    ensures call.targetContract.None? ==> r.targetContract == "unknown"
    ensures r.functionName == call.targetFunction && r.targetVariable == call.targetVariable
  {
    ExternalCallEntry(call.targetContract.GetOr("unknown"), call.targetVariable, call.targetFunction,
                      call.stateMutability, call.stateMutability == "payable")
  }

  /** A function's entry in the function-calls report. */
  function FunctionCalls(f: FunctionInfo, c: ContractInfo): (r: FunctionCallsEntry)
    ensures |r.externalCalls| == |f.externalCalls|
    ensures forall k :: 0 <= k < |r.externalCalls| ==> r.externalCalls[k] == ExternalEntry(f.externalCalls[k])
    ensures forall k :: 0 <= k < |r.internalCalls| ==> r.internalCalls[k].functionName in f.callsFunctions
  {
    InternalCallsSpec(f.callsFunctions, c);
    FunctionCallsEntry(InternalCalls(f.callsFunctions, c),
                       seq(|f.externalCalls|, k requires 0 <= k < |f.externalCalls| => ExternalEntry(f.externalCalls[k])))
  }

  /** Function name to entry for one contract; a later function of the same name
      replaces an earlier one. */
  function ContractCalls(c: ContractInfo): (r: map<string, FunctionCallsEntry>)
    ensures forall x :: x in r <==> Defines(c.functions, x)
  {
    var r := CallsOf(c.functions, c);
    assert forall x :: x in r <==> Defines(c.functions, x) by {
      forall x ensures x in r <==> Defines(c.functions, x) {
        CallsOfSpec(c.functions, c, x);
      }
    }
    r
  }

  function CallsOf(fns: seq<FunctionInfo>, c: ContractInfo): map<string, FunctionCallsEntry> {
    if |fns| == 0 then map[]
    else CallsOf(fns[..|fns| - 1], c)[fns[|fns| - 1].name := FunctionCalls(fns[|fns| - 1], c)]
  }

  /** Every function of the contract has an entry, and the entry under a name is that of
      the last function with it. */
  lemma {:induction false} CallsOfSpec(fns: seq<FunctionInfo>, c: ContractInfo, x: string)
    ensures x in CallsOf(fns, c) <==> Defines(fns, x)
    ensures forall i :: 0 <= i < |fns| && fns[i].name == x && (forall j :: i < j < |fns| ==> fns[j].name != x) ==>
              CallsOf(fns, c)[x] == FunctionCalls(fns[i], c)
    decreases |fns|
  {
    if |fns| > 0 {
      var m := |fns| - 1;
      CallsOfSpec(fns[..m], c, x);
      DefinesSnoc(fns, x);
      forall i | 0 <= i < |fns| && fns[i].name == x && (forall j :: i < j < |fns| ==> fns[j].name != x)
        ensures CallsOf(fns, c)[x] == FunctionCalls(fns[i], c)
      {
        if i < m {
          assert fns[..m][i] == fns[i];
          assert forall j :: i < j < m ==> fns[..m][j] == fns[j];
        }
      }
    }
  }

  // ---------------------------------------------------------------------------
  // Contract interactions.

  /** The first contract whose lowercased name contains the given lowercased text. */
  function FirstImplementing(contracts: seq<ContractInfo>, iface: string): (r: Option<nat>)
    ensures r.Some? ==> r.value < |contracts| && Contains(ToLower(contracts[r.value].name), iface)
    ensures r.Some? ==> forall j :: 0 <= j < r.value ==> !Contains(ToLower(contracts[j].name), iface)
    ensures r.None? ==> forall j :: 0 <= j < |contracts| ==> !Contains(ToLower(contracts[j].name), iface)
  {
    if |contracts| == 0 then None
    else if Contains(ToLower(contracts[0].name), iface) then Some(0)
    else match FirstImplementing(contracts[1..], iface)
      case Some(k) => Some(k + 1)
      case None => None
  }

  /** The contract an external call talks to: its resolved contract when known; else the
      first contract whose lowercased name contains the lowercased type with its leading
      `I`s stripped; else the type itself. */
  function InteractionTarget(call: ExternalCall, contracts: seq<ContractInfo>): (r: string)
    ensures call.targetContract.Some? ==> r == call.targetContract.value
    ensures call.targetContract.None? ==>
              var iface := ToLower(TrimStartChar(call.targetType, 'I'));
              || (exists i :: && 0 <= i < |contracts| && Contains(ToLower(contracts[i].name), iface)
                              && r == contracts[i].name
                              && forall j :: 0 <= j < i ==> !Contains(ToLower(contracts[j].name), iface))
              || ((forall j :: 0 <= j < |contracts| ==> !Contains(ToLower(contracts[j].name), iface)) && r == call.targetType)
  {
    match call.targetContract
    case Some(t) => t
    case None =>
      match FirstImplementing(contracts, ToLower(TrimStartChar(call.targetType, 'I')))
      case Some(i) => contracts[i].name
      case None => call.targetType
  }

  /** Calling contract and called contract. */
  type InteractionKey = (string, string)

  /** One entry per external call of every function of every contract, in order: the
      pair of contracts and the called function. */
  function AllCalls(contracts: seq<ContractInfo>, all: seq<ContractInfo>): seq<(InteractionKey, string)> {
    if |contracts| == 0 then []
    else AllCalls(contracts[..|contracts| - 1], all) + ContractCallsOut(contracts[|contracts| - 1], contracts[|contracts| - 1].functions, all)
  }

  function ContractCallsOut(c: ContractInfo, fns: seq<FunctionInfo>, all: seq<ContractInfo>): seq<(InteractionKey, string)> {
    if |fns| == 0 then []
    else
      var f := fns[|fns| - 1];
      ContractCallsOut(c, fns[..|fns| - 1], all)
        + seq(|f.externalCalls|, k requires 0 <= k < |f.externalCalls| =>
                ((c.name, InteractionTarget(f.externalCalls[k], all)), f.externalCalls[k].targetFunction))
  }

  /** The functions called under a key, in order. */
  function CalledUnder(flat: seq<(InteractionKey, string)>, key: InteractionKey): seq<string> {
    if |flat| == 0 then []
    else CalledUnder(flat[..|flat| - 1], key) + (if flat[|flat| - 1].0 == key then [flat[|flat| - 1].1] else [])
  }

  /** Calls grouped by pair of contracts, leaving out calls a contract makes to itself. */
  function GroupInteractions(flat: seq<(InteractionKey, string)>): (r: map<InteractionKey, seq<string>>)
    ensures forall key :: key in r <==> key.0 != key.1 && |CalledUnder(flat, key)| > 0
    ensures forall key :: key in r ==> r[key] == CalledUnder(flat, key)
  {
    if |flat| == 0 then map[]
    else
      var n := |flat| - 1;
      var m := GroupInteractions(flat[..n]);
      var (key, fn) := flat[n];
      assert flat[..n] == flat[..|flat| - 1];
      if key.0 == key.1 then m
      else m[key := (if key in m then m[key] else []) + [fn]]
  }

  /** Every interaction between two different contracts, with the functions called. */
  function Interactions(contracts: seq<ContractInfo>): (r: map<InteractionKey, seq<string>>)
    ensures forall key :: key in r ==> key.0 != key.1 && |r[key]| > 0
    ensures forall key :: key in r ==> r[key] == CalledUnder(AllCalls(contracts, contracts), key)
  {
    GroupInteractions(AllCalls(contracts, contracts))
  }

  /** A call that is resolved to another contract is recorded under that pair. */
  lemma ResolvedCallRecorded(contracts: seq<ContractInfo>, ci: nat, fi: nat, k: nat)
    requires ci < |contracts| && fi < |contracts[ci].functions| && k < |contracts[ci].functions[fi].externalCalls|
    requires contracts[ci].functions[fi].externalCalls[k].targetContract.Some?
    requires contracts[ci].functions[fi].externalCalls[k].targetContract.value != contracts[ci].name
    ensures (contracts[ci].name, contracts[ci].functions[fi].externalCalls[k].targetContract.value) in Interactions(contracts)
  {
    var call := contracts[ci].functions[fi].externalCalls[k];
    var key := (contracts[ci].name, call.targetContract.value);
    var flat := AllCalls(contracts, contracts);
    InAllCalls(contracts, contracts, ci, fi, k);
    CalledUnderHas(flat, key, call.targetFunction);
  }

  lemma {:induction false} CalledUnderHas(flat: seq<(InteractionKey, string)>, key: InteractionKey, fn: string)
    requires (key, fn) in flat
    ensures fn in CalledUnder(flat, key)
    decreases |flat|
  {
    var n := |flat| - 1;
    if flat[n] != (key, fn) {
      assert (key, fn) in flat[..n] by {
        var i :| 0 <= i < |flat| && flat[i] == (key, fn);
        assert i < n && flat[..n][i] == flat[i];
      }
      CalledUnderHas(flat[..n], key, fn);
    }
  }

  /** Each external call appears in the list of all calls. */
  lemma {:induction false} InAllCalls(contracts: seq<ContractInfo>, all: seq<ContractInfo>, ci: nat, fi: nat, k: nat)
    requires ci < |contracts| && fi < |contracts[ci].functions| && k < |contracts[ci].functions[fi].externalCalls|
    ensures var call := contracts[ci].functions[fi].externalCalls[k];
            ((contracts[ci].name, InteractionTarget(call, all)), call.targetFunction) in AllCalls(contracts, all)
    decreases |contracts|
  {
    var n := |contracts| - 1;
    if ci < n {
      assert contracts[..n][ci] == contracts[ci];
      InAllCalls(contracts[..n], all, ci, fi, k);
    } else {
      InContractCalls(contracts[ci], contracts[ci].functions, all, fi, k);
    }
  }

  lemma {:induction false} InContractCalls(c: ContractInfo, fns: seq<FunctionInfo>, all: seq<ContractInfo>, fi: nat, k: nat)
    requires fi < |fns| && k < |fns[fi].externalCalls|
    ensures var call := fns[fi].externalCalls[k];
            ((c.name, InteractionTarget(call, all)), call.targetFunction) in ContractCallsOut(c, fns, all)
    decreases |fns|
  {
    var n := |fns| - 1;
    var f := fns[n];
    var here := seq(|f.externalCalls|, j requires 0 <= j < |f.externalCalls| =>
                      ((c.name, InteractionTarget(f.externalCalls[j], all)), f.externalCalls[j].targetFunction));
    assert ContractCallsOut(c, fns, all) == ContractCallsOut(c, fns[..n], all) + here;
    if fi < n {
      assert fns[..n][fi] == fns[fi];
      InContractCalls(c, fns[..n], all, fi, k);
    } else {
      assert here[k] in here;
    }
  }
}
