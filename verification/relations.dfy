/** Cross-contract relations (src/relations.rs): for every external call whose target
    contract and function are known, what the target writes, which other functions of
    the target write the same variables, and the chain of calls the target makes in
    turn, expanded across contracts with each `Contract::function` expanded once. */
module Relations {
  import opened Wrappers
  import opened Strings
  import opened Collections
  import opened Records
  import opened ExternalCalls

  datatype CallType = Internal | External | ExternalUnresolved

  datatype ExternalCallInfo = ExternalCallInfo(
    targetVariable: string,
    targetType: string,
    targetContract: Option<string>,
    stateMutability: string)

  /** One step of an expanded call chain at its nesting depth. The caption is the called
      function with its visibility in parentheses, or `variable.function()` for an
      external call; the tree prefix drawn before it is left out. The visit key is the
      `Contract::function` key the step was checked against; it is not printed. */
  datatype CallChainStep = CallChainStep(
    depth: nat,
    caption: string,
    callType: CallType,
    modifiedVariables: seq<string>,
    otherModifiers: seq<string>,
    targetInfo: Option<ExternalCallInfo>,
    visitKey: string)

  datatype ContractRelation = ContractRelation(
    externalCall: ExternalCall,
    modifiedVariables: seq<string>,
    otherModifiers: seq<string>,
    fullCallChain: seq<CallChainStep>)

  // ---------------------------------------------------------------------------
  // Other modifiers.

  /** `x` names a function other than `exclude` that writes one of the variables. */
  ghost predicate IsOtherModifier(fns: seq<FunctionInfo>, vars: seq<string>, exclude: string, x: string) {
    exists k :: 0 <= k < |vars| && WritesVar(fns, vars[k], exclude, x, 0)
  }

  /** `x` names a function other than `exclude`, from position `from` on, that writes `v`. */
  ghost predicate WritesVar(fns: seq<FunctionInfo>, v: string, exclude: string, x: string, from: nat) {
    x != exclude && exists j :: from <= j < |fns| && fns[j].name == x && v in fns[j].modifiesStates
  }

  /** The functions other than `exclude` that write one of the variables, variable by
      variable, each listed once. */
  function OtherModifiers(vars: seq<string>, exclude: string, fns: seq<FunctionInfo>): (r: seq<string>)
    ensures NoDups(r)
    ensures exclude !in r
    ensures forall x :: x in r <==> IsOtherModifier(fns, vars, exclude, x)
  {
    OthersFrom(vars, 0, exclude, fns, [])
  }

  function OthersFrom(vars: seq<string>, k: nat, exclude: string, fns: seq<FunctionInfo>, acc: seq<string>)
    : (r: seq<string>)
    requires k <= |vars|
    ensures NoDups(acc) ==> NoDups(r)
    ensures exclude !in acc ==> exclude !in r
    ensures forall x :: x in r <==> x in acc || exists k' :: k <= k' < |vars| && WritesVar(fns, vars[k'], exclude, x, 0)
    decreases |vars| - k
  {
    if k == |vars| then acc
    else
      var acc' := OthersOf(vars[k], fns, 0, exclude, acc);
      OthersFrom(vars, k + 1, exclude, fns, acc')
  }

  function OthersOf(v: string, fns: seq<FunctionInfo>, i: nat, exclude: string, acc: seq<string>): (r: seq<string>)
    requires i <= |fns|
    ensures NoDups(acc) ==> NoDups(r)
    ensures exclude !in acc ==> exclude !in r
    ensures forall x :: x in r <==> x in acc || WritesVar(fns, v, exclude, x, i)
    decreases |fns| - i
  {
    if i == |fns| then acc
    else
      var f := fns[i];
      var acc' := if f.name != exclude && v in f.modifiesStates then Insert(acc, f.name) else acc;
      var r := OthersOf(v, fns, i + 1, exclude, acc');
      WritesVarStep(fns, v, exclude, i);
      r
  }

  /** A writer from position `i` on is the function at `i` or a writer after it. */
  lemma WritesVarStep(fns: seq<FunctionInfo>, v: string, exclude: string, i: nat)
    requires i < |fns|
    ensures forall x :: WritesVar(fns, v, exclude, x, i) <==>
                        (x != exclude && x == fns[i].name && v in fns[i].modifiesStates) || WritesVar(fns, v, exclude, x, i + 1)
  {
  }

  // ---------------------------------------------------------------------------
  // Relations.

  /** The contract a name denotes: the last contract of that name, as when a map is
      collected from the list. */
  function LastContract(contracts: seq<ContractInfo>, name: string): (r: Option<nat>)
    ensures r.Some? ==> r.value < |contracts| && contracts[r.value].name == name
    ensures r.Some? ==> forall j :: r.value < j < |contracts| ==> contracts[j].name != name
    ensures r.None? ==> forall j :: 0 <= j < |contracts| ==> contracts[j].name != name
  {
    if |contracts| == 0 then None
    else if contracts[|contracts| - 1].name == name then Some(|contracts| - 1)
    else LastContract(contracts[..|contracts| - 1], name)
  }

  /** The target of an external call: the contract its resolved contract name denotes and
      the first function there with the called name. */
  function ResolveCall(contracts: seq<ContractInfo>, call: ExternalCall): (r: Option<(nat, nat)>)
    ensures r.Some? ==> && call.targetContract.Some?
                        && r.value.0 < |contracts| && contracts[r.value.0].name == call.targetContract.value
                        && r.value.1 < |contracts[r.value.0].functions|
                        && contracts[r.value.0].functions[r.value.1].name == call.targetFunction
    ensures r.None? <==> || call.targetContract.None?
                         || LastContract(contracts, call.targetContract.value).None?
                         || FindFunction(contracts[LastContract(contracts, call.targetContract.value).value].functions,
                                         call.targetFunction).None?
  {
    match call.targetContract
    case None => None
    case Some(n) =>
      match LastContract(contracts, n)
      case None => None
      case Some(ci) =>
        match FindFunction(contracts[ci].functions, call.targetFunction)
        case None => None
        case Some(fi) => Some((ci, fi))
  }

  /** The calls that resolve, in order. */
  function ResolvedCalls(contracts: seq<ContractInfo>, calls: seq<ExternalCall>): seq<ExternalCall> {
    if |calls| == 0 then []
    else (if ResolveCall(contracts, calls[0]).Some? then [calls[0]] else []) + ResolvedCalls(contracts, calls[1..])
  }

  /** The resolved calls are the calls of the list that resolve. */
  lemma {:induction false} ResolvedCallsIff(contracts: seq<ContractInfo>, calls: seq<ExternalCall>)
    ensures forall c :: c in ResolvedCalls(contracts, calls) <==> c in calls && ResolveCall(contracts, c).Some?
    decreases |calls|
  {
    if |calls| > 0 {
      ResolvedCallsIff(contracts, calls[1..]);
      assert calls == [calls[0]] + calls[1..];
    }
  }

  /** A relation for a resolved call: the target's own writes, the other functions of the
      target contract writing any of them, each once and never the target itself, and
      the chain expanded below the target. */
  ghost predicate RelationOk(contracts: seq<ContractInfo>, rel: ContractRelation) {
    && ResolveCall(contracts, rel.externalCall).Some?
    && var (ci, fi) := ResolveCall(contracts, rel.externalCall).value;
       && rel.modifiedVariables == contracts[ci].functions[fi].modifiesStates
       && rel.externalCall.targetFunction !in rel.otherModifiers
       && NoDups(rel.otherModifiers)
       && (forall x :: x in rel.otherModifiers <==>
             IsOtherModifier(contracts[ci].functions, rel.modifiedVariables, rel.externalCall.targetFunction, x))
       && rel.fullCallChain == BuildFullChain(contracts[ci].functions[fi], contracts[ci], contracts)
  }

  function RelationFor(contracts: seq<ContractInfo>, call: ExternalCall): (r: ContractRelation)
    requires ResolveCall(contracts, call).Some?
    ensures RelationOk(contracts, r) && r.externalCall == call
  {
    var (ci, fi) := ResolveCall(contracts, call).value;
    var c := contracts[ci];
    var f := c.functions[fi];
    var mods := f.modifiesStates;
    ContractRelation(call, mods, OtherModifiers(mods, call.targetFunction, c.functions), BuildFullChain(f, c, contracts))
  }

  /** One relation per external call whose target contract and function resolve, in
      call order. */
  function BuildRelationships(contracts: seq<ContractInfo>, calls: seq<ExternalCall>): (r: seq<ContractRelation>)
    ensures |r| == |ResolvedCalls(contracts, calls)|
    ensures forall k :: 0 <= k < |r| ==> r[k].externalCall == ResolvedCalls(contracts, calls)[k]
    ensures forall k :: 0 <= k < |r| ==> RelationOk(contracts, r[k])
  {
    var rc := ResolvedCalls(contracts, calls);
    ResolvedCallsIff(contracts, calls);
    seq(|rc|, k requires 0 <= k < |rc| => RelationFor(contracts, rc[k]))
  }

  /** A call of the list yields a relation exactly when it resolves. */
  lemma RelationIffResolved(contracts: seq<ContractInfo>, calls: seq<ExternalCall>, call: ExternalCall)
    requires call in calls
    ensures (exists k :: 0 <= k < |BuildRelationships(contracts, calls)|
                         && BuildRelationships(contracts, calls)[k].externalCall == call)
            <==> ResolveCall(contracts, call).Some?
  {
    var r := BuildRelationships(contracts, calls);
    var rc := ResolvedCalls(contracts, calls);
    ResolvedCallsIff(contracts, calls);
    if ResolveCall(contracts, call).Some? {
      var k :| 0 <= k < |rc| && rc[k] == call;
      assert r[k].externalCall == call;
    }
  }

  // ---------------------------------------------------------------------------
  // Collecting modifications.

  /** The accumulated writes and the callee names seen. */
  datatype Collected = Collected(mods: seq<string>, visited: set<string>)

  /** Every name some function of the contract calls. */
  function CallNames(c: ContractInfo): set<string> {
    set i, j | 0 <= i < |c.functions| && 0 <= j < |c.functions[i].callsFunctions| :: c.functions[i].callsFunctions[j]
  }

  /** The writes of the first function with the given name, none without one. */
  function ModsOf(c: ContractInfo, name: string): seq<string> {
    match FindFunction(c.functions, name)
    case Some(k) => c.functions[k].modifiesStates
    case None => []
  }

  /** Some function of the contract writes `x`. */
  ghost predicate WrittenIn(c: ContractInfo, x: string) {
    exists i :: 0 <= i < |c.functions| && x in c.functions[i].modifiesStates
  }

  /** The writes of the function's callees and theirs in turn, looked up by name in the
      contract, appended to `mods` without repeats; each callee name is taken at most
      once, its name being marked seen before the lookup. */
  function CollectAllModifications(f: FunctionInfo, c: ContractInfo, mods: seq<string>, visited: set<string>)
    : (r: Collected)
    ensures mods <= r.mods
    ensures NoDups(mods) ==> NoDups(r.mods)
    ensures forall x :: x in r.mods ==> x in mods || WrittenIn(c, x)
    ensures forall j :: 0 <= j < |f.callsFunctions| ==> f.callsFunctions[j] in r.visited
    ensures forall n :: n in r.visited && n !in visited ==> forall x :: x in ModsOf(c, n) ==> x in r.mods
    ensures forall n :: n in r.visited && n !in visited ==> forall x :: x in CalleesOf(c, n) ==> x in r.visited
  {
    CollectCalls(f.callsFunctions, 0, c, Collected(mods, visited), (set n | n in f.callsFunctions) + CallNames(c))
  }

  /** What every collection step keeps: it only adds seen names and writes, adds no
      repeats, adds only writes of the contract, and holds the writes of every name it
      marks seen. */
  ghost predicate Extends(c: ContractInfo, st: Collected, r: Collected) {
    && st.visited <= r.visited && st.mods <= r.mods
    && (NoDups(st.mods) ==> NoDups(r.mods))
    && (forall x :: x in r.mods ==> x in st.mods || WrittenIn(c, x))
    && (forall n :: n in r.visited && n !in st.visited ==> forall x :: x in ModsOf(c, n) ==> x in r.mods)
  }

  lemma ExtendsTrans(c: ContractInfo, a: Collected, b: Collected, d: Collected)
    requires Extends(c, a, b) && Extends(c, b, d)
    ensures Extends(c, a, d)
  {
  }

  /** The callees of the first function with the given name, none without one. */
  function CalleesOf(c: ContractInfo, name: string): seq<string> {
    match FindFunction(c.functions, name)
    case Some(k) => c.functions[k].callsFunctions
    case None => []
  }

  /** Every name a step marks seen has its own callees marked seen by the end of it. */
  ghost predicate Closed(c: ContractInfo, st: Collected, r: Collected) {
    forall n :: n in r.visited && n !in st.visited ==> forall x :: x in CalleesOf(c, n) ==> x in r.visited
  }

  lemma ClosedTrans(c: ContractInfo, a: Collected, b: Collected, d: Collected)
    requires Closed(c, a, b) && Closed(c, b, d) && a.visited <= b.visited <= d.visited
    ensures Closed(c, a, d)
  {
  }

  function CollectCalls(calls: seq<string>, idx: nat, c: ContractInfo, st: Collected, ghost universe: set<string>)
    : (r: Collected)
    requires idx <= |calls|
    requires forall j :: idx <= j < |calls| ==> calls[j] in universe
    requires CallNames(c) <= universe
    ensures Extends(c, st, r) && Closed(c, st, r)
    ensures forall j :: idx <= j < |calls| ==> calls[j] in r.visited
    decreases |universe - st.visited|, |calls| - idx, 2
  {
    if idx == |calls| then st
    else if calls[idx] in st.visited then CollectCalls(calls, idx + 1, c, st, universe)
    else CollectNew(calls, idx, c, st, universe)
  }

  /** The step for a callee not seen before: mark it seen, take its writes and its own
      callees, then go on with the rest of the list. */
  function CollectNew(calls: seq<string>, idx: nat, c: ContractInfo, st: Collected, ghost universe: set<string>)
    : (r: Collected)
    requires idx < |calls| && calls[idx] !in st.visited
    requires forall j :: idx <= j < |calls| ==> calls[j] in universe
    requires CallNames(c) <= universe
    ensures Extends(c, st, r) && Closed(c, st, r)
    ensures forall j :: idx <= j < |calls| ==> calls[j] in r.visited
    decreases |universe - st.visited|, |calls| - idx, 1
  {
    var name := calls[idx];
    var st1 := Collected(st.mods, st.visited + {name});
    RemainingShrinks(universe, st.visited, name);
    match FindFunction(c.functions, name)
    case None =>
      var r := CollectCalls(calls, idx + 1, c, st1, universe);
      assert Extends(c, st, st1);
      ExtendsTrans(c, st, st1, r);
      assert Closed(c, st, st1);
      ClosedTrans(c, st, st1, r);
      r
    case Some(k) => CollectFound(calls, idx, c, st, universe, k)
  }

  /** A callee the contract defines: its writes, then its own callees, then the rest. */
  function CollectFound(calls: seq<string>, idx: nat, c: ContractInfo, st: Collected, ghost universe: set<string>,
                        k: nat): (r: Collected)
    requires idx < |calls| && calls[idx] !in st.visited
    requires k < |c.functions| && FindFunction(c.functions, calls[idx]) == Some(k)
    requires forall j :: idx <= j < |calls| ==> calls[j] in universe
    requires CallNames(c) <= universe
    ensures Extends(c, st, r) && Closed(c, st, r)
    ensures forall j :: idx <= j < |calls| ==> calls[j] in r.visited
    decreases |universe - st.visited|, |calls| - idx, 0
  {
    var g := c.functions[k];
    var st2 := Collected(InsertAll(st.mods, g.modifiesStates), st.visited + {calls[idx]});
    RemainingShrinks(universe, st.visited, calls[idx]);
    CalleesKnown(c, k, universe);
    var st3 := CollectCalls(g.callsFunctions, 0, c, st2, universe);
    RemainingMonotone(universe, st2.visited, st3.visited);
    var r := CollectCalls(calls, idx + 1, c, st3, universe);
    FoundStep(c, k, st, st2);
    ExtendsTrans(c, st, st2, st3);
    ExtendsTrans(c, st, st3, r);
    FoundClosed(c, k, st, st2, st3, r);
    r
  }

  /** Marking a found callee seen, then its callees, then the rest, closes the step. */
  lemma FoundClosed(c: ContractInfo, k: nat, st: Collected, st2: Collected, st3: Collected, r: Collected)
    requires k < |c.functions| && FindFunction(c.functions, c.functions[k].name) == Some(k)
    requires st2.visited == st.visited + {c.functions[k].name}
    requires forall j :: 0 <= j < |c.functions[k].callsFunctions| ==> c.functions[k].callsFunctions[j] in st3.visited
    requires st2.visited <= st3.visited <= r.visited
    requires Closed(c, st2, st3) && Closed(c, st3, r)
    ensures Closed(c, st, r)
  {
    assert CalleesOf(c, c.functions[k].name) == c.functions[k].callsFunctions;
  }

  /** `p` is a path through the call graph from `f`: its first name is one `f` calls,
      and each later name is a callee of the one before. */
  predicate CallPath(f: FunctionInfo, c: ContractInfo, p: seq<string>) {
    && |p| > 0 && p[0] in f.callsFunctions
    && forall i :: 0 < i < |p| ==> p[i] in CalleesOf(c, p[i - 1])
  }

  /** Transitive closure: every name reachable from `f` through calls not already seen
      is marked seen, and the writes of the function it names are collected. */
  lemma {:induction false} ReachableWritesCollected(f: FunctionInfo, c: ContractInfo, mods: seq<string>,
                                                    visited: set<string>, p: seq<string>)
    requires CallPath(f, c, p) && forall i :: 0 <= i < |p| ==> p[i] !in visited
    ensures var r := CollectAllModifications(f, c, mods, visited);
            forall i :: 0 <= i < |p| ==> p[i] in r.visited && forall x :: x in ModsOf(c, p[i]) ==> x in r.mods
  {
    var r := CollectAllModifications(f, c, mods, visited);
    if |p| > 1 {
      var q := p[..|p| - 1];
      assert forall i :: 0 <= i < |q| ==> q[i] == p[i];
      ReachableWritesCollected(f, c, mods, visited, q);
      assert p[|p| - 2] == q[|q| - 1];
      assert p[|p| - 1] in CalleesOf(c, p[|p| - 2]);
      assert forall i :: 0 <= i < |p| - 1 ==> p[i] == q[i];
    } else {
      assert p[0] in f.callsFunctions;
    }
  }

  /** Marking a function's name seen and taking its writes is a collection step. */
  lemma FoundStep(c: ContractInfo, k: nat, st: Collected, st2: Collected)
    requires k < |c.functions| && FindFunction(c.functions, c.functions[k].name) == Some(k)
    requires st2 == Collected(InsertAll(st.mods, c.functions[k].modifiesStates), st.visited + {c.functions[k].name})
    ensures Extends(c, st, st2)
  {
  }

  /** The callees of a function of the contract are among its call names. */
  lemma CalleesKnown(c: ContractInfo, k: nat, universe: set<string>)
    requires k < |c.functions| && CallNames(c) <= universe
    ensures forall j :: 0 <= j < |c.functions[k].callsFunctions| ==> c.functions[k].callsFunctions[j] in universe
  {
    forall j | 0 <= j < |c.functions[k].callsFunctions| ensures c.functions[k].callsFunctions[j] in universe {
      assert c.functions[k].callsFunctions[j] in CallNames(c);
    }
  }

  // ---------------------------------------------------------------------------
  // Chain expansion.

  /** The key a function is expanded under. */
  function Key(contract: string, fn: string): string {
    contract + "::" + fn
  }

  /** The keys of a contract's functions. */
  function KeysOf(c: ContractInfo): set<string> {
    set i | 0 <= i < |c.functions| :: Key(c.name, c.functions[i].name)
  }

  /** The keys of every function of every contract. */
  function AllKeys(all: seq<ContractInfo>): set<string> {
    set ci, i | 0 <= ci < |all| && 0 <= i < |all[ci].functions| :: Key(all[ci].name, all[ci].functions[i].name)
  }

  /** The chain so far and the keys seen. */
  datatype ChainState = ChainState(chain: seq<CallChainStep>, visited: set<string>)

  /** A step that expanded a function, as opposed to an unresolved external call. */
  predicate Resolved(step: CallChainStep) {
    step.callType != ExternalUnresolved
  }

  /** No step repeats the key of an earlier resolved step: each function is expanded at
      most once, and a call to an expanded function is not listed again. */
  predicate ResolvedOnce(chain: seq<CallChainStep>) {
    forall i, j :: 0 <= i < j < |chain| && Resolved(chain[i]) ==> chain[i].visitKey != chain[j].visitKey
  }

  /** Every resolved step's key has been seen, and no key repeats a resolved one. */
  predicate KeysOnce(s: ChainState) {
    && (forall k :: 0 <= k < |s.chain| && Resolved(s.chain[k]) ==> s.chain[k].visitKey in s.visited)
    && ResolvedOnce(s.chain)
  }

  /** An unresolved step carries no writes and no other modifiers; no step lists an
      other modifier twice; steps lie at least at the given depth. */
  predicate StepOk(step: CallChainStep, depth: nat) {
    && (step.callType == ExternalUnresolved ==> step.modifiedVariables == [] && step.otherModifiers == [])
    && NoDups(step.otherModifiers)
    && step.depth >= depth
  }

  /** What every expansion stage keeps: it only extends the chain and the seen set; every
      new step's key was unseen before; every newly seen key is that of a new resolved
      step; keys stay unrepeated; and the new steps are well formed. */
  ghost predicate Grows(s: ChainState, r: ChainState, depth: nat) {
    && s.visited <= r.visited && s.chain <= r.chain
    && (forall k :: |s.chain| <= k < |r.chain| ==> r.chain[k].visitKey !in s.visited)
    && (forall x :: x in r.visited && x !in s.visited ==>
          exists k :: |s.chain| <= k < |r.chain| && Resolved(r.chain[k]) && r.chain[k].visitKey == x)
    && (KeysOnce(s) ==> KeysOnce(r))
    && (forall k :: |s.chain| <= k < |r.chain| ==> StepOk(r.chain[k], depth))
  }

  lemma GrowsTrans(s: ChainState, m: ChainState, r: ChainState, depth: nat)
    requires Grows(s, m, depth) && Grows(m, r, depth)
    ensures Grows(s, r, depth)
  {
    forall k | |s.chain| <= k < |r.chain| ensures r.chain[k].visitKey !in s.visited {
      if k < |m.chain| {
        assert r.chain[k] == m.chain[k];
      }
    }
    forall x | x in r.visited && x !in s.visited
      ensures exists k :: |s.chain| <= k < |r.chain| && Resolved(r.chain[k]) && r.chain[k].visitKey == x
    {
      if x in m.visited {
        var k :| |s.chain| <= k < |m.chain| && Resolved(m.chain[k]) && m.chain[k].visitKey == x;
        assert r.chain[k] == m.chain[k];
      }
    }
  }

  /** A resolved step records the `i`-th function of contract `c`, the first of its
      name: the step's key is that function's key, its writes are exactly what
      `CollectAllModifications` collects from the function's own writes with some of the
      `seen` keys marked seen, and its other modifiers are exactly the other functions of
      `c` writing one of those variables. */
  ghost predicate RecordsStep(step: CallChainStep, c: ContractInfo, i: nat, seen: set<string>) {
    && i < |c.functions|
    && (forall j :: 0 <= j < i ==> c.functions[j].name != c.functions[i].name)
    && step.visitKey == Key(c.name, c.functions[i].name)
    && CollectedFrom(step.modifiedVariables, c.functions[i], c, seen)
    && step.otherModifiers == OtherModifiers(step.modifiedVariables, c.functions[i].name, c.functions)
  }

  /** `mods` is what `CollectAllModifications` collects from `g`'s own writes with some
      of the `seen` names marked seen. */
  ghost predicate CollectedFrom(mods: seq<string>, g: FunctionInfo, c: ContractInfo, seen: set<string>) {
    exists v :: v <= seen && mods == CollectAllModifications(g, c, g.modifiesStates, v).mods
  }

  lemma CollectedFromGrows(mods: seq<string>, g: FunctionInfo, c: ContractInfo, a: set<string>, b: set<string>)
    requires CollectedFrom(mods, g, c, a) && a <= b
    ensures CollectedFrom(mods, g, c, b)
  {
    var v :| v <= a && mods == CollectAllModifications(g, c, g.modifiesStates, v).mods;
    assert v <= b;
  }

  /** A resolved step records a function of one of the contracts `cs`. */
  ghost predicate StepFrom(step: CallChainStep, cs: seq<ContractInfo>, seen: set<string>) {
    Resolved(step) ==> exists ci: nat, i: nat :: ci < |cs| && RecordsStep(step, cs[ci], i, seen)
  }

  /** Every step added between `s` and `r` records a function of one of the contracts. */
  ghost predicate RecordsFrom(s: ChainState, r: ChainState, cs: seq<ContractInfo>) {
    forall k :: |s.chain| <= k < |r.chain| ==> StepFrom(r.chain[k], cs, r.visited)
  }

  /** Every contract of `all` is among `cs`. */
  predicate Covers(all: seq<ContractInfo>, cs: seq<ContractInfo>) {
    forall t :: 0 <= t < |all| ==> all[t] in cs
  }

  /** What a step records stays true as more keys are seen. */
  lemma StepFromGrows(step: CallChainStep, cs: seq<ContractInfo>, a: set<string>, b: set<string>)
    requires StepFrom(step, cs, a) && a <= b
    ensures StepFrom(step, cs, b)
  {
    if Resolved(step) {
      var ci: nat, i: nat :| ci < |cs| && RecordsStep(step, cs[ci], i, a);
      CollectedFromGrows(step.modifiedVariables, cs[ci].functions[i], cs[ci], a, b);
      assert RecordsStep(step, cs[ci], i, b);
    }
  }

  lemma RecordsTrans(s: ChainState, m: ChainState, r: ChainState, cs: seq<ContractInfo>)
    requires s.chain <= m.chain <= r.chain && m.visited <= r.visited
    requires RecordsFrom(s, m, cs) && RecordsFrom(m, r, cs)
    ensures RecordsFrom(s, r, cs)
  {
    forall k | |s.chain| <= k < |r.chain| ensures StepFrom(r.chain[k], cs, r.visited) {
      if k < |m.chain| {
        assert r.chain[k] == m.chain[k];
        StepFromGrows(m.chain[k], cs, m.visited, r.visited);
      }
    }
  }

  /** What a recorded step lists: the function's own writes come first, every other
      write is made by some function of the contract, and the other modifiers are exactly
      the other functions writing a listed variable. */
  lemma RecordedStepSound(step: CallChainStep, c: ContractInfo, i: nat, seen: set<string>)
    requires RecordsStep(step, c, i, seen)
    ensures c.functions[i].modifiesStates <= step.modifiedVariables
    ensures forall x :: x in step.modifiedVariables ==> x in c.functions[i].modifiesStates || WrittenIn(c, x)
    ensures forall x :: x in step.otherModifiers <==>
              IsOtherModifier(c.functions, step.modifiedVariables, c.functions[i].name, x)
  {
    var g := c.functions[i];
    var v :| v <= seen && step.modifiedVariables == CollectAllModifications(g, c, g.modifiesStates, v).mods;
  }

  /** A recorded step lists the writes of every function reached from the expanded one
      through a call path that avoids the seen keys. */
  lemma RecordedStepComplete(step: CallChainStep, c: ContractInfo, i: nat, seen: set<string>, p: seq<string>)
    requires RecordsStep(step, c, i, seen)
    requires CallPath(c.functions[i], c, p) && forall j :: 0 <= j < |p| ==> p[j] !in seen
    ensures forall j :: 0 <= j < |p| ==> forall x :: x in ModsOf(c, p[j]) ==> x in step.modifiedVariables
  {
    var g := c.functions[i];
    var v :| v <= seen && step.modifiedVariables == CollectAllModifications(g, c, g.modifiesStates, v).mods;
    ReachableWritesCollected(g, c, g.modifiesStates, v, p);
  }

  /** The chain below one function: its internal calls first, then its external calls.
      Every callee the contract defines ends up seen. */
  function ChainRec(f: FunctionInfo, c: ContractInfo, all: seq<ContractInfo>, depth: nat, s: ChainState,
                    ghost universe: set<string>, ghost cs: seq<ContractInfo>): (r: ChainState)
    requires KeysOf(c) <= universe && AllKeys(all) <= universe
    requires c in cs && Covers(all, cs)
    ensures Grows(s, r, depth) && RecordsFrom(s, r, cs)
    ensures forall x :: x in f.callsFunctions && FindFunction(c.functions, x).Some? ==> Key(c.name, x) in r.visited
    decreases |universe - s.visited|, 2, 0, 0
  {
    var s1 := InternalSteps(f.callsFunctions, 0, c, all, depth, s, universe, cs);
    RemainingMonotone(universe, s.visited, s1.visited);
    var r := ExternalSteps(f.externalCalls, 0, all, depth, s1, universe, cs);
    GrowsTrans(s, s1, r, depth);
    RecordsTrans(s, s1, r, cs);
    assert forall x :: x in f.callsFunctions ==> exists j :: 0 <= j < |f.callsFunctions| && f.callsFunctions[j] == x;
    r
  }

  /** Internal calls: a callee whose key is unseen and that the contract defines is
      handed to `InternalNew`; others are skipped. Every remaining callee the contract
      defines ends up seen. */
  function InternalSteps(calls: seq<string>, idx: nat, c: ContractInfo, all: seq<ContractInfo>, depth: nat,
                         s: ChainState, ghost universe: set<string>, ghost cs: seq<ContractInfo>): (r: ChainState)
    requires idx <= |calls|
    requires KeysOf(c) <= universe && AllKeys(all) <= universe
    requires c in cs && Covers(all, cs)
    ensures Grows(s, r, depth) && RecordsFrom(s, r, cs)
    ensures forall j :: idx <= j < |calls| && FindFunction(c.functions, calls[j]).Some? ==> Key(c.name, calls[j]) in r.visited
    decreases |universe - s.visited|, 1, |calls| - idx, 1
  {
    if idx == |calls| then s
    else if Key(c.name, calls[idx]) !in s.visited && FindFunction(c.functions, calls[idx]).Some? then
      InternalNew(calls, idx, c, all, depth, s, universe, cs)
    else
      var r := InternalSteps(calls, idx + 1, c, all, depth, s, universe, cs);
      CallsVisitedFrom(calls, idx, c, r.visited);
      r
  }

  /** An unseen callee the contract defines: its key is marked seen, the callee is
      recorded with everything it writes through its own callees and the other functions
      writing the same, and expanded one level deeper, before the scan goes on. */
  function InternalNew(calls: seq<string>, idx: nat, c: ContractInfo, all: seq<ContractInfo>, depth: nat,
                       s: ChainState, ghost universe: set<string>, ghost cs: seq<ContractInfo>): (r: ChainState)
    requires idx < |calls| && Key(c.name, calls[idx]) !in s.visited && FindFunction(c.functions, calls[idx]).Some?
    requires KeysOf(c) <= universe && AllKeys(all) <= universe
    requires c in cs && Covers(all, cs)
    ensures Grows(s, r, depth) && RecordsFrom(s, r, cs)
    ensures |r.chain| > |s.chain| && RecordsStep(r.chain[|s.chain|], c, FindFunction(c.functions, calls[idx]).value, r.visited)
    ensures forall j :: idx <= j < |calls| && FindFunction(c.functions, calls[j]).Some? ==> Key(c.name, calls[j]) in r.visited
    decreases |universe - s.visited|, 1, |calls| - idx, 0
  {
    var key := Key(c.name, calls[idx]);
    var i := FindFunction(c.functions, calls[idx]).value;
    var g := c.functions[i];
    assert key in KeysOf(c);
    var s1 := Expand(s, c, i, depth, Internal, g.name + " (" + g.visibility + ")", None, cs);
    RemainingShrinks(universe, s.visited, key);
    var s2 := ChainRec(g, c, all, depth + 1, s1, universe, cs);
    RemainingMonotone(universe, s1.visited, s2.visited);
    var r := InternalSteps(calls, idx + 1, c, all, depth, s2, universe, cs);
    ExpandThenRest(s, s1, s2, r, depth, cs, c, i);
    CallsVisitedFrom(calls, idx, c, r.visited);
    r
  }

  /** The callees from `idx` on are visited once the one at `idx` is and those after it are. */
  lemma CallsVisitedFrom(calls: seq<string>, idx: nat, c: ContractInfo, visited: set<string>)
    requires idx < |calls|
    requires FindFunction(c.functions, calls[idx]).Some? ==> Key(c.name, calls[idx]) in visited
    requires forall j :: idx + 1 <= j < |calls| && FindFunction(c.functions, calls[j]).Some? ==>
               Key(c.name, calls[j]) in visited
    ensures forall j :: idx <= j < |calls| && FindFunction(c.functions, calls[j]).Some? ==>
              Key(c.name, calls[j]) in visited
  {
  }

  /** Marking the key of the `i`-th function of `c` seen and recording the step for
      that function. */
  function Expand(s: ChainState, c: ContractInfo, i: nat, depth: nat, t: CallType, caption: string,
                  info: Option<ExternalCallInfo>, ghost cs: seq<ContractInfo>): (r: ChainState)
    requires i < |c.functions| && forall j :: 0 <= j < i ==> c.functions[j].name != c.functions[i].name
    requires Key(c.name, c.functions[i].name) !in s.visited && t != ExternalUnresolved
    requires c in cs
    ensures Grows(s, r, depth) && RecordsFrom(s, r, cs)
    ensures Key(c.name, c.functions[i].name) in r.visited
    ensures |r.chain| == |s.chain| + 1 && RecordsStep(r.chain[|s.chain|], c, i, r.visited)
  {
    var g := c.functions[i];
    var key := Key(c.name, g.name);
    var visited := s.visited + {key};
    var mods := CollectAllModifications(g, c, g.modifiesStates, visited).mods;
    var step := CallChainStep(depth, caption, t, mods, OtherModifiers(mods, g.name, c.functions), info, key);
    var r := ChainState(s.chain + [step], visited);
    AppendGrows(s, step, depth);
    NewStepRecords(c, i, visited, step);
    RecordedIn(step, c, i, visited, cs);
    assert r.chain[|s.chain|] == step;
    r
  }

  /** Appending a well-formed resolved step under an unseen key, and marking the key
      seen, is growth. */
  lemma AppendGrows(s: ChainState, step: CallChainStep, depth: nat)
    requires step.visitKey !in s.visited && Resolved(step) && StepOk(step, depth)
    ensures Grows(s, ChainState(s.chain + [step], s.visited + {step.visitKey}), depth)
  {
    var r := ChainState(s.chain + [step], s.visited + {step.visitKey});
    assert r.chain[|s.chain|] == step;
    if KeysOnce(s) {
      forall k | 0 <= k < |r.chain| && Resolved(r.chain[k]) ensures r.chain[k].visitKey in r.visited {
        if k < |s.chain| {
          assert r.chain[k] == s.chain[k];
        }
      }
    }
  }

  /** The step `Expand` builds records the function it expands. */
  lemma NewStepRecords(c: ContractInfo, i: nat, visited: set<string>, step: CallChainStep)
    requires i < |c.functions| && forall j :: 0 <= j < i ==> c.functions[j].name != c.functions[i].name
    requires step.visitKey == Key(c.name, c.functions[i].name)
    requires step.modifiedVariables == CollectAllModifications(c.functions[i], c, c.functions[i].modifiesStates, visited).mods
    requires step.otherModifiers == OtherModifiers(step.modifiedVariables, c.functions[i].name, c.functions)
    ensures RecordsStep(step, c, i, visited)
  {
    assert visited <= visited;
  }

  /** A step recording a function of one of the contracts is a step from them. */
  lemma RecordedIn(step: CallChainStep, c: ContractInfo, i: nat, seen: set<string>, cs: seq<ContractInfo>)
    requires RecordsStep(step, c, i, seen) && c in cs
    ensures StepFrom(step, cs, seen)
  {
    var ci: nat :| ci < |cs| && cs[ci] == c;
    assert RecordsStep(step, cs[ci], i, seen);
  }

  /** Expanding one function, then the chain below it, then the rest of the calls, is
      growth, and the expanded step keeps what it records. */
  lemma ExpandThenRest(s: ChainState, s1: ChainState, s2: ChainState, r: ChainState, depth: nat,
                       cs: seq<ContractInfo>, c: ContractInfo, i: nat)
    requires Grows(s, s1, depth) && Grows(s1, s2, depth + 1) && Grows(s2, r, depth)
    requires RecordsFrom(s, s1, cs) && RecordsFrom(s1, s2, cs) && RecordsFrom(s2, r, cs)
    requires |s1.chain| == |s.chain| + 1 && RecordsStep(s1.chain[|s.chain|], c, i, s1.visited)
    ensures Grows(s, r, depth) && RecordsFrom(s, r, cs)
    ensures |r.chain| > |s.chain| && RecordsStep(r.chain[|s.chain|], c, i, r.visited)
  {
    GrowsTrans(s1, s2, r, depth);
    GrowsTrans(s, s1, r, depth);
    RecordsTrans(s1, s2, r, cs);
    RecordsTrans(s, s1, r, cs);
    ExpandedStepKept(s, s1, r, c, i);
  }

  /** The step `Expand` added stays in place, and keeps what it records, while the
      chain grows. */
  lemma ExpandedStepKept(s: ChainState, s1: ChainState, r: ChainState, c: ContractInfo, i: nat)
    requires |s1.chain| == |s.chain| + 1 && RecordsStep(s1.chain[|s.chain|], c, i, s1.visited)
    requires s1.chain <= r.chain && s1.visited <= r.visited
    ensures |r.chain| > |s.chain| && RecordsStep(r.chain[|s.chain|], c, i, r.visited)
  {
    var step := s1.chain[|s.chain|];
    assert r.chain[|s.chain|] == step;
    CollectedFromGrows(step.modifiedVariables, c.functions[i], c, s1.visited, r.visited);
  }

  /** External calls: one whose key is unseen is marked seen, recorded and expanded in
      its target contract when the target contract and function resolve, and recorded as
      unresolved, with no writes, otherwise. */
  function ExternalSteps(calls: seq<ExternalCall>, idx: nat, all: seq<ContractInfo>, depth: nat, s: ChainState,
                         ghost universe: set<string>, ghost cs: seq<ContractInfo>): (r: ChainState)
    requires idx <= |calls|
    requires AllKeys(all) <= universe && Covers(all, cs)
    ensures Grows(s, r, depth) && RecordsFrom(s, r, cs)
    decreases |universe - s.visited|, 0, |calls| - idx, 2
  {
    if idx == |calls| then s
    else if ExternalKey(calls[idx]) in s.visited then ExternalSteps(calls, idx + 1, all, depth, s, universe, cs)
    else ExternalNew(calls, idx, all, depth, s, universe, cs)
  }

  /** The key an external call is tracked under: its target contract, `unknown` when the
      type is not a contract, and its function. */
  function ExternalKey(call: ExternalCall): string {
    Key(call.targetContract.GetOr("unknown"), call.targetFunction)
  }

  /** The step for an external call whose key is unseen. */
  function ExternalNew(calls: seq<ExternalCall>, idx: nat, all: seq<ContractInfo>, depth: nat, s: ChainState,
                       ghost universe: set<string>, ghost cs: seq<ContractInfo>): (r: ChainState)
    requires idx < |calls| && ExternalKey(calls[idx]) !in s.visited
    requires AllKeys(all) <= universe && Covers(all, cs)
    ensures Grows(s, r, depth) && RecordsFrom(s, r, cs)
    decreases |universe - s.visited|, 0, |calls| - idx, 1
  {
    var call := calls[idx];
    var key := ExternalKey(call);
    var info := ExternalCallInfo(call.targetVariable, call.targetType, call.targetContract, call.stateMutability);
    var caption := call.targetVariable + "." + call.targetFunction + "()";
    var target := if call.targetContract.Some? then FindContract(all, call.targetContract.value) else None;
    var fn := if target.Some? then FindFunction(all[target.value].functions, call.targetFunction) else None;
    if target.Some? && fn.Some? then
      ExternalResolved(calls, idx, all, depth, s, universe, cs, target.value, fn.value)
    else
      var step := CallChainStep(depth, caption, ExternalUnresolved, [], [], Some(info), key);
      var s1 := ChainState(s.chain + [step], s.visited);
      assert s1.chain[|s.chain|] == step;
      var r := ExternalSteps(calls, idx + 1, all, depth, s1, universe, cs);
      GrowsTrans(s, s1, r, depth);
      RecordsTrans(s, s1, r, cs);
      r
  }

  /** An external call whose target contract and function resolve: marked seen,
      recorded, and expanded one level deeper in the target contract. */
  function ExternalResolved(calls: seq<ExternalCall>, idx: nat, all: seq<ContractInfo>, depth: nat, s: ChainState,
                            ghost universe: set<string>, ghost cs: seq<ContractInfo>, ti: nat, fi: nat): (r: ChainState)
    requires idx < |calls| && ti < |all| && fi < |all[ti].functions|
    requires forall j :: 0 <= j < fi ==> all[ti].functions[j].name != all[ti].functions[fi].name
    requires ExternalKey(calls[idx]) == Key(all[ti].name, all[ti].functions[fi].name)
    requires ExternalKey(calls[idx]) !in s.visited
    requires AllKeys(all) <= universe && Covers(all, cs)
    ensures Grows(s, r, depth) && RecordsFrom(s, r, cs)
    ensures |r.chain| > |s.chain| && RecordsStep(r.chain[|s.chain|], all[ti], fi, r.visited)
    decreases |universe - s.visited|, 0, |calls| - idx, 0
  {
    var call := calls[idx];
    var key := ExternalKey(call);
    var info := ExternalCallInfo(call.targetVariable, call.targetType, call.targetContract, call.stateMutability);
    var caption := call.targetVariable + "." + call.targetFunction + "()";
    var tc := all[ti];
    var g := tc.functions[fi];
    KeyKnown(all, ti, fi);
    var s1 := Expand(s, tc, fi, depth, External, caption, Some(info), cs);
    RemainingShrinks(universe, s.visited, key);
    var s2 := ChainRec(g, tc, all, depth + 1, s1, universe, cs);
    RemainingMonotone(universe, s1.visited, s2.visited);
    var r := ExternalSteps(calls, idx + 1, all, depth, s2, universe, cs);
    ExpandThenRest(s, s1, s2, r, depth, cs, tc, fi);
    r
  }

  /** The keys of a listed contract's functions are among all keys. */
  lemma KeyKnown(all: seq<ContractInfo>, ci: nat, i: nat)
    requires ci < |all| && i < |all[ci].functions|
    ensures Key(all[ci].name, all[ci].functions[i].name) in AllKeys(all)
    ensures KeysOf(all[ci]) <= AllKeys(all)
  {
  }

  /** Keys of one contract differ exactly when the function names do. */
  lemma KeyInjective(contract: string, x: string, y: string)
    ensures Key(contract, x) == Key(contract, y) ==> x == y
  {
    if Key(contract, x) == Key(contract, y) {
      assert x == Key(contract, x)[|contract| + 2..];
      assert y == Key(contract, y)[|contract| + 2..];
    }
  }

  /** The expansion below a target function, starting with only the target's own key
      seen, at depth one. */
  function FullChainState(f: FunctionInfo, c: ContractInfo, all: seq<ContractInfo>): (r: ChainState)
    ensures forall k :: 0 <= k < |r.chain| ==> r.chain[k].visitKey != Key(c.name, f.name)
    ensures KeysOnce(r)
    ensures forall k :: 0 <= k < |r.chain| ==> StepOk(r.chain[k], 1)
    ensures forall x :: x in r.visited && x != Key(c.name, f.name) ==>
              exists k :: 0 <= k < |r.chain| && Resolved(r.chain[k]) && r.chain[k].visitKey == x
    ensures forall x :: x in f.callsFunctions && FindFunction(c.functions, x).Some? ==> Key(c.name, x) in r.visited
    ensures forall k :: 0 <= k < |r.chain| ==> StepFrom(r.chain[k], [c] + all, r.visited)
  {
    var root := Key(c.name, f.name);
    var s := ChainState([], {root});
    assert c == ([c] + all)[0];
    assert forall t :: 0 <= t < |all| ==> all[t] == ([c] + all)[t + 1];
    ChainRec(f, c, all, 1, s, {root} + KeysOf(c) + AllKeys(all), [c] + all)
  }

  /** The keys of the resolved steps of a chain. */
  function ResolvedKeys(chain: seq<CallChainStep>): set<string> {
    set k | 0 <= k < |chain| && Resolved(chain[k]) :: chain[k].visitKey
  }

  /** The chain below a target function, each step at depth one or more. The target's
      own key never appears, no key repeats that of an expanded step, and every other
      function of the contract that the target calls is expanded in some step. */
  function BuildFullChain(f: FunctionInfo, c: ContractInfo, all: seq<ContractInfo>): (r: seq<CallChainStep>)
    ensures forall k :: 0 <= k < |r| ==> StepOk(r[k], 1)
    ensures forall k :: 0 <= k < |r| ==> r[k].visitKey != Key(c.name, f.name)
    ensures ResolvedOnce(r)
    ensures forall x :: x in f.callsFunctions && x != f.name && FindFunction(c.functions, x).Some? ==>
              exists k :: 0 <= k < |r| && Resolved(r[k]) && r[k].visitKey == Key(c.name, x)
    ensures forall k :: 0 <= k < |r| ==> StepFrom(r[k], [c] + all, {Key(c.name, f.name)} + ResolvedKeys(r))
  {
    var st := FullChainState(f, c, all);
    assert st.visited <= {Key(c.name, f.name)} + ResolvedKeys(st.chain);
    forall k | 0 <= k < |st.chain| ensures StepFrom(st.chain[k], [c] + all, {Key(c.name, f.name)} + ResolvedKeys(st.chain)) {
      StepFromGrows(st.chain[k], [c] + all, st.visited, {Key(c.name, f.name)} + ResolvedKeys(st.chain));
    }
    forall x | x in f.callsFunctions && x != f.name && FindFunction(c.functions, x).Some?
      ensures exists k :: 0 <= k < |st.chain| && Resolved(st.chain[k]) && st.chain[k].visitKey == Key(c.name, x)
    {
      KeyInjective(c.name, x, f.name);
    }
    st.chain
  }

  /** The `i`-th function of `d` is what a resolved step expands: the step's key is that
      function's key, the step lists that function's own writes and otherwise only writes
      some function of `d` makes, and its other modifiers are exactly the other functions
      of `d` writing a listed variable. */
  ghost predicate ListsContents(step: CallChainStep, d: ContractInfo, i: nat) {
    && i < |d.functions|
    && step.visitKey == Key(d.name, d.functions[i].name)
    && d.functions[i].modifiesStates <= step.modifiedVariables
    && (forall x :: x in step.modifiedVariables ==> x in d.functions[i].modifiesStates || WrittenIn(d, x))
    && (forall x :: x in step.otherModifiers <==> IsOtherModifier(d.functions, step.modifiedVariables, d.functions[i].name, x))
  }

  /** Every resolved step of the full chain lists the contents of the function it
      expands, in the target's contract or one of the other contracts. */
  lemma FullChainStepContents(f: FunctionInfo, c: ContractInfo, all: seq<ContractInfo>, k: nat)
    requires k < |BuildFullChain(f, c, all)| && Resolved(BuildFullChain(f, c, all)[k])
    ensures exists ci: nat, i: nat :: ci < |[c] + all| && ListsContents(BuildFullChain(f, c, all)[k], ([c] + all)[ci], i)
  {
    var r := BuildFullChain(f, c, all);
    StepContents(r[k], [c] + all, {Key(c.name, f.name)} + ResolvedKeys(r));
  }

  /** The contents a resolved step from the contracts `cs` lists. */
  lemma StepContents(step: CallChainStep, cs: seq<ContractInfo>, seen: set<string>)
    requires StepFrom(step, cs, seen) && Resolved(step)
    ensures exists ci: nat, i: nat :: ci < |cs| && ListsContents(step, cs[ci], i)
  {
    var ci: nat, i: nat :| ci < |cs| && RecordsStep(step, cs[ci], i, seen);
    RecordedStepSound(step, cs[ci], i, seen);
    assert ListsContents(step, cs[ci], i);
  }

  // ---------------------------------------------------------------------------
  // Summary of variables written through several entry points.

  /** A cross-contract call reaching a write: caller contract and function, and callee. */
  datatype EntryPoint = EntryPoint(sourceContract: string, sourceFunction: string, targetFunction: string)

  /** A target contract and one of its state variables. */
  type SummaryKey = (string, string)

  /** One entry per relation with a resolved target contract and per variable it writes,
      in order. */
  function EntriesOf(relations: seq<ContractRelation>): seq<(SummaryKey, EntryPoint)> {
    if |relations| == 0 then []
    else
      var call := relations[0].externalCall;
      var vars := relations[0].modifiedVariables;
      var here := if call.targetContract.Some? then
                    seq(|vars|, k requires 0 <= k < |vars| =>
                          ((call.targetContract.value, vars[k]),
                           EntryPoint(call.sourceContract, call.sourceFunction, call.targetFunction)))
                  else [];
      here + EntriesOf(relations[1..])
  }

  /** The entry points recorded under a key, in order. */
  function EntriesFor(flat: seq<(SummaryKey, EntryPoint)>, key: SummaryKey): seq<EntryPoint> {
    if |flat| == 0 then []
    else (if flat[0].0 == key then [flat[0].1] else []) + EntriesFor(flat[1..], key)
  }

  lemma {:induction false} EntriesForNonEmpty(flat: seq<(SummaryKey, EntryPoint)>, key: SummaryKey)
    requires |EntriesFor(flat, key)| > 0
    ensures exists k :: 0 <= k < |flat| && flat[k].0 == key
    decreases |flat|
  {
    if flat[0].0 != key {
      EntriesForNonEmpty(flat[1..], key);
      var k :| 0 <= k < |flat[1..]| && flat[1..][k].0 == key;
      assert flat[k + 1].0 == key;
    }
  }

  /** The keys of the entries, each once, in order of first occurrence. */
  function DistinctKeys(flat: seq<(SummaryKey, EntryPoint)>): (r: seq<SummaryKey>)
    ensures NoDups(r)
    ensures forall k :: 0 <= k < |flat| ==> flat[k].0 in r
  {
    if |flat| == 0 then []
    else
      var rest := DistinctKeys(flat[..|flat| - 1]);
      var r := Insert(rest, flat[|flat| - 1].0);
      assert forall k :: 0 <= k < |flat| - 1 ==> flat[k] == flat[..|flat| - 1][k];
      r
  }

  type Group = (SummaryKey, seq<EntryPoint>)

  /** The keys with more than one entry point, with their entry points. */
  function MultiEntry(keys: seq<SummaryKey>, flat: seq<(SummaryKey, EntryPoint)>): (r: seq<Group>)
    ensures forall k :: 0 <= k < |r| ==> r[k].0 in keys && r[k].1 == EntriesFor(flat, r[k].0) && |r[k].1| > 1
  {
    if |keys| == 0 then []
    else
      var es := EntriesFor(flat, keys[0]);
      (if |es| > 1 then [(keys[0], es)] else []) + MultiEntry(keys[1..], flat)
  }

  /** Every key with more than one entry point has its group. */
  lemma {:induction false} MultiEntryComplete(keys: seq<SummaryKey>, flat: seq<(SummaryKey, EntryPoint)>, key: SummaryKey)
    requires key in keys && |EntriesFor(flat, key)| > 1
    ensures exists k :: 0 <= k < |MultiEntry(keys, flat)| && MultiEntry(keys, flat)[k].0 == key
    decreases |keys|
  {
    var r := MultiEntry(keys, flat);
    if key != keys[0] {
      MultiEntryComplete(keys[1..], flat, key);
      var rest := MultiEntry(keys[1..], flat);
      var k :| 0 <= k < |rest| && rest[k].0 == key;
      assert r[|r| - |rest| + k] == rest[k];
    } else {
      assert r[0].0 == key;
    }
  }

  /** Distinct keys give distinct groups. */
  lemma {:induction false} MultiEntryDistinct(keys: seq<SummaryKey>, flat: seq<(SummaryKey, EntryPoint)>)
    requires NoDups(keys)
    ensures forall i, j :: 0 <= i < j < |MultiEntry(keys, flat)| ==> MultiEntry(keys, flat)[i].0 != MultiEntry(keys, flat)[j].0
    decreases |keys|
  {
    if |keys| > 0 {
      var r := MultiEntry(keys, flat);
      var rest := MultiEntry(keys[1..], flat);
      assert NoDups(keys[1..]) by {
        forall i, j | 0 <= i < j < |keys[1..]| ensures keys[1..][i] != keys[1..][j] {
          assert keys[1..][i] == keys[i + 1] && keys[1..][j] == keys[j + 1];
        }
      }
      MultiEntryDistinct(keys[1..], flat);
      assert forall k :: 0 <= k < |rest| ==> rest[k].0 != keys[0] by {
        forall k | 0 <= k < |rest| ensures rest[k].0 != keys[0] {
          var i :| 0 <= i < |keys[1..]| && keys[1..][i] == rest[k].0;
          assert keys[i + 1] == rest[k].0;
        }
      }
    }
  }

  /** Groups sorted by number of entry points, largest first. */
  predicate SortedByCount(gs: seq<Group>) {
    forall i, j :: 0 <= i < j < |gs| ==> |gs[i].1| >= |gs[j].1|
  }

  /** No group has more than `n` entry points. */
  predicate AllAtMost(gs: seq<Group>, n: nat) {
    forall k :: 0 <= k < |gs| ==> |gs[k].1| <= n
  }

  /** Inserting before the first group with fewer entry points keeps the order, so groups
      of equal size keep their relative order. */
  function InsertByCount(g: Group, sorted: seq<Group>): (r: seq<Group>)
    requires SortedByCount(sorted)
    ensures SortedByCount(r)
    ensures multiset(r) == multiset(sorted) + multiset{g}
    ensures forall n: nat :: AllAtMost(sorted, n) && |g.1| <= n ==> AllAtMost(r, n)
  {
    if |sorted| == 0 then [g]
    else if |sorted[0].1| >= |g.1| then
      var rest := InsertByCount(g, sorted[1..]);
      assert sorted == [sorted[0]] + sorted[1..];
      ConsSorted(sorted, g, rest);
      [sorted[0]] + rest
    else
      FrontSorted(g, sorted);
      [g] + sorted
  }

  lemma FrontSorted(g: Group, sorted: seq<Group>)
    requires |sorted| > 0 && SortedByCount(sorted) && |g.1| > |sorted[0].1|
    ensures SortedByCount([g] + sorted)
    ensures forall n: nat :: AllAtMost(sorted, n) && |g.1| <= n ==> AllAtMost([g] + sorted, n)
  {
  }

  lemma ConsSorted(sorted: seq<Group>, g: Group, rest: seq<Group>)
    requires |sorted| > 0 && SortedByCount(sorted) && |g.1| <= |sorted[0].1|
    requires SortedByCount(rest)
    requires forall n: nat :: AllAtMost(sorted[1..], n) && |g.1| <= n ==> AllAtMost(rest, n)
    ensures SortedByCount([sorted[0]] + rest)
    ensures forall n: nat :: AllAtMost(sorted, n) && |g.1| <= n ==> AllAtMost([sorted[0]] + rest, n)
  {
    assert AllAtMost(sorted[1..], |sorted[0].1|);
    assert AllAtMost(rest, |sorted[0].1|);
    forall n: nat | AllAtMost(sorted, n) && |g.1| <= n ensures AllAtMost([sorted[0]] + rest, n) {
      assert AllAtMost(sorted[1..], n);
    }
  }

  function SortByCount(gs: seq<Group>): (r: seq<Group>)
    ensures SortedByCount(r)
    ensures multiset(r) == multiset(gs)
  {
    if |gs| == 0 then []
    else
      assert gs == gs[..|gs| - 1] + [gs[|gs| - 1]];
      InsertByCount(gs[|gs| - 1], SortByCount(gs[..|gs| - 1]))
  }

  /** The variables written through more than one entry point, with their entry points,
      most entry points first. */
  function StateModificationSummary(relations: seq<ContractRelation>): (r: seq<Group>)
    ensures forall k :: 0 <= k < |r| ==> |r[k].1| > 1 && r[k].1 == EntriesFor(EntriesOf(relations), r[k].0)
    ensures forall key :: |EntriesFor(EntriesOf(relations), key)| > 1 ==> exists k :: 0 <= k < |r| && r[k].0 == key
    ensures SortedByCount(r)
    ensures forall i, j :: 0 <= i < j < |r| ==> r[i].0 != r[j].0
  {
    var flat := EntriesOf(relations);
    var keys := DistinctKeys(flat);
    var groups := MultiEntry(keys, flat);
    var r := SortByCount(groups);
    forall key | |EntriesFor(flat, key)| > 1 ensures exists k :: 0 <= k < |r| && r[k].0 == key {
      EntriesForNonEmpty(flat, key);
      var i :| 0 <= i < |flat| && flat[i].0 == key;
      MultiEntryComplete(keys, flat, key);
      var k :| 0 <= k < |groups| && groups[k].0 == key;
      assert groups[k] in multiset(r);
    }
    forall k | 0 <= k < |r| ensures |r[k].1| > 1 && r[k].1 == EntriesFor(flat, r[k].0) {
      assert r[k] in multiset(groups);
    }
    MultiEntryDistinct(keys, flat);
    forall i, j | 0 <= i < j < |r| ensures r[i].0 != r[j].0 {
      SameKeySameGroup(groups, flat, r, i, j);
    }
    r
  }

  /** Two places of a permutation of distinct-keyed groups hold different keys. */
  lemma SameKeySameGroup(groups: seq<Group>, flat: seq<(SummaryKey, EntryPoint)>, r: seq<Group>, i: nat, j: nat)
    requires multiset(r) == multiset(groups)
    requires forall a, b :: 0 <= a < b < |groups| ==> groups[a].0 != groups[b].0
    requires forall k :: 0 <= k < |groups| ==> groups[k].1 == EntriesFor(flat, groups[k].0)
    requires i < j < |r|
    ensures r[i].0 != r[j].0
  {
    if r[i].0 == r[j].0 {
      assert r[i] in multiset(groups) && r[j] in multiset(groups);
      var a :| 0 <= a < |groups| && groups[a] == r[i];
      var b :| 0 <= b < |groups| && groups[b] == r[j];
      assert a == b;
      assert r[i] == r[j];
      assert multiset(r)[r[i]] >= 2 by {
        assert r == r[..i] + [r[i]] + r[i + 1..j] + [r[j]] + r[j + 1..];
      }
      NoDupsCount(groups, a);
    }
  }

  /** A group of a distinct-keyed list occurs once. */
  lemma {:induction false} NoDupsCount(groups: seq<Group>, a: nat)
    requires a < |groups|
    requires forall x, y :: 0 <= x < y < |groups| ==> groups[x].0 != groups[y].0
    ensures multiset(groups)[groups[a]] == 1
    decreases |groups|
  {
    var n := |groups| - 1;
    assert groups == groups[..n] + [groups[n]];
    if a < n {
      NoDupsCount(groups[..n], a);
      assert groups[n] != groups[a];
    } else {
      assert groups[a] !in groups[..n];
    }
  }

  // ---------------------------------------------------------------------------
  // Markdown names.

  /** The visibility words that mark a chain caption. */
  predicate HasVisibilityWord(s: string) {
    Contains(s, "internal") || Contains(s, "external") || Contains(s, "public") || Contains(s, "private")
  }

  /** A chain caption with a parenthesised visibility becomes the trimmed name in backticks
      followed by the visibility without trailing parentheses; anything else is trimmed
      and put in backticks whole. */
  function FormatFunctionWithBackticks(s: string): (r: string)
    ensures (!Contains(s, "(") || !HasVisibilityWord(s) || FindFirst(s, " (").None?) ==> r == "`" + Trim(s) + "`"
  {
    if Contains(s, "(") && HasVisibilityWord(s) then
      match FindFirst(s, " (")
      case Some(i) => "`" + Trim(s[..i]) + "` (" + TrimEndChar(s[i + 2..], ')') + ")"
      case None => "`" + Trim(s) + "`"
    else "`" + Trim(s) + "`"
  }

  /** A caption of the form the chain builder produces for an internal call is split at
      its first ` (`: the name part is the name trimmed, the visibility keeps everything
      up to the closing parenthesis. */
  lemma FormatInternalLabel(name: string, vis: string)
    requires !Contains(name, " (") && |name| > 0 && name[|name| - 1] != ' '
    requires HasVisibilityWord(vis) && (|vis| == 0 || vis[|vis| - 1] != ')')
    ensures FormatFunctionWithBackticks(name + " (" + vis + ")") == "`" + Trim(name) + "` (" + vis + ")"
  {
    var s := name + " (" + vis + ")";
    CaptionParts(name, vis, s);
    CaptionFormats(name, vis, s);
  }

  /** The same, for any text laid out as the name, ` (`, the visibility and `)`. */
  lemma CaptionFormats(name: string, vis: string, s: string)
    requires !Contains(name, " (") && |name| > 0 && name[|name| - 1] != ' '
    requires HasVisibilityWord(vis) && (|vis| == 0 || vis[|vis| - 1] != ')')
    requires |name| + 2 + |vis| <= |s| && s[..|name|] == name && s[|name|..|name| + 2] == " ("
    requires s[|name| + 2..|name| + 2 + |vis|] == vis && s[|name| + 2..] == vis + ")"
    ensures FormatFunctionWithBackticks(s) == "`" + Trim(name) + "` (" + vis + ")"
  {
    CaptionFacts(name, vis, s);
    TrimOneParen(vis);
    FormatAtOpen(s, |name|, name, vis + ")");
  }

  /** Such a text has a parenthesis, a visibility word, and its first ` (` after the name. */
  lemma CaptionFacts(name: string, vis: string, s: string)
    requires !Contains(name, " (") && |name| > 0 && name[|name| - 1] != ' '
    requires HasVisibilityWord(vis)
    requires |name| + 2 + |vis| <= |s| && s[..|name|] == name && s[|name|..|name| + 2] == " ("
    requires s[|name| + 2..|name| + 2 + |vis|] == vis
    ensures Contains(s, "(") && HasVisibilityWord(s) && FindFirst(s, " (") == Some(|name|)
  {
    assert Contains(" ("[1..], "(");
    ContainsPart(" (", s, |name|, "(");
    VisibilityWordKept(vis, s, |name| + 2);
    FirstOpenAfterName(name, s);
  }

  /** A caption with a parenthesis, a visibility word and its first ` (` at `i`. */
  lemma FormatAtOpen(s: string, i: nat, head: string, rest: string)
    requires Contains(s, "(") && HasVisibilityWord(s) && FindFirst(s, " (") == Some(i)
    requires i + 2 <= |s| && s[..i] == head && s[i + 2..] == rest
    ensures FormatFunctionWithBackticks(s) == "`" + Trim(head) + "` (" + TrimEndChar(rest, ')') + ")"
  {
  }

  /** Where the parts of a caption sit. */
  lemma CaptionParts(name: string, vis: string, s: string)
    requires s == name + " (" + vis + ")"
    ensures |name| + 2 + |vis| <= |s|
    ensures s[..|name|] == name
    ensures s[|name|..|name| + 2] == " ("
    ensures s[|name| + 2..|name| + 2 + |vis|] == vis
    ensures s[|name| + 2..] == vis + ")"
  {
    var tail := " (" + vis + ")";
    assert s == name + tail;
    assert s[|name|..] == tail;
    assert tail[2..] == vis + ")";
    assert tail[..2] == " (";
    assert s[|name|..|name| + 2] == tail[..2];
    assert s[|name| + 2..] == tail[2..];
    assert (vis + ")")[..|vis|] == vis;
    assert s[|name| + 2..|name| + 2 + |vis|] == tail[2..][..|vis|];
  }

  /** The first ` (` of the caption is the one right after the name. */
  lemma FirstOpenAfterName(name: string, s: string)
    requires !Contains(name, " (") && |name| > 0 && name[|name| - 1] != ' '
    requires |name| + 2 <= |s| && s[..|name|] == name && s[|name|..|name| + 2] == " ("
    ensures FindFirst(s, " (") == Some(|name|)
  {
    ContainsIffOccurs(name, " (");
    forall j | 0 <= j < |name| ensures !OccursAt(s, " (", j) {
      NotOpenBeforeName(name, s, j);
    }
    assert OccursAt(s, " (", |name|);
  }

  lemma NotOpenBeforeName(name: string, s: string, j: nat)
    requires forall i :: !OccursAt(name, " (", i)
    requires |name| > 0 && name[|name| - 1] != ' '
    requires |name| + 2 <= |s| && s[..|name|] == name
    requires j < |name|
    ensures !OccursAt(s, " (", j)
  {
    if j + 2 <= |name| {
      assert s[j..j + 2] == name[j..j + 2];
      assert !OccursAt(name, " (", j);
    } else {
      assert s[j..j + 2][0] == s[j] == name[j];
    }
  }

  lemma TrimOneParen(vis: string)
    requires |vis| == 0 || vis[|vis| - 1] != ')'
    ensures TrimEndChar(vis + ")", ')') == vis
  {
    assert (vis + ")")[..|vis|] == vis;
  }

  /** A string contains what a part of it contains. */
  lemma ContainsPart(part: string, s: string, at: nat, w: string)
    requires at + |part| <= |s| && s[at..at + |part|] == part
    requires Contains(part, w)
    ensures Contains(s, w)
  {
    ContainsIffOccurs(part, w);
    var i :| OccursAt(part, w, i);
    forall t | 0 <= t < |w| ensures s[at + i + t] == w[t] {
      assert s[at + i + t] == s[at..at + |part|][i + t] == part[i + t] == part[i..i + |w|][t];
    }
    assert s[at + i..at + i + |w|] == w;
    assert OccursAt(s, w, at + i);
    ContainsIffOccurs(s, w);
  }

  /** A visibility word inside a part of the caption is inside the caption. */
  lemma VisibilityWordKept(vis: string, s: string, at: nat)
    requires HasVisibilityWord(vis)
    requires at + |vis| <= |s| && s[at..at + |vis|] == vis
    ensures HasVisibilityWord(s)
  {
    if Contains(vis, "internal") {
      ContainsPart(vis, s, at, "internal");
    } else if Contains(vis, "external") {
      ContainsPart(vis, s, at, "external");
    } else if Contains(vis, "public") {
      ContainsPart(vis, s, at, "public");
    } else {
      ContainsPart(vis, s, at, "private");
    }
  }
}
