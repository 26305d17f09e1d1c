/** The call graph of a contract and, per state variable, the modification chains: each
    function that writes the variable directly, with every function that reaches it
    through calls (src/analyzer.rs). */
module Chains {
  import opened Wrappers
  import opened Collections
  import opened Records

  /** Function name to the functions it calls; for a repeated name the last function
      wins, as when a map is collected from the list. */
  type CallGraph = map<string, seq<string>>

  function BuildCallGraph(fns: seq<FunctionInfo>): (r: CallGraph)
    ensures r.Keys == FunctionNames(fns)
    ensures forall n :: n in r ==> FuncIndex(fns, n).Some? && r[n] == fns[FuncIndex(fns, n).value].callsFunctions
  {
    map n | n in FunctionNames(fns) :: fns[FuncIndex(fns, n).value].callsFunctions
  }

  /** `a` calls `b` according to the graph. */
  predicate Edge(cg: CallGraph, a: string, b: string) {
    a in cg && b in cg[a]
  }

  /** The state of the reverse search: callers pushed so far and targets expanded. */
  datatype Search = Search(chain: seq<Caller>, visited: set<string>)

  /** The caller record of a function. */
  function CallerOf(f: FunctionInfo): Caller {
    Caller(f.name, f.visibility)
  }

  /** Every function calling `t` has been expanded and pushed. */
  ghost predicate Closed(fns: seq<FunctionInfo>, cg: CallGraph, t: string, s: Search) {
    forall j :: 0 <= j < |fns| && Edge(cg, fns[j].name, t) ==> fns[j].name in s.visited && CallerOf(fns[j]) in s.chain
  }

  /** A pushed caller is a function that calls an expanded target. */
  ghost predicate PushedFor(fns: seq<FunctionInfo>, cg: CallGraph, c: Caller, visited: set<string>) {
    exists j :: 0 <= j < |fns| && c == CallerOf(fns[j]) && exists t :: t in visited && Edge(cg, fns[j].name, t)
  }

  /** Callers of `target`, depth first: a target is expanded once (the visited check
      comes first); every function whose call list names it is pushed, even if pushed
      before, and then expanded in turn. */
  function FindCallers(fns: seq<FunctionInfo>, cg: CallGraph, target: string, s: Search, ghost universe: set<string>)
    : (r: Search)
    requires target in universe && FunctionNames(fns) <= universe
    ensures s.visited <= r.visited && target in r.visited
    ensures s.chain <= r.chain
    ensures forall t :: t in r.visited && t !in s.visited ==> Closed(fns, cg, t, r)
    ensures forall k :: |s.chain| <= k < |r.chain| ==> PushedFor(fns, cg, r.chain[k], r.visited)
    ensures r.visited <= s.visited + universe
    ensures forall t :: t in r.visited && t !in s.visited ==> t == target || LeadsTo(cg, t, target)
    decreases |universe - s.visited|, 0, 0
  {
    if target in s.visited then s
    else
      var s' := Search(s.chain, s.visited + {target});
      RemainingShrinks(universe, s.visited, target);
      CallersFrom(fns, cg, target, 0, s', universe)
  }

  /** The scan of `FindCallers` from position `idx` of the function list. */
  function CallersFrom(fns: seq<FunctionInfo>, cg: CallGraph, target: string, idx: nat, s: Search,
                       ghost universe: set<string>): (r: Search)
    requires idx <= |fns| && target in s.visited && FunctionNames(fns) <= universe
    ensures s.visited <= r.visited
    ensures s.chain <= r.chain
    ensures forall j :: idx <= j < |fns| && Edge(cg, fns[j].name, target) ==>
              fns[j].name in r.visited && CallerOf(fns[j]) in r.chain
    ensures forall t :: t in r.visited && t !in s.visited ==> Closed(fns, cg, t, r)
    ensures forall k :: |s.chain| <= k < |r.chain| ==> PushedFor(fns, cg, r.chain[k], r.visited)
    ensures r.visited <= s.visited + universe
    ensures forall t :: t in r.visited && t !in s.visited ==> LeadsTo(cg, t, target)
    decreases |universe - s.visited|, 1, |fns| - idx
  {
    if idx == |fns| then s
    else
      var f := fns[idx];
      if f.name in cg && target in cg[f.name] then
        var s1 := Search(s.chain + [CallerOf(f)], s.visited);
        var s2 := FindCallers(fns, cg, f.name, s1, universe);
        RemainingMonotone(universe, s.visited, s2.visited);
        var r := CallersFrom(fns, cg, target, idx + 1, s2, universe);
        PushedPersists(fns, cg, s, s1, s2, r, idx, target);
        ClosedPersists(fns, cg, s1.visited, s2, r);
        forall t | t in s2.visited && t !in s.visited ensures LeadsTo(cg, t, target) {
          if t == f.name {
            LeadsToExtend(cg, t, target, target);
          } else {
            LeadsToAppend(cg, t, f.name, target);
          }
        }
        assert s1.chain[|s.chain|] == CallerOf(f);
        assert CallerOf(f) in r.chain;
        assert f.name in r.visited;
        r
      else
        CallersFrom(fns, cg, target, idx + 1, s, universe)
  }

  /** Closure facts survive further growth of the search. */
  lemma ClosedPersists(fns: seq<FunctionInfo>, cg: CallGraph, base: set<string>, mid: Search, r: Search)
    requires mid.visited <= r.visited && mid.chain <= r.chain
    requires forall t :: t in mid.visited && t !in base ==> Closed(fns, cg, t, mid)
    ensures forall t :: t in mid.visited && t !in base ==> Closed(fns, cg, t, r)
  {
    forall t | t in mid.visited && t !in base ensures Closed(fns, cg, t, r) {
      forall j | 0 <= j < |fns| && Edge(cg, fns[j].name, t)
        ensures fns[j].name in r.visited && CallerOf(fns[j]) in r.chain
      {
        assert CallerOf(fns[j]) in mid.chain;
      }
    }
  }

  /** The callers pushed in one step of the scan keep their justification. */
  lemma PushedPersists(fns: seq<FunctionInfo>, cg: CallGraph, s: Search, s1: Search, s2: Search, r: Search,
                       idx: nat, target: string)
    requires idx < |fns| && target in s.visited && Edge(cg, fns[idx].name, target)
    requires s1 == Search(s.chain + [CallerOf(fns[idx])], s.visited)
    requires s1.visited <= s2.visited <= r.visited && s1.chain <= s2.chain <= r.chain
    requires forall k :: |s1.chain| <= k < |s2.chain| ==> PushedFor(fns, cg, s2.chain[k], s2.visited)
    requires forall k :: |s2.chain| <= k < |r.chain| ==> PushedFor(fns, cg, r.chain[k], r.visited)
    ensures forall k :: |s.chain| <= k < |r.chain| ==> PushedFor(fns, cg, r.chain[k], r.visited)
  {
    forall k | |s.chain| <= k < |r.chain| ensures PushedFor(fns, cg, r.chain[k], r.visited) {
      if k == |s.chain| {
        assert r.chain[k] == s1.chain[k] == CallerOf(fns[idx]);
        assert target in r.visited && Edge(cg, fns[idx].name, target);
      } else if k < |s2.chain| {
        assert r.chain[k] == s2.chain[k];
        var j :| 0 <= j < |fns| && s2.chain[k] == CallerOf(fns[j]) && exists t :: t in s2.visited && Edge(cg, fns[j].name, t);
        var t :| t in s2.visited && Edge(cg, fns[j].name, t);
        assert t in r.visited;
      }
    }
  }

  /** Every function that reaches the target through calls, as found by the search;
      a function may be listed more than once. */
  function BuildReverseCallChain(target: string, fns: seq<FunctionInfo>, cg: CallGraph): (r: seq<Caller>)
    ensures forall k :: 0 <= k < |r| ==>
              exists j :: 0 <= j < |fns| && r[k] == CallerOf(fns[j]) && LeadsTo(cg, fns[j].name, target)
  {
    var universe := FunctionNames(fns) + {target};
    var s := FindCallers(fns, cg, target, Search([], {}), universe);
    forall k | 0 <= k < |s.chain|
      ensures exists j :: 0 <= j < |fns| && s.chain[k] == CallerOf(fns[j]) && LeadsTo(cg, fns[j].name, target)
    {
      assert PushedFor(fns, cg, s.chain[k], s.visited);
      var j :| 0 <= j < |fns| && s.chain[k] == CallerOf(fns[j]) && exists t :: t in s.visited && Edge(cg, fns[j].name, t);
      var t :| t in s.visited && Edge(cg, fns[j].name, t);
      LeadsToExtend(cg, fns[j].name, t, target);
    }
    assert forall k :: 0 <= k < |s.chain| ==>
              exists j :: 0 <= j < |fns| && s.chain[k] == CallerOf(fns[j]) && LeadsTo(cg, fns[j].name, target);
    s.chain
  }

  /** `p` is a chain of calls in the graph ending at `target`. */
  ghost predicate CallPath(cg: CallGraph, p: seq<string>, target: string) {
    && |p| >= 2
    && p[|p| - 1] == target
    && forall k :: 0 <= k < |p| - 1 ==> Edge(cg, p[k], p[k + 1])
  }

  /** Some chain of calls leads from `a` to `target`. */
  ghost predicate LeadsTo(cg: CallGraph, a: string, target: string) {
    exists p :: CallPath(cg, p, target) && p[0] == a
  }

  /** A call to `b`, where `b` is the target or leads to it, leads to the target. */
  lemma LeadsToExtend(cg: CallGraph, a: string, b: string, target: string)
    requires Edge(cg, a, b) && (b == target || LeadsTo(cg, b, target))
    ensures LeadsTo(cg, a, target)
  {
    if b == target {
      assert CallPath(cg, [a, target], target);
    } else {
      var p :| CallPath(cg, p, target) && p[0] == b;
      var q := [a] + p;
      forall k | 0 <= k < |q| - 1 ensures Edge(cg, q[k], q[k + 1]) {
        if k > 0 {
          assert q[k] == p[k - 1] && q[k + 1] == p[k];
        }
      }
      assert CallPath(cg, q, target);
    }
  }

  /** A chain leading to a caller of the target leads on to the target. */
  lemma LeadsToAppend(cg: CallGraph, a: string, b: string, target: string)
    requires LeadsTo(cg, a, b) && Edge(cg, b, target)
    ensures LeadsTo(cg, a, target)
  {
    var p :| CallPath(cg, p, b) && p[0] == a;
    var q := p + [target];
    forall k | 0 <= k < |q| - 1 ensures Edge(cg, q[k], q[k + 1]) {
      if k < |p| - 1 {
        assert q[k] == p[k] && q[k + 1] == p[k + 1];
      } else {
        assert q[k] == b && q[k + 1] == target;
      }
    }
    assert CallPath(cg, q, target);
  }

  /** The reverse chain is complete: every function from which a chain of calls leads
      to the target is in it. */
  lemma ReverseChainComplete(target: string, fns: seq<FunctionInfo>, cg: CallGraph, p: seq<string>, j: nat)
    requires cg.Keys <= FunctionNames(fns)
    requires CallPath(cg, p, target)
    requires j < |fns| && fns[j].name == p[0]
    ensures CallerOf(fns[j]) in BuildReverseCallChain(target, fns, cg)
  {
    var universe := FunctionNames(fns) + {target};
    var s := FindCallers(fns, cg, target, Search([], {}), universe);
    SuffixVisited(fns, cg, target, p, s, 1);
    assert Closed(fns, cg, p[1], s);
    assert Edge(cg, fns[j].name, p[1]);
  }

  /** A function of the contract is in the reverse chain exactly when a chain of calls
      leads from it to the target. */
  lemma ReverseChainExact(target: string, fns: seq<FunctionInfo>, cg: CallGraph, j: nat)
    requires cg.Keys <= FunctionNames(fns)
    requires j < |fns|
    ensures CallerOf(fns[j]) in BuildReverseCallChain(target, fns, cg) <==> LeadsTo(cg, fns[j].name, target)
  {
    var r := BuildReverseCallChain(target, fns, cg);
    if LeadsTo(cg, fns[j].name, target) {
      var p :| CallPath(cg, p, target) && p[0] == fns[j].name;
      ReverseChainComplete(target, fns, cg, p, j);
    }
    if CallerOf(fns[j]) in r {
      var k :| 0 <= k < |r| && r[k] == CallerOf(fns[j]);
      var i :| 0 <= i < |fns| && r[k] == CallerOf(fns[i]) && LeadsTo(cg, fns[i].name, target);
      assert fns[i].name == fns[j].name;
    }
  }

  /** Walking a call path backwards from the target, every node after the first is
      expanded. */
  lemma {:induction false} SuffixVisited(fns: seq<FunctionInfo>, cg: CallGraph, target: string, p: seq<string>,
                                         s: Search, k: nat)
    requires cg.Keys <= FunctionNames(fns)
    requires CallPath(cg, p, target)
    requires target in s.visited
    requires forall t :: t in s.visited ==> Closed(fns, cg, t, s)
    requires 1 <= k < |p|
    ensures p[k] in s.visited
    decreases |p| - k
  {
    if k < |p| - 1 {
      SuffixVisited(fns, cg, target, p, s, k + 1);
      assert Edge(cg, p[k], p[k + 1]);
      var j :| 0 <= j < |fns| && fns[j].name == p[k];
      assert Closed(fns, cg, p[k + 1], s);
    }
  }

  /** A chain for one direct writer. */
  function ChainFor(f: FunctionInfo, fns: seq<FunctionInfo>, cg: CallGraph): (r: ModificationChain)
    ensures r.directModifier == f.name && r.directModifierVisibility == f.visibility
  {
    ModificationChain(f.name, f.visibility, BuildReverseCallChain(f.name, fns, cg))
  }

  /** Positions of the functions that write `v` directly, in increasing order. */
  function WriterPositions(fns: seq<FunctionInfo>, v: string, from: nat): (r: seq<nat>)
    requires from <= |fns|
    ensures forall k :: 0 <= k < |r| ==> from <= r[k] < |fns| && v in fns[r[k]].modifiesStates
    ensures forall j :: from <= j < |fns| && v in fns[j].modifiesStates ==> j in r
    ensures forall a, b :: 0 <= a < b < |r| ==> r[a] < r[b]
    decreases |fns| - from
  {
    if from == |fns| then []
    else if v in fns[from].modifiesStates then [from] + WriterPositions(fns, v, from + 1)
    else WriterPositions(fns, v, from + 1)
  }

  /** One chain per function that writes `v` directly, in function order. */
  function BuildModificationChains(v: string, fns: seq<FunctionInfo>, cg: CallGraph): (r: seq<ModificationChain>)
    ensures var ws := WriterPositions(fns, v, 0);
            && |r| == |ws|
            && forall k :: 0 <= k < |r| ==> r[k] == ChainFor(fns[ws[k]], fns, cg)
  {
    ChainsFrom(v, fns, cg, 0)
  }

  function ChainsFrom(v: string, fns: seq<FunctionInfo>, cg: CallGraph, from: nat): (r: seq<ModificationChain>)
    requires from <= |fns|
    ensures var ws := WriterPositions(fns, v, from);
            && |r| == |ws|
            && forall k :: 0 <= k < |r| ==> r[k] == ChainFor(fns[ws[k]], fns, cg)
    decreases |fns| - from
  {
    if from == |fns| then []
    else
      var rest := ChainsFrom(v, fns, cg, from + 1);
      if v in fns[from].modifiesStates then
        ChainsCons(v, fns, cg, from, rest);
        [ChainFor(fns[from], fns, cg)] + rest
      else
        assert WriterPositions(fns, v, from) == WriterPositions(fns, v, from + 1);
        rest
  }

  /** A writer at `from` puts its chain in front of the chains of the later writers. */
  lemma ChainsCons(v: string, fns: seq<FunctionInfo>, cg: CallGraph, from: nat, rest: seq<ModificationChain>)
    requires from < |fns| && v in fns[from].modifiesStates
    requires var ws := WriterPositions(fns, v, from + 1);
             && |rest| == |ws|
             && forall k :: 0 <= k < |rest| ==> rest[k] == ChainFor(fns[ws[k]], fns, cg)
    ensures var ws := WriterPositions(fns, v, from);
            var r := [ChainFor(fns[from], fns, cg)] + rest;
            && |r| == |ws|
            && forall k :: 0 <= k < |r| ==> r[k] == ChainFor(fns[ws[k]], fns, cg)
  {
    var ws' := WriterPositions(fns, v, from + 1);
    var ws := WriterPositions(fns, v, from);
    var r := [ChainFor(fns[from], fns, cg)] + rest;
    assert ws == [from] + ws';
    forall k | 1 <= k < |r| ensures r[k] == ChainFor(fns[ws[k]], fns, cg) {
      assert r[k] == rest[k - 1] && ws[k] == ws'[k - 1];
    }
  }
}
