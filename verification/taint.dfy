/** The taint engine's assembly (src/dataflow.rs): how severe a flow is, which traced
    sources reach which sinks, how each parameter influences state, and the per-contract
    analysis that runs all of these over every function with a body. */
module Taint {
  import opened Wrappers
  import opened Strings
  import opened Ast
  import opened Collections
  import opened Records
  import opened TaintTypes
  import opened FlowGraph
  import TaintScan
  import Validations
  import Influence

  // ---------------------------------------------------------------------------
  // Severity.

  /** Parameters reaching `delegatecall` or `selfdestruct` are critical; reaching an
      external call or a value transfer, high; reaching a state write, medium; the sender
      reaching `delegatecall`, medium; everything else, low. */
  function AssessSeverity(source: TaintSource, sink: TaintSink): (r: Severity)
    ensures r == Critical <==> source.FunctionParameter? && (sink.DelegateCall? || sink.SelfDestruct?)
    ensures r == High <==> source.FunctionParameter? && (sink.ExternalCallSink? || sink.ValueTransfer?)
    ensures r == Medium <==> || (source.FunctionParameter? && sink.StateModification?)
                             || (source.MsgSender? && sink.DelegateCall?)
    ensures r != Info
  {
    match (source, sink)
    case (FunctionParameter(_, _, _), DelegateCall(_)) => Critical
    case (FunctionParameter(_, _, _), SelfDestruct(_)) => Critical
    case (FunctionParameter(_, _, _), ExternalCallSink(_, _)) => High
    case (FunctionParameter(_, _, _), ValueTransfer(_)) => High
    case (FunctionParameter(_, _, _), StateModification(_, _)) => Medium
    case (MsgSender, DelegateCall(_)) => Medium
    case _ => Low
  }

  function SeverityRank(s: Severity): nat {
    match s
    case Info => 0
    case Low => 1
    case Medium => 2
    case High => 3
    case Critical => 4
  }

  /** For any sink, a parameter is at least as severe a source as any other. */
  lemma ParameterMostSevere(p: TaintSource, other: TaintSource, sink: TaintSink)
    requires p.FunctionParameter?
    ensures SeverityRank(AssessSeverity(other, sink)) <= SeverityRank(AssessSeverity(p, sink))
  {
  }

  // ---------------------------------------------------------------------------
  // Flows.

  /** The variable a source is traced from: a parameter by its name, the three message
      fields by their Solidity spelling; other sources are not traced. */
  function SourceVar(s: TaintSource): Option<string> {
    match s
    case FunctionParameter(_, _, n) => Some(n)
    case MsgSender => Some("msg.sender")
    case MsgValue => Some("msg.value")
    case MsgData => Some("msg.data")
    case _ => None
  }

  /** The variable a sink is matched by. */
  function SinkVar(k: TaintSink): string {
    match k
    case StateModification(v, _) => v
    case ExternalCallSink(t, _) => t
    case ValueTransfer(t) => t
    case DelegateCall(t) => t
    case SelfDestruct(t) => t
    case ArrayIndex(a) => a
  }

  /** The source is traced and flows into the sink's variable in the graph. */
  ghost predicate Taints(g: Graph, stateVars: set<string>, source: TaintSource, sink: TaintSink) {
    SourceVar(source).Some? && Influences(g, SourceVar(source).value, stateVars, SinkVar(sink))
  }

  /** What identifies a reported flow: source, sink and function. */
  type FlowKey = (TaintSource, TaintSink, string)

  function Keys(fs: seq<TaintFlow>): (r: seq<FlowKey>)
    ensures |r| == |fs|
    ensures forall k :: 0 <= k < |fs| ==> r[k] == (fs[k].source, fs[k].sink, fs[k].functionName)
  {
    seq(|fs|, k requires 0 <= k < |fs| => (fs[k].source, fs[k].sink, fs[k].functionName))
  }

  lemma KeysAppend(a: seq<TaintFlow>, b: seq<TaintFlow>)
    ensures Keys(a + b) == Keys(a) + Keys(b)
  {
  }

  /** The flows of one source, in sink order: one per sink it taints. */
  ghost function SinkHits(fname: string, source: TaintSource, sinks: seq<TaintSink>, g: Graph,
                          stateVars: set<string>): seq<FlowKey>
    decreases |sinks|
  {
    if |sinks| == 0 then []
    else
      var last := sinks[|sinks| - 1];
      SinkHits(fname, source, sinks[..|sinks| - 1], g, stateVars)
        + (if Taints(g, stateVars, source, last) then [(source, last, fname)] else [])
  }

  /** The flows of a function, source by source. */
  ghost function FlowKeys(fname: string, sources: seq<TaintSource>, sinks: seq<TaintSink>, g: Graph,
                          stateVars: set<string>): seq<FlowKey>
    decreases |sources|
  {
    if |sources| == 0 then []
    else
      FlowKeys(fname, sources[..|sources| - 1], sinks, g, stateVars)
        + SinkHits(fname, sources[|sources| - 1], sinks, g, stateVars)
  }

  /** A reported flow is real: its source flows into its sink's variable in the body's
      graph, its path is a duplicate-free path of that graph between the two, it is
      validated exactly when some validated name contains the source's, and its severity
      is the assessed one. */
  ghost predicate FlowOk(x: TaintFlow, body: Option<Stmt>, stateVars: set<string>) {
    var g := BuildVariableFlowGraph(body);
    && Taints(g, stateVars, x.source, x.sink)
    && var src := SourceVar(x.source).value;
       && |x.path| >= 1 && x.path[0] == src && x.path[|x.path| - 1] == SinkVar(x.sink)
       && IsPath(g, x.path) && NoDups(x.path)
       && x.isValidated == Validations.IsValidated(Validations.DetectValidations(body), src)
       && x.severity == AssessSeverity(x.source, x.sink)
  }

  /** Each flow belongs to the function and is real. */
  ghost predicate AllOk(fs: seq<TaintFlow>, fname: string, body: Option<Stmt>, stateVars: set<string>) {
    forall k :: 0 <= k < |fs| ==> fs[k].functionName == fname && FlowOk(fs[k], body, stateVars)
  }

  lemma AllOkAppend(a: seq<TaintFlow>, b: seq<TaintFlow>, fname: string, body: Option<Stmt>, stateVars: set<string>)
    requires AllOk(a, fname, body, stateVars) && AllOk(b, fname, body, stateVars)
    ensures AllOk(a + b, fname, body, stateVars)
  {
    forall k | 0 <= k < |a + b| ensures (a + b)[k].functionName == fname && FlowOk((a + b)[k], body, stateVars) {
      if k >= |a| {
        assert (a + b)[k] == b[k - |a|];
      }
    }
  }

  /** The flows of one function: for each traced source in order, each sink in order whose
      variable the source flows into, with a witness path through the body's graph. */
  method BuildTaintFlows(f: FunctionInfo, body: Option<Stmt>, sources: seq<TaintSource>,
                         sinks: seq<TaintSink>, stateVars: set<string>) returns (r: seq<TaintFlow>)
    ensures Keys(r) == FlowKeys(f.name, sources, sinks, BuildVariableFlowGraph(body), stateVars)
    ensures forall k :: 0 <= k < |r| ==> r[k].functionName == f.name && FlowOk(r[k], body, stateVars)
  {
    var g := BuildVariableFlowGraph(body);
    var vals := Validations.DetectValidations(body);
    r := [];
    var i := 0;
    while i < |sources|
      invariant 0 <= i <= |sources|
      invariant Keys(r) == FlowKeys(f.name, sources[..i], sinks, g, stateVars)
      invariant AllOk(r, f.name, body, stateVars)
    {
      var hits := FlowsOfSource(f, body, g, vals, sources[i], sinks, stateVars);
      KeysAppend(r, hits);
      AllOkAppend(r, hits, f.name, body, stateVars);
      FlowKeysStep(f.name, sources, i, sinks, g, stateVars);
      r := r + hits;
      i := i + 1;
    }
    assert sources[..i] == sources;
  }

  lemma FlowKeysStep(fname: string, sources: seq<TaintSource>, i: nat, sinks: seq<TaintSink>, g: Graph,
                     stateVars: set<string>)
    requires i < |sources|
    ensures FlowKeys(fname, sources[..i + 1], sinks, g, stateVars)
            == FlowKeys(fname, sources[..i], sinks, g, stateVars) + SinkHits(fname, sources[i], sinks, g, stateVars)
  {
    assert sources[..i + 1][..i] == sources[..i];
  }

  /** The flows of one source into the sinks, in sink order. */
  method FlowsOfSource(f: FunctionInfo, body: Option<Stmt>, g: Graph, vals: seq<string>, source: TaintSource,
                       sinks: seq<TaintSink>, stateVars: set<string>) returns (r: seq<TaintFlow>)
    requires g == BuildVariableFlowGraph(body) && vals == Validations.DetectValidations(body)
    ensures Keys(r) == SinkHits(f.name, source, sinks, g, stateVars)
    ensures AllOk(r, f.name, body, stateVars)
  {
    r := [];
    match SourceVar(source) {
      case None =>
        NoHitsUntraced(f.name, source, sinks, g, stateVars);
      case Some(src) =>
        var infl := TraceVariableInfluence(src, g, stateVars);
        var j := 0;
        while j < |sinks|
          invariant 0 <= j <= |sinks|
          invariant Keys(r) == SinkHits(f.name, source, sinks[..j], g, stateVars)
          invariant AllOk(r, f.name, body, stateVars)
        {
          var hit := FlowToSink(f, body, g, vals, source, src, infl, sinks[j], stateVars);
          HitsStep(f.name, source, sinks, j, g, stateVars);
          KeysAppend(r, hit);
          AllOkAppend(r, hit, f.name, body, stateVars);
          r := r + hit;
          j := j + 1;
        }
        assert sinks[..j] == sinks;
    }
  }

  /** The flow of a traced source into one sink, if its variable is among those the
      source flows into. */
  method FlowToSink(f: FunctionInfo, body: Option<Stmt>, g: Graph, vals: seq<string>, source: TaintSource,
                    src: string, infl: set<string>, sink: TaintSink, stateVars: set<string>)
    returns (r: seq<TaintFlow>)
    requires g == BuildVariableFlowGraph(body) && vals == Validations.DetectValidations(body)
    requires SourceVar(source) == Some(src) && infl == Influenced(g, src, stateVars)
    ensures Keys(r) == if Taints(g, stateVars, source, sink) then [(source, sink, f.name)] else []
    ensures AllOk(r, f.name, body, stateVars)
  {
    var dst := SinkVar(sink);
    InInfluenced(g, src, stateVars, dst);
    if dst in infl {
      var path := BuildFlowPath(src, dst, g);
      var x := TaintFlow(source, sink, f.name, path, Validations.IsValidated(vals, src), AssessSeverity(source, sink));
      FlowOkIntro(x, body, stateVars, src);
      r := [x];
    } else {
      r := [];
    }
  }

  lemma HitsStep(fname: string, source: TaintSource, sinks: seq<TaintSink>, j: nat, g: Graph, stateVars: set<string>)
    requires j < |sinks|
    ensures SinkHits(fname, source, sinks[..j + 1], g, stateVars)
            == SinkHits(fname, source, sinks[..j], g, stateVars)
               + (if Taints(g, stateVars, source, sinks[j]) then [(source, sinks[j], fname)] else [])
  {
    assert sinks[..j + 1][..j] == sinks[..j];
  }

  /** A flow built from a traced source, a sink its source flows into and a witness path
      is real. */
  lemma FlowOkIntro(x: TaintFlow, body: Option<Stmt>, stateVars: set<string>, src: string)
    requires SourceVar(x.source) == Some(src)
    requires Influences(BuildVariableFlowGraph(body), src, stateVars, SinkVar(x.sink))
    requires |x.path| >= 1 && x.path[0] == src && x.path[|x.path| - 1] == SinkVar(x.sink)
    requires IsPath(BuildVariableFlowGraph(body), x.path) <==> Reaches(BuildVariableFlowGraph(body), src, SinkVar(x.sink))
    requires NoDups(x.path)
    requires x.isValidated == Validations.IsValidated(Validations.DetectValidations(body), src)
    requires x.severity == AssessSeverity(x.source, x.sink)
    ensures FlowOk(x, body, stateVars)
  {
    InfluencedReached(BuildVariableFlowGraph(body), src, stateVars, SinkVar(x.sink));
  }

  lemma {:induction false} NoHitsUntraced(fname: string, source: TaintSource, sinks: seq<TaintSink>, g: Graph,
                                          stateVars: set<string>)
    requires SourceVar(source).None?
    ensures SinkHits(fname, source, sinks, g, stateVars) == []
    decreases |sinks|
  {
    if |sinks| > 0 {
      NoHitsUntraced(fname, source, sinks[..|sinks| - 1], g, stateVars);
    }
  }

  /** A traced source and a sink form a flow exactly when the source flows into the sink's
      variable. */
  lemma {:induction false} FlowIffTainted(fname: string, sources: seq<TaintSource>, sinks: seq<TaintSink>,
                                          g: Graph, stateVars: set<string>, source: TaintSource, sink: TaintSink)
    requires source in sources && sink in sinks
    ensures (source, sink, fname) in FlowKeys(fname, sources, sinks, g, stateVars) <==> Taints(g, stateVars, source, sink)
    decreases |sources|
  {
    var n := |sources|;
    var front := sources[..n - 1];
    var last := sources[n - 1];
    assert sources == front + [last];
    assert FlowKeys(fname, sources, sinks, g, stateVars)
           == FlowKeys(fname, front, sinks, g, stateVars) + SinkHits(fname, last, sinks, g, stateVars);
    HitsIffTainted(fname, last, sinks, g, stateVars, sink);
    if source in front {
      FlowIffTainted(fname, front, sinks, g, stateVars, source, sink);
      SinkHitsSource(fname, last, sinks, g, stateVars);
    } else {
      assert source == last;
      FlowKeysSources(fname, front, sinks, g, stateVars);
    }
  }

  lemma {:induction false} HitsIffTainted(fname: string, source: TaintSource, sinks: seq<TaintSink>, g: Graph,
                                          stateVars: set<string>, sink: TaintSink)
    ensures sink in sinks ==> ((source, sink, fname) in SinkHits(fname, source, sinks, g, stateVars)
                               <==> Taints(g, stateVars, source, sink))
    ensures sink !in sinks ==> (source, sink, fname) !in SinkHits(fname, source, sinks, g, stateVars)
    decreases |sinks|
  {
    if |sinks| > 0 {
      var front := sinks[..|sinks| - 1];
      assert sinks == front + [sinks[|sinks| - 1]];
      HitsIffTainted(fname, source, front, g, stateVars, sink);
    }
  }

  /** Every flow of a function comes from one of its sources. */
  lemma {:induction false} FlowKeysSources(fname: string, sources: seq<TaintSource>, sinks: seq<TaintSink>,
                                           g: Graph, stateVars: set<string>)
    ensures forall x :: x in FlowKeys(fname, sources, sinks, g, stateVars) ==> x.0 in sources
    decreases |sources|
  {
    if |sources| > 0 {
      var front := sources[..|sources| - 1];
      var last := sources[|sources| - 1];
      FlowKeysSources(fname, front, sinks, g, stateVars);
      SinkHitsSource(fname, last, sinks, g, stateVars);
      assert sources == front + [last];
    }
  }

  lemma {:induction false} SinkHitsSource(fname: string, source: TaintSource, sinks: seq<TaintSink>, g: Graph,
                                          stateVars: set<string>)
    ensures forall x :: x in SinkHits(fname, source, sinks, g, stateVars) ==> x.0 == source
    decreases |sinks|
  {
    if |sinks| > 0 {
      SinkHitsSource(fname, source, sinks[..|sinks| - 1], g, stateVars);
    }
  }

  // ---------------------------------------------------------------------------
  // Parameter influence.

  /** The name tokens of the parameters that have one, in order. */
  function NamedParams(params: seq<string>): (r: seq<string>)
    ensures forall k :: 0 <= k < |r| ==> r[k] != ""
    ensures |r| <= |params|
  {
    NonEmpty(TaintScan.ParamTokens(params))
  }

  /** The non-empty strings of a list, in order. */
  function NonEmpty(ts: seq<string>): (r: seq<string>)
    ensures forall k :: 0 <= k < |r| ==> r[k] != ""
    ensures |r| <= |ts|
  {
    if |ts| == 0 then []
    else (if ts[0] != "" then [ts[0]] else []) + NonEmpty(ts[1..])
  }

  /** The names are exactly the non-empty name tokens. */
  lemma NamedParamsSpec(params: seq<string>)
    ensures forall x :: x in NamedParams(params) <==> x in TaintScan.ParamTokens(params) && x != ""
  {
    NonEmptySpec(TaintScan.ParamTokens(params));
  }

  lemma {:induction false} NonEmptySpec(ts: seq<string>)
    ensures forall x :: x in NonEmpty(ts) <==> x in ts && x != ""
    decreases |ts|
  {
    if |ts| > 0 {
      NonEmptySpec(ts[1..]);
      assert forall x :: x in ts <==> x == ts[0] || x in ts[1..];
    }
  }

  /** Some record of `r` is about the parameter at position `i`. */
  ghost predicate RecordsIndex(r: seq<ParameterInfluence>, i: nat) {
    exists k :: 0 <= k < |r| && r[k].paramIndex == i
  }

  /** The parameter at position `i` reaches some state variable. */
  ghost predicate ReachesState(names: seq<string>, i: nat, body: Option<Stmt>, stateVars: set<string>)
    requires i < |names|
  {
    Influenced(BuildVariableFlowGraph(body), names[i], stateVars) != {}
  }

  /** The influence records of the named parameters, one per parameter that flows into a
      state variable, numbered by position among the named parameters. */
  ghost function ExpectedInfluences(fname: string, names: seq<string>, body: Option<Stmt>,
                                    stateVars: set<string>): (r: seq<ParameterInfluence>)
    ensures forall k :: 0 <= k < |r| ==> r[k].paramIndex < |names|
    ensures forall a, b :: 0 <= a < b < |r| ==> r[a].paramIndex < r[b].paramIndex
    ensures forall i :: 0 <= i < |names| ==> (ReachesState(names, i, body, stateVars) <==> RecordsIndex(r, i))
    decreases |names|
  {
    if |names| == 0 then []
    else
      var i := |names| - 1;
      var reached := Influenced(BuildVariableFlowGraph(body), names[i], stateVars);
      var prev := ExpectedInfluences(fname, names[..i], body, stateVars);
      var tail := if reached == {} then []
                  else [ParameterInfluence(fname, i, names[i], reached,
                                           Influence.DetermineInfluenceType(names[i], reached, body, stateVars,
                                                                            Influence.AnyOperand))];
      IndicesAppend(prev, tail, i);
      PrefixReaches(names, i, body, stateVars);
      prev + tail
  }

  /** Appending at most one record for position `i` after records of earlier positions
      keeps the positions increasing and adds exactly position `i` when it appends. */
  lemma IndicesAppend(prev: seq<ParameterInfluence>, tail: seq<ParameterInfluence>, i: nat)
    requires forall k :: 0 <= k < |prev| ==> prev[k].paramIndex < i
    requires forall a, b :: 0 <= a < b < |prev| ==> prev[a].paramIndex < prev[b].paramIndex
    requires |tail| <= 1 && forall k :: 0 <= k < |tail| ==> tail[k].paramIndex == i
    ensures forall k :: 0 <= k < |prev + tail| ==> (prev + tail)[k].paramIndex <= i
    ensures forall a, b :: 0 <= a < b < |prev + tail| ==> (prev + tail)[a].paramIndex < (prev + tail)[b].paramIndex
    ensures forall j: nat :: RecordsIndex(prev + tail, j) <==> RecordsIndex(prev, j) || (j == i && |tail| == 1)
  {
    var r := prev + tail;
    forall j: nat ensures RecordsIndex(r, j) <==> RecordsIndex(prev, j) || (j == i && |tail| == 1) {
      if RecordsIndex(prev, j) {
        var k :| 0 <= k < |prev| && prev[k].paramIndex == j;
        assert r[k] == prev[k];
      }
      if j == i && |tail| == 1 {
        assert r[|prev|] == tail[0];
      }
      if RecordsIndex(r, j) {
        var k :| 0 <= k < |r| && r[k].paramIndex == j;
        if k < |prev| {
          assert r[k] == prev[k];
        }
      }
    }
  }

  /** A position before `i` reaches state in `names` exactly when it does in the first
      `i` names. */
  lemma PrefixReaches(names: seq<string>, i: nat, body: Option<Stmt>, stateVars: set<string>)
    requires i <= |names|
    ensures forall j :: 0 <= j < i ==> (ReachesState(names[..i], j, body, stateVars) <==> ReachesState(names, j, body, stateVars))
  {
    assert forall j :: 0 <= j < i ==> names[..i][j] == names[j];
  }

  /** How each named parameter of a function influences state. */
  method AnalyzeParameterInfluence(f: FunctionInfo, body: Option<Stmt>, stateVars: set<string>)
    returns (r: seq<ParameterInfluence>)
    ensures r == ExpectedInfluences(f.name, NamedParams(f.parameters), body, stateVars)
  {
    var names := NamedParams(f.parameters);
    var g := BuildVariableFlowGraph(body);
    r := [];
    var i := 0;
    while i < |names|
      invariant 0 <= i <= |names|
      invariant r == ExpectedInfluences(f.name, names[..i], body, stateVars)
    {
      InfluencesStep(f.name, names, i, body, stateVars);
      var reached := TraceVariableInfluence(names[i], g, stateVars);
      if reached != {} {
        var t := Influence.DetermineInfluenceType(names[i], reached, body, stateVars, Influence.AnyOperand);
        r := r + [ParameterInfluence(f.name, i, names[i], reached, t)];
      }
      i := i + 1;
    }
    assert names[..i] == names;
  }

  lemma InfluencesStep(fname: string, names: seq<string>, i: nat, body: Option<Stmt>, stateVars: set<string>)
    requires i < |names|
    ensures var reached := Influenced(BuildVariableFlowGraph(body), names[i], stateVars);
            ExpectedInfluences(fname, names[..i + 1], body, stateVars)
            == ExpectedInfluences(fname, names[..i], body, stateVars)
               + if reached == {} then []
                 else [ParameterInfluence(fname, i, names[i], reached,
                                          Influence.DetermineInfluenceType(names[i], reached, body, stateVars,
                                                                           Influence.AnyOperand))]
  {
    assert names[..i + 1][..i] == names[..i];
  }

  /** Every influence record names a parameter by its position, reaches some state, and
      reaching more would never make its type weaker. */
  lemma {:induction false} InfluencesWellFormed(fname: string, names: seq<string>, body: Option<Stmt>,
                                                stateVars: set<string>)
    ensures forall x :: x in ExpectedInfluences(fname, names, body, stateVars) ==>
              && x.functionName == fname && x.paramIndex < |names| && x.paramName == names[x.paramIndex]
              && x.influencedStateVars != {}
              && x.influencedStateVars == Influenced(BuildVariableFlowGraph(body), x.paramName, stateVars)
    decreases |names|
  {
    if |names| > 0 {
      var i := |names| - 1;
      InfluencesWellFormed(fname, names[..i], body, stateVars);
    }
  }

  // ---------------------------------------------------------------------------
  // The contract.

  /** The names of a contract's state variables. */
  function StateVarNames(c: ContractInfo): (r: set<string>)
    ensures forall k :: 0 <= k < |c.stateVariables| ==> c.stateVariables[k].name in r
    ensures forall n :: n in r ==> exists k :: 0 <= k < |c.stateVariables| && c.stateVariables[k].name == n
  {
    set k | 0 <= k < |c.stateVariables| :: c.stateVariables[k].name
  }

  /** The flows of the functions that have a body, function by function. */
  ghost function AllFlowKeys(fns: seq<FunctionInfo>, bodies: map<string, Option<Stmt>>,
                             stateVars: set<string>): seq<FlowKey>
    decreases |fns|
  {
    if |fns| == 0 then []
    else
      var f := fns[|fns| - 1];
      AllFlowKeys(fns[..|fns| - 1], bodies, stateVars)
        + if f.name in bodies then
            var body := bodies[f.name];
            FlowKeys(f.name, TaintScan.IdentifyTaintSources(f, body),
                     TaintScan.IdentifyTaintSinks(f, body, stateVars), BuildVariableFlowGraph(body), stateVars)
          else []
  }

  /** The influence records of the functions that have a body, function by function. */
  ghost function AllInfluences(fns: seq<FunctionInfo>, bodies: map<string, Option<Stmt>>,
                               stateVars: set<string>): seq<ParameterInfluence>
    decreases |fns|
  {
    if |fns| == 0 then []
    else
      var f := fns[|fns| - 1];
      AllInfluences(fns[..|fns| - 1], bodies, stateVars)
        + if f.name in bodies then ExpectedInfluences(f.name, NamedParams(f.parameters), bodies[f.name], stateVars)
          else []
  }

  /** Each flow belongs to a function with a body and is real in that body. */
  ghost predicate ContractOk(fs: seq<TaintFlow>, bodies: map<string, Option<Stmt>>, stateVars: set<string>) {
    forall k :: 0 <= k < |fs| ==> fs[k].functionName in bodies && FlowOk(fs[k], bodies[fs[k].functionName], stateVars)
  }

  lemma ContractOkAppend(a: seq<TaintFlow>, b: seq<TaintFlow>, fname: string, bodies: map<string, Option<Stmt>>,
                         stateVars: set<string>)
    requires ContractOk(a, bodies, stateVars)
    requires fname in bodies && AllOk(b, fname, bodies[fname], stateVars)
    ensures ContractOk(a + b, bodies, stateVars)
  {
    forall k | 0 <= k < |a + b|
      ensures (a + b)[k].functionName in bodies && FlowOk((a + b)[k], bodies[(a + b)[k].functionName], stateVars)
    {
      if k >= |a| {
        assert (a + b)[k] == b[k - |a|];
      }
    }
  }

  lemma AllStep(fns: seq<FunctionInfo>, i: nat, bodies: map<string, Option<Stmt>>, stateVars: set<string>)
    requires i < |fns|
    ensures AllFlowKeys(fns[..i + 1], bodies, stateVars)
            == AllFlowKeys(fns[..i], bodies, stateVars)
               + if fns[i].name in bodies then
                   var body := bodies[fns[i].name];
                   FlowKeys(fns[i].name, TaintScan.IdentifyTaintSources(fns[i], body),
                            TaintScan.IdentifyTaintSinks(fns[i], body, stateVars), BuildVariableFlowGraph(body),
                            stateVars)
                 else []
    ensures AllInfluences(fns[..i + 1], bodies, stateVars)
            == AllInfluences(fns[..i], bodies, stateVars)
               + if fns[i].name in bodies
                 then ExpectedInfluences(fns[i].name, NamedParams(fns[i].parameters), bodies[fns[i].name], stateVars)
                 else []
  {
    assert fns[..i + 1][..i] == fns[..i];
  }

  /** The data-flow analysis of a contract: every function whose name has a body is
      analysed against the contract's state variables; the unvalidated-input list is
      always empty, validation being reported on each flow instead. */
  method Analyze(c: ContractInfo, bodies: map<string, Option<Stmt>>) returns (r: DataFlowAnalysis)
    ensures Keys(r.taintFlows) == AllFlowKeys(c.functions, bodies, StateVarNames(c))
    ensures forall k :: 0 <= k < |r.taintFlows| ==>
              var x := r.taintFlows[k];
              x.functionName in bodies && FlowOk(x, bodies[x.functionName], StateVarNames(c))
    ensures r.parameterInfluences == AllInfluences(c.functions, bodies, StateVarNames(c))
    ensures r.unvalidatedInputs == []
  {
    var stateVars := StateVarNames(c);
    var fns := c.functions;
    var flows: seq<TaintFlow> := [];
    var influences: seq<ParameterInfluence> := [];
    var i := 0;
    while i < |fns|
      invariant 0 <= i <= |fns|
      invariant Keys(flows) == AllFlowKeys(fns[..i], bodies, stateVars)
      invariant ContractOk(flows, bodies, stateVars)
      invariant influences == AllInfluences(fns[..i], bodies, stateVars)
    {
      var f := fns[i];
      AllStep(fns, i, bodies, stateVars);
      if f.name in bodies {
        var body := bodies[f.name];
        var sources := TaintScan.IdentifyTaintSources(f, body);
        var sinks := TaintScan.IdentifyTaintSinks(f, body, stateVars);
        var infl := AnalyzeParameterInfluence(f, body, stateVars);
        influences := influences + infl;
        var fl := BuildTaintFlows(f, body, sources, sinks, stateVars);
        KeysAppend(flows, fl);
        ContractOkAppend(flows, fl, f.name, bodies, stateVars);
        flows := flows + fl;
      }
      i := i + 1;
    }
    assert fns[..i] == fns;
    r := DataFlowAnalysis(flows, influences, []);
  }
}
