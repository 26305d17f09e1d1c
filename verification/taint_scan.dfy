/** Taint sources and sinks of one function (src/dataflow.rs). The source scanner and the
    sink scanner walk a body the same way: a statement contributes the expressions it
    holds, and an expression is visited before its operands. `ExprNodes` and `StmtNodes`
    list the visited expressions in that order; each scanner is proved to add, for every
    visited expression in turn, what that single expression contributes. */
module TaintScan {
  import opened Wrappers
  import opened Strings
  import opened Ast
  import opened Collections
  import opened Records
  import opened TaintTypes

  // ---------------------------------------------------------------------------
  // The expressions the scanners visit.

  function ExprNodes(e: Expr): seq<Expr>
    decreases e, 1
  {
    [e] + SubNodes(e)
  }

  /** The expressions visited below `e`, operands left to right. */
  function SubNodes(e: Expr): seq<Expr>
    decreases e, 0
  {
    match e
    case Member(b, _) => ExprNodes(b)
    case Call(c, args) => ExprNodes(c) + ArgsNodes(args)
    case Assign(_, l, r) => ExprNodes(l) + ExprNodes(r)
    case Binary(_, l, r) => ExprNodes(l) + ExprNodes(r)
    case Unary(_, a) => ExprNodes(a)
    case IncDec(_, a) => ExprNodes(a)
    case Paren(a) => ExprNodes(a)
    case Ternary(c, t, f) => ExprNodes(c) + ExprNodes(t) + ExprNodes(f)
    case Index(b, i) => ExprNodes(b) + OptExprNodes(i)
    case _ => []
  }

  function ArgsNodes(args: seq<Expr>): seq<Expr>
    decreases args, 3
  {
    if |args| == 0 then [] else ExprNodes(args[0]) + ArgsNodes(args[1..])
  }

  function OptExprNodes(e: Option<Expr>): seq<Expr>
    decreases e, 3
  {
    match e
    case Some(x) => ExprNodes(x)
    case None => []
  }

  function StmtNodes(s: Stmt): seq<Expr>
    decreases s, 0
  {
    match s
    case ExprStmt(e) => ExprNodes(e)
    case Block(_, ss) => StmtsNodes(ss)
    case If(c, t, el) => ExprNodes(c) + StmtNodes(t) + OptStmtNodes(el)
    case While(c, b) => ExprNodes(c) + StmtNodes(b)
    case DoWhile(b, c) => StmtNodes(b) + ExprNodes(c)
    case For(i, c, u, b) => OptStmtNodes(i) + OptExprNodes(c) + OptExprNodes(u) + OptStmtNodes(b)
    case VarDef(_, Some(init)) => ExprNodes(init)
    case Return(Some(v)) => ExprNodes(v)
    case _ => []
  }

  function OptStmtNodes(s: Option<Stmt>): seq<Expr>
    decreases s, 1
  {
    match s
    case Some(x) => StmtNodes(x)
    case None => []
  }

  function StmtsNodes(ss: seq<Stmt>): seq<Expr>
    decreases ss, 1
  {
    if |ss| == 0 then [] else StmtNodes(ss[0]) + StmtsNodes(ss[1..])
  }

  /** The expressions visited in a function body, if it has one. */
  function BodyNodes(body: Option<Stmt>): seq<Expr> {
    match body
    case Some(s) => StmtNodes(s)
    case None => []
  }

  // ---------------------------------------------------------------------------
  // Sources.

  /** The environment source named by a member of `msg`. */
  function MsgSource(member: string): (r: Option<TaintSource>)
    ensures r.Some? <==> member in {"sender", "value", "data"}
    ensures r == Some(MsgSender) <==> member == "sender"
    ensures r == Some(MsgValue) <==> member == "value"
    ensures r == Some(MsgData) <==> member == "data"
  {
    if member == "sender" then Some(MsgSender)
    else if member == "value" then Some(MsgValue)
    else if member == "data" then Some(MsgData)
    else None
  }

  /** What one visited expression contributes as a source: `msg.sender`, `msg.value` or
      `msg.data`, or the return of a call `v.f(...)` on a plain variable. */
  function LocalSource(e: Expr): Option<TaintSource> {
    match e
    case Member(b, m) => if b.Var? && b.name == "msg" then MsgSource(m) else None
    case Call(c, _) => if c.Member? && c.base.Var? then Some(ExternalCallReturn(c.base.name, c.member)) else None
    case _ => None
  }

  /** Record a source unless it is already listed. */
  function AddLocalSource(acc: seq<TaintSource>, e: Expr): seq<TaintSource> {
    match LocalSource(e)
    case Some(s) => Insert(acc, s)
    case None => acc
  }

  /** The reference: the contribution of every visited expression, in order. */
  function AddSources(acc: seq<TaintSource>, nodes: seq<Expr>): seq<TaintSource>
    decreases |nodes|
  {
    if |nodes| == 0 then acc
    else AddSources(AddLocalSource(acc, nodes[0]), nodes[1..])
  }

  /** Adding the contributions keeps what was listed, adds exactly the contributed
      sources, and lists none twice. */
  lemma {:induction false} AddSourcesMembers(acc: seq<TaintSource>, nodes: seq<Expr>)
    ensures acc <= AddSources(acc, nodes)
    ensures NoDups(acc) ==> NoDups(AddSources(acc, nodes))
    ensures forall x :: x in AddSources(acc, nodes) <==>
              x in acc || exists k :: 0 <= k < |nodes| && LocalSource(nodes[k]) == Some(x)
    decreases |nodes|
  {
    if |nodes| > 0 {
      var acc1 := AddLocalSource(acc, nodes[0]);
      AddSourcesMembers(acc1, nodes[1..]);
      var r := AddSources(acc, nodes);
      assert forall k :: 0 <= k < |nodes[1..]| ==> nodes[1..][k] == nodes[k + 1];
      forall x | x in acc || exists k :: 0 <= k < |nodes| && LocalSource(nodes[k]) == Some(x) ensures x in r {
        if x !in acc {
          var k :| 0 <= k < |nodes| && LocalSource(nodes[k]) == Some(x);
          if k > 0 {
            assert LocalSource(nodes[1..][k - 1]) == Some(x);
          }
        }
      }
    }
  }

  lemma {:induction false} AddSourcesAppend(acc: seq<TaintSource>, xs: seq<Expr>, ys: seq<Expr>)
    ensures AddSources(acc, xs + ys) == AddSources(AddSources(acc, xs), ys)
    decreases |xs|
  {
    if |xs| > 0 {
      assert (xs + ys)[0] == xs[0];
      assert (xs + ys)[1..] == xs[1..] + ys;
      AddSourcesAppend(AddLocalSource(acc, xs[0]), xs[1..], ys);
    } else {
      assert xs + ys == ys;
    }
  }

  lemma AddSourcesCons(acc: seq<TaintSource>, e: Expr, rest: seq<Expr>)
    ensures AddSources(acc, [e] + rest) == AddSources(AddLocalSource(acc, e), rest)
  {
    assert ([e] + rest)[1..] == rest;
  }

  /** The source scanner of an expression: the expression's own source (a `msg` member,
      or the return of a call on a plain variable), then its operands. */
  function ScanExprSources(e: Expr, acc: seq<TaintSource>): (r: seq<TaintSource>)
    ensures r == AddSources(acc, ExprNodes(e))
    decreases e, 2
  {
    AddSourcesCons(acc, e, SubNodes(e));
    ScanSubSources(e, AddLocalSource(acc, e))
  }

  /** The operands the source scanner descends into, arm by arm as written. */
  function ScanSubSources(e: Expr, acc: seq<TaintSource>): (r: seq<TaintSource>)
    ensures r == AddSources(acc, SubNodes(e))
    decreases e, 1
  {
    match e
    case Member(b, _) => var r := ScanExprSources(b, acc); assert SubNodes(e) == ExprNodes(b); r
    case Call(_, _) => ScanCallSources(e, acc)
    case Assign(_, _, _) => ScanPairSources(e, acc)
    case Binary(_, _, _) => ScanPairSources(e, acc)
    case Unary(_, a) => var r := ScanExprSources(a, acc); assert SubNodes(e) == ExprNodes(a); r
    case IncDec(_, a) => var r := ScanExprSources(a, acc); assert SubNodes(e) == ExprNodes(a); r
    case Paren(a) => var r := ScanExprSources(a, acc); assert SubNodes(e) == ExprNodes(a); r
    case Ternary(_, _, _) => ScanTernarySources(e, acc)
    case Index(_, _) => ScanIndexSources(e, acc)
    case _ => assert SubNodes(e) == []; acc
  }

  function ScanCallSources(e: Expr, acc: seq<TaintSource>): (r: seq<TaintSource>)
    requires e.Call?
    ensures r == AddSources(acc, SubNodes(e))
    decreases e, 0
  {
    AddSourcesAppend(acc, ExprNodes(e.callee), ArgsNodes(e.args));
    ScanArgsSources(e.args, ScanExprSources(e.callee, acc))
  }

  /** Both operands of an assignment or a binary operation, left first. */
  function ScanPairSources(e: Expr, acc: seq<TaintSource>): (r: seq<TaintSource>)
    requires e.Assign? || e.Binary?
    ensures r == AddSources(acc, SubNodes(e))
    decreases e, 0
  {
    var l := if e.Assign? then e.lhs else e.left;
    var rt := if e.Assign? then e.rhs else e.right;
    assert SubNodes(e) == ExprNodes(l) + ExprNodes(rt);
    AddSourcesAppend(acc, ExprNodes(l), ExprNodes(rt));
    ScanExprSources(rt, ScanExprSources(l, acc))
  }

  function ScanTernarySources(e: Expr, acc: seq<TaintSource>): (r: seq<TaintSource>)
    requires e.Ternary?
    ensures r == AddSources(acc, SubNodes(e))
    decreases e, 0
  {
    AddSourcesAppend(acc, ExprNodes(e.cond) + ExprNodes(e.ifTrue), ExprNodes(e.ifFalse));
    AddSourcesAppend(acc, ExprNodes(e.cond), ExprNodes(e.ifTrue));
    ScanExprSources(e.ifFalse, ScanExprSources(e.ifTrue, ScanExprSources(e.cond, acc)))
  }

  function ScanIndexSources(e: Expr, acc: seq<TaintSource>): (r: seq<TaintSource>)
    requires e.Index?
    ensures r == AddSources(acc, SubNodes(e))
    decreases e, 0
  {
    var Index(b, i) := e;
    AddSourcesAppend(acc, ExprNodes(b), OptExprNodes(i));
    ScanOptExprSources(i, ScanExprSources(b, acc))
  }

  function ScanArgsSources(args: seq<Expr>, acc: seq<TaintSource>): (r: seq<TaintSource>)
    ensures r == AddSources(acc, ArgsNodes(args))
    decreases args, 3
  {
    if |args| == 0 then acc
    else
      AddSourcesAppend(acc, ExprNodes(args[0]), ArgsNodes(args[1..]));
      ScanArgsSources(args[1..], ScanExprSources(args[0], acc))
  }

  function ScanOptExprSources(e: Option<Expr>, acc: seq<TaintSource>): (r: seq<TaintSource>)
    ensures r == AddSources(acc, OptExprNodes(e))
    decreases e, 3
  {
    match e
    case Some(x) => ScanExprSources(x, acc)
    case None => acc
  }

  /** The source scanner of a statement, arm by arm as written. */
  function ScanStmtSources(s: Stmt, acc: seq<TaintSource>): (r: seq<TaintSource>)
    ensures r == AddSources(acc, StmtNodes(s))
    decreases s, 1
  {
    match s
    case ExprStmt(e) => var r := ScanExprSources(e, acc); assert StmtNodes(s) == ExprNodes(e); r
    case Block(_, ss) => var r := ScanStmtsSources(ss, acc); assert StmtNodes(s) == StmtsNodes(ss); r
    case If(_, _, _) => ScanIfSources(s, acc)
    case While(c, b) =>
      var a := ScanExprSources(c, acc);
      var r := ScanStmtSources(b, a);
      assert StmtNodes(s) == ExprNodes(c) + StmtNodes(b);
      AddSourcesAppend(acc, ExprNodes(c), StmtNodes(b));
      r
    case DoWhile(b, c) =>
      var a := ScanStmtSources(b, acc);
      var r := ScanExprSources(c, a);
      assert StmtNodes(s) == StmtNodes(b) + ExprNodes(c);
      AddSourcesAppend(acc, StmtNodes(b), ExprNodes(c));
      r
    case For(_, _, _, _) => ScanForSources(s, acc)
    case VarDef(_, Some(init)) => var r := ScanExprSources(init, acc); assert StmtNodes(s) == ExprNodes(init); r
    case Return(Some(v)) => var r := ScanExprSources(v, acc); assert StmtNodes(s) == ExprNodes(v); r
    case _ => assert StmtNodes(s) == []; acc
  }

  function ScanOptStmtSources(s: Option<Stmt>, acc: seq<TaintSource>): (r: seq<TaintSource>)
    ensures r == AddSources(acc, OptStmtNodes(s))
    decreases s, 2
  {
    match s
    case Some(x) => ScanStmtSources(x, acc)
    case None => acc
  }

  /** The condition, then the branch, then the else branch. */
  function ScanIfSources(s: Stmt, acc: seq<TaintSource>): (r: seq<TaintSource>)
    requires s.If?
    ensures r == AddSources(acc, StmtNodes(s))
    decreases s, 0
  {
    AddSourcesAppend(acc, ExprNodes(s.cond), StmtNodes(s.thenS));
    AddSourcesAppend(acc, ExprNodes(s.cond) + StmtNodes(s.thenS), OptStmtNodes(s.elseS));
    ScanOptStmtSources(s.elseS, ScanStmtSources(s.thenS, ScanExprSources(s.cond, acc)))
  }

  /** The initialiser, the condition, the update, then the body. */
  function ScanForSources(s: Stmt, acc: seq<TaintSource>): (r: seq<TaintSource>)
    requires s.For?
    ensures r == AddSources(acc, StmtNodes(s))
    decreases s, 0
  {
    var n1 := OptStmtNodes(s.init);
    AddSourcesAppend(acc, n1, OptExprNodes(s.forCond));
    AddSourcesAppend(acc, n1 + OptExprNodes(s.forCond), OptExprNodes(s.update));
    AddSourcesAppend(acc, n1 + OptExprNodes(s.forCond) + OptExprNodes(s.update), OptStmtNodes(s.forBody));
    ScanOptStmtSources(s.forBody, ScanOptExprSources(s.update, ScanOptExprSources(s.forCond, ScanOptStmtSources(s.init, acc))))
  }

  function ScanStmtsSources(ss: seq<Stmt>, acc: seq<TaintSource>): (r: seq<TaintSource>)
    ensures r == AddSources(acc, StmtsNodes(ss))
    decreases ss, 2
  {
    if |ss| == 0 then acc
    else
      AddSourcesAppend(acc, StmtNodes(ss[0]), StmtsNodes(ss[1..]));
      ScanStmtsSources(ss[1..], ScanStmtSources(ss[0], acc))
  }

  /** Visibilities whose parameters are attacker-controlled. */
  predicate IsEntryPoint(f: FunctionInfo) {
    f.visibility == "external" || f.visibility == "public"
  }

  /** The name token of each parameter string: its last whitespace-separated token. */
  function ParamTokens(params: seq<string>): (r: seq<string>)
    ensures |r| == |params|
    ensures forall i :: 0 <= i < |params| ==> r[i] == LastToken(params[i])
  {
    seq(|params|, i requires 0 <= i < |params| => LastToken(params[i]))
  }

  /** One source per parameter from position `from` on whose name token is non-empty,
      numbered by its position in the full parameter list. */
  function ParamSourcesFrom(fname: string, names: seq<string>, from: nat): (r: seq<TaintSource>)
    requires from <= |names|
    ensures forall x :: x in r ==>
              && x.FunctionParameter? && x.functionName == fname && from <= x.paramIndex < |names|
              && x.paramName == names[x.paramIndex] && x.paramName != ""
    ensures forall i :: from <= i < |names| && names[i] != "" ==> FunctionParameter(fname, i, names[i]) in r
    ensures NoDups(r)
    decreases |names| - from
  {
    if from == |names| then []
    else
      var rest := ParamSourcesFrom(fname, names, from + 1);
      if names[from] != "" then
        var x := FunctionParameter(fname, from, names[from]);
        assert x !in rest;
        [x] + rest
      else rest
  }

  /** The parameter sources of a function: none unless it is external or public. */
  function ParamSources(f: FunctionInfo): seq<TaintSource> {
    if IsEntryPoint(f) then ParamSourcesFrom(f.name, ParamTokens(f.parameters), 0) else []
  }

  /** The sources of a function: its parameters when it is external or public, then what
      the body scanner finds, each environment or call-return source once. */
  function IdentifyTaintSources(f: FunctionInfo, body: Option<Stmt>): (r: seq<TaintSource>)
    ensures r == AddSources(ParamSources(f), BodyNodes(body))
  {
    var params := ParamSources(f);
    match body
    case Some(s) => ScanStmtSources(s, params)
    case None => params
  }

  /** Parameter sources come only from external and public functions, one per parameter
      with a non-empty name token, at its position in the full list. */
  lemma ParameterSources(f: FunctionInfo, body: Option<Stmt>, fn: string, i: nat, n: string)
    ensures FunctionParameter(fn, i, n) in IdentifyTaintSources(f, body) <==>
              IsEntryPoint(f) && fn == f.name && i < |f.parameters| && n == LastToken(f.parameters[i]) && n != ""
  {
    var nodes := BodyNodes(body);
    var ps := ParamSources(f);
    AddSourcesMembers(ps, nodes);
    BodySourceKinds(nodes);
    ParamSourcesMembers(f, fn, i, n);
  }

  /** The parameter part lists exactly the named parameters of an entry point. */
  lemma ParamSourcesMembers(f: FunctionInfo, fn: string, i: nat, n: string)
    ensures FunctionParameter(fn, i, n) in ParamSources(f) <==>
              IsEntryPoint(f) && fn == f.name && i < |f.parameters| && n == LastToken(f.parameters[i]) && n != ""
  {
    if IsEntryPoint(f) {
      var toks := ParamTokens(f.parameters);
      assert ParamSources(f) == ParamSourcesFrom(f.name, toks, 0);
    }
  }

  /** What the body scanner finds is an environment value or a call's return, never a
      parameter or an array access. */
  lemma BodySourceKinds(nodes: seq<Expr>)
    ensures forall k :: 0 <= k < |nodes| && LocalSource(nodes[k]).Some? ==>
              LocalSource(nodes[k]).value in {MsgSender, MsgValue, MsgData} || LocalSource(nodes[k]).value.ExternalCallReturn?
  {
  }

  /** `msg.sender`, `msg.value` and `msg.data` are sources exactly when the body reads
      them through a visited member access. */
  lemma EnvironmentSources(f: FunctionInfo, body: Option<Stmt>, m: string)
    requires m in {"sender", "value", "data"}
    ensures MsgSource(m).value in IdentifyTaintSources(f, body) <==> Member(Var("msg"), m) in BodyNodes(body)
  {
    var nodes := BodyNodes(body);
    var ps := ParamSources(f);
    AddSourcesMembers(ps, nodes);
    ParamSourcesAreParameters(f);
    EnvironmentIff(ps, AddSources(ps, nodes), nodes, m);
  }

  /** Every source of the parameter part is a parameter. */
  lemma ParamSourcesAreParameters(f: FunctionInfo)
    ensures forall x :: x in ParamSources(f) ==> x.FunctionParameter?
  {
  }

  /** `r` lists the parameters and what the nodes contribute: then it holds an
      environment source exactly when a node reads that member of `msg`. */
  lemma EnvironmentIff(params: seq<TaintSource>, r: seq<TaintSource>, nodes: seq<Expr>, m: string)
    requires m in {"sender", "value", "data"}
    requires forall x :: x in params ==> x.FunctionParameter?
    requires forall x :: x in r <==> x in params || exists k :: 0 <= k < |nodes| && LocalSource(nodes[k]) == Some(x)
    ensures MsgSource(m).value in r <==> Member(Var("msg"), m) in nodes
  {
    var x := MsgSource(m).value;
    if x in r {
      var k :| 0 <= k < |nodes| && LocalSource(nodes[k]) == Some(x);
      assert nodes[k] == Member(Var("msg"), m);
    }
    if Member(Var("msg"), m) in nodes {
      var k :| 0 <= k < |nodes| && nodes[k] == Member(Var("msg"), m);
      assert LocalSource(nodes[k]) == Some(x);
    }
  }

  /** A call `v.g(...)` on the plain variable `v`. */
  predicate CallsOn(e: Expr, v: string, g: string) {
    e.Call? && e.callee == Member(Var(v), g)
  }

  /** The return of `v.g(...)` is a source exactly when such a call, on a plain variable,
      is visited. */
  lemma CallReturnSources(f: FunctionInfo, body: Option<Stmt>, v: string, g: string)
    ensures ExternalCallReturn(v, g) in IdentifyTaintSources(f, body) <==>
              exists k :: 0 <= k < |BodyNodes(body)| && CallsOn(BodyNodes(body)[k], v, g)
  {
    var nodes := BodyNodes(body);
    var ps := ParamSources(f);
    AddSourcesMembers(ps, nodes);
    ParamSourcesAreParameters(f);
    CallReturnIff(ps, AddSources(ps, nodes), nodes, v, g);
  }

  /** `r` lists the parameters and what the nodes contribute: then it holds the return
      of `v.g(...)` exactly when a node is such a call. */
  lemma CallReturnIff(params: seq<TaintSource>, r: seq<TaintSource>, nodes: seq<Expr>, v: string, g: string)
    requires forall x :: x in params ==> x.FunctionParameter?
    requires forall x :: x in r <==> x in params || exists k :: 0 <= k < |nodes| && LocalSource(nodes[k]) == Some(x)
    ensures ExternalCallReturn(v, g) in r <==> exists k :: 0 <= k < |nodes| && CallsOn(nodes[k], v, g)
  {
    var x := ExternalCallReturn(v, g);
    if x in r {
      var k :| 0 <= k < |nodes| && LocalSource(nodes[k]) == Some(x);
      assert CallsOn(nodes[k], v, g);
    }
    if exists k :: 0 <= k < |nodes| && CallsOn(nodes[k], v, g) {
      var k :| 0 <= k < |nodes| && CallsOn(nodes[k], v, g);
      assert LocalSource(nodes[k]) == Some(x);
    }
  }

  /** The analyzer never produces an array-access source, and lists no source twice. */
  lemma SourcesDistinct(f: FunctionInfo, body: Option<Stmt>)
    ensures NoDups(IdentifyTaintSources(f, body))
    ensures forall x :: x in IdentifyTaintSources(f, body) ==> !x.TaintedArrayAccess?
  {
    var nodes := BodyNodes(body);
    AddSourcesMembers(ParamSources(f), nodes);
    BodySourceKinds(nodes);
  }

  // ---------------------------------------------------------------------------
  // Sinks.

  /** The display form of an expression: variables, member paths and `base[...]`;
      anything else is "complex_expr". */
  function ExprToString(e: Expr): (r: string)
    ensures e.Var? ==> r == e.name
    ensures !(e.Var? || e.Member? || e.Index?) ==> r == "complex_expr"
  {
    match e
    case Var(n) => n
    case Member(b, m) => ExprToString(b) + "." + m
    case Index(b, _) => ExprToString(b) + "[...]"
    case _ => "complex_expr"
  }

  /** Member calls that move value. */
  const TransferMembers: set<string> := {"call", "staticcall", "callcode", "transfer", "send"}

  /** What one visited expression contributes as a sink: `selfdestruct`/`suicide` calls,
      `delegatecall` on a target, and value-moving member calls. */
  function LocalSink(e: Expr): Option<TaintSink> {
    match e
    case Call(c, args) =>
      if c.Var? && (c.name == "selfdestruct" || c.name == "suicide") then
        Some(SelfDestruct(if |args| > 0 then ExprToString(args[0]) else "unknown"))
      else if c.Member? && c.member == "delegatecall" then Some(DelegateCall(ExprToString(c.base)))
      else if c.Member? && c.member in TransferMembers then Some(ValueTransfer(ExprToString(c.base)))
      else None
    case _ => None
  }

  /** The reference: the contribution of every visited expression, in order. */
  function SinksOf(nodes: seq<Expr>): seq<TaintSink> {
    if |nodes| == 0 then []
    else LocalSinks(nodes[0]) + SinksOf(nodes[1..])
  }

  /** The contributed sinks are exactly those of the visited expressions. */
  lemma {:induction false} SinksOfMembers(nodes: seq<Expr>)
    ensures forall x :: x in SinksOf(nodes) <==> exists k :: 0 <= k < |nodes| && LocalSink(nodes[k]) == Some(x)
    decreases |nodes|
  {
    if |nodes| > 0 {
      SinksOfMembers(nodes[1..]);
      var r := SinksOf(nodes);
      assert forall k :: 0 <= k < |nodes[1..]| ==> nodes[1..][k] == nodes[k + 1];
      forall x | (exists k :: 0 <= k < |nodes| && LocalSink(nodes[k]) == Some(x)) ensures x in r {
        var k :| 0 <= k < |nodes| && LocalSink(nodes[k]) == Some(x);
        if k > 0 {
          assert LocalSink(nodes[1..][k - 1]) == Some(x);
        }
      }
    }
  }

  lemma {:induction false} SinksOfAppend(xs: seq<Expr>, ys: seq<Expr>)
    ensures SinksOf(xs + ys) == SinksOf(xs) + SinksOf(ys)
    decreases |xs|
  {
    if |xs| > 0 {
      assert (xs + ys)[0] == xs[0];
      assert (xs + ys)[1..] == xs[1..] + ys;
      SinksOfAppend(xs[1..], ys);
    } else {
      assert xs + ys == ys;
    }
  }

  lemma SinksOfFour(acc: seq<TaintSink>, n1: seq<Expr>, n2: seq<Expr>, n3: seq<Expr>, n4: seq<Expr>)
    ensures acc + SinksOf(n1) + SinksOf(n2) + SinksOf(n3) + SinksOf(n4) == acc + SinksOf(n1 + n2 + n3 + n4)
  {
    SinksOfThree(acc, n1, n2, n3);
    SinksOfTwo(acc, n1 + n2 + n3, n4);
  }

  lemma SinksOfTwo(acc: seq<TaintSink>, n1: seq<Expr>, n2: seq<Expr>)
    ensures acc + SinksOf(n1) + SinksOf(n2) == acc + SinksOf(n1 + n2)
  {
    SinksOfAppend(n1, n2);
    AppendAssoc(acc, SinksOf(n1), SinksOf(n2));
  }

  lemma SinksOfThree(acc: seq<TaintSink>, n1: seq<Expr>, n2: seq<Expr>, n3: seq<Expr>)
    ensures acc + SinksOf(n1) + SinksOf(n2) + SinksOf(n3) == acc + SinksOf(n1 + n2 + n3)
  {
    SinksOfTwo(acc, n1, n2);
    SinksOfTwo(acc, n1 + n2, n3);
  }

  lemma AppendAssoc(a: seq<TaintSink>, b: seq<TaintSink>, c: seq<TaintSink>)
    ensures a + b + c == a + (b + c)
  {
  }

  lemma SinksOfCons(e: Expr, rest: seq<Expr>)
    ensures SinksOf([e] + rest) == LocalSinks(e) + SinksOf(rest)
  {
    assert ([e] + rest)[1..] == rest;
  }

  /** The sink list contributed by one visited expression. */
  function LocalSinks(e: Expr): seq<TaintSink> {
    match LocalSink(e)
    case Some(x) => [x]
    case None => []
  }

  /** The sink scanner of an expression: the expression's own sink (a destructive or
      value-moving call), then its operands. */
  function ScanExprSinks(e: Expr, acc: seq<TaintSink>): (r: seq<TaintSink>)
    ensures r == acc + SinksOf(ExprNodes(e))
    decreases e, 2
  {
    var r := ScanSubSinks(e, acc + LocalSinks(e));
    SinksOfCons(e, SubNodes(e));
    AppendAssoc(acc, LocalSinks(e), SinksOf(SubNodes(e)));
    r
  }

  /** The operands the sink scanner descends into, arm by arm as written. */
  function ScanSubSinks(e: Expr, acc: seq<TaintSink>): (r: seq<TaintSink>)
    ensures r == acc + SinksOf(SubNodes(e))
    decreases e, 1
  {
    match e
    case Call(_, _) => ScanCallSinks(e, acc)
    case Assign(_, _, _) => ScanPairSinks(e, acc)
    case Binary(_, _, _) => ScanPairSinks(e, acc)
    case Unary(_, a) => var r := ScanExprSinks(a, acc); assert SubNodes(e) == ExprNodes(a); r
    case IncDec(_, a) => var r := ScanExprSinks(a, acc); assert SubNodes(e) == ExprNodes(a); r
    case Paren(a) => var r := ScanExprSinks(a, acc); assert SubNodes(e) == ExprNodes(a); r
    case Ternary(_, _, _) => ScanTernarySinks(e, acc)
    case Index(_, _) => ScanIndexSinks(e, acc)
    case Member(b, _) => var r := ScanExprSinks(b, acc); assert SubNodes(e) == ExprNodes(b); r
    case _ => assert SubNodes(e) == []; acc
  }

  function ScanCallSinks(e: Expr, acc: seq<TaintSink>): (r: seq<TaintSink>)
    requires e.Call?
    ensures r == acc + SinksOf(SubNodes(e))
    decreases e, 0
  {
    var a := ScanExprSinks(e.callee, acc);
    var r := ScanArgsSinks(e.args, a);
    SinksOfTwo(acc, ExprNodes(e.callee), ArgsNodes(e.args));
    r
  }

  /** Both operands of an assignment or a binary operation, left first. */
  function ScanPairSinks(e: Expr, acc: seq<TaintSink>): (r: seq<TaintSink>)
    requires e.Assign? || e.Binary?
    ensures r == acc + SinksOf(SubNodes(e))
    decreases e, 0
  {
    var l := if e.Assign? then e.lhs else e.left;
    var rt := if e.Assign? then e.rhs else e.right;
    assert SubNodes(e) == ExprNodes(l) + ExprNodes(rt);
    var a := ScanExprSinks(l, acc);
    var r := ScanExprSinks(rt, a);
    SinksOfTwo(acc, ExprNodes(l), ExprNodes(rt));
    r
  }

  function ScanTernarySinks(e: Expr, acc: seq<TaintSink>): (r: seq<TaintSink>)
    requires e.Ternary?
    ensures r == acc + SinksOf(SubNodes(e))
    decreases e, 0
  {
    var Ternary(c, t, f) := e;
    var a := ScanExprSinks(c, acc);
    var b := ScanExprSinks(t, a);
    var r := ScanExprSinks(f, b);
    assert SubNodes(e) == ExprNodes(c) + ExprNodes(t) + ExprNodes(f);
    SinksOfThree(acc, ExprNodes(c), ExprNodes(t), ExprNodes(f));
    r
  }

  function ScanIndexSinks(e: Expr, acc: seq<TaintSink>): (r: seq<TaintSink>)
    requires e.Index?
    ensures r == acc + SinksOf(SubNodes(e))
    decreases e, 0
  {
    var Index(b, i) := e;
    var a := ScanExprSinks(b, acc);
    var r := ScanOptExprSinks(i, a);
    SinksOfTwo(acc, ExprNodes(b), OptExprNodes(i));
    r
  }

  function ScanArgsSinks(args: seq<Expr>, acc: seq<TaintSink>): (r: seq<TaintSink>)
    ensures r == acc + SinksOf(ArgsNodes(args))
    decreases args, 3
  {
    if |args| == 0 then acc
    else
      var a := ScanExprSinks(args[0], acc);
      var r := ScanArgsSinks(args[1..], a);
      SinksOfTwo(acc, ExprNodes(args[0]), ArgsNodes(args[1..]));
      r
  }

  function ScanOptExprSinks(e: Option<Expr>, acc: seq<TaintSink>): (r: seq<TaintSink>)
    ensures r == acc + SinksOf(OptExprNodes(e))
    decreases e, 3
  {
    match e
    case Some(x) => ScanExprSinks(x, acc)
    case None => acc
  }

  /** The sink scanner of a statement, arm by arm as written. */
  function ScanStmtSinks(s: Stmt, acc: seq<TaintSink>): (r: seq<TaintSink>)
    ensures r == acc + SinksOf(StmtNodes(s))
    decreases s, 1
  {
    match s
    case ExprStmt(e) => var r := ScanExprSinks(e, acc); assert StmtNodes(s) == ExprNodes(e); r
    case Block(_, ss) => var r := ScanStmtsSinks(ss, acc); assert StmtNodes(s) == StmtsNodes(ss); r
    case If(_, _, _) => ScanIfSinks(s, acc)
    case While(c, b) =>
      var a := ScanExprSinks(c, acc);
      var r := ScanStmtSinks(b, a);
      assert StmtNodes(s) == ExprNodes(c) + StmtNodes(b);
      SinksOfTwo(acc, ExprNodes(c), StmtNodes(b));
      r
    case DoWhile(b, c) =>
      var a := ScanStmtSinks(b, acc);
      var r := ScanExprSinks(c, a);
      assert StmtNodes(s) == StmtNodes(b) + ExprNodes(c);
      SinksOfTwo(acc, StmtNodes(b), ExprNodes(c));
      r
    case For(_, _, _, _) => ScanForSinks(s, acc)
    case VarDef(_, Some(init)) => var r := ScanExprSinks(init, acc); assert StmtNodes(s) == ExprNodes(init); r
    case Return(Some(v)) => var r := ScanExprSinks(v, acc); assert StmtNodes(s) == ExprNodes(v); r
    case _ => assert StmtNodes(s) == []; acc
  }

  function ScanOptStmtSinks(s: Option<Stmt>, acc: seq<TaintSink>): (r: seq<TaintSink>)
    ensures r == acc + SinksOf(OptStmtNodes(s))
    decreases s, 2
  {
    match s
    case Some(x) => ScanStmtSinks(x, acc)
    case None => acc
  }

  /** The condition, then the branch, then the else branch. */
  function ScanIfSinks(s: Stmt, acc: seq<TaintSink>): (r: seq<TaintSink>)
    requires s.If?
    ensures r == acc + SinksOf(StmtNodes(s))
    decreases s, 0
  {
    var a1 := ScanExprSinks(s.cond, acc);
    var a2 := ScanStmtSinks(s.thenS, a1);
    SinksOfFour(acc, ExprNodes(s.cond), StmtNodes(s.thenS), OptStmtNodes(s.elseS), []);
    assert ExprNodes(s.cond) + StmtNodes(s.thenS) + OptStmtNodes(s.elseS) + [] == StmtNodes(s);
    ScanOptStmtSinks(s.elseS, a2)
  }

  /** The initialiser, the condition, the update, then the body. */
  function ScanForSinks(s: Stmt, acc: seq<TaintSink>): (r: seq<TaintSink>)
    requires s.For?
    ensures r == acc + SinksOf(StmtNodes(s))
    decreases s, 0
  {
    var a1 := ScanOptStmtSinks(s.init, acc);
    var a2 := ScanOptExprSinks(s.forCond, a1);
    var a3 := ScanOptExprSinks(s.update, a2);
    SinksOfFour(acc, OptStmtNodes(s.init), OptExprNodes(s.forCond), OptExprNodes(s.update), OptStmtNodes(s.forBody));
    ScanOptStmtSinks(s.forBody, a3)
  }

  function ScanStmtsSinks(ss: seq<Stmt>, acc: seq<TaintSink>): (r: seq<TaintSink>)
    ensures r == acc + SinksOf(StmtsNodes(ss))
    decreases ss, 2
  {
    if |ss| == 0 then acc
    else
      var a := ScanStmtSinks(ss[0], acc);
      var r := ScanStmtsSinks(ss[1..], a);
      SinksOfTwo(acc, StmtNodes(ss[0]), StmtsNodes(ss[1..]));
      r
  }

  /** Field writes whose first segment is a state variable, as sinks on that variable. */
  function FieldSinks(fields: seq<string>, stateVars: set<string>): (r: seq<TaintSink>)
    ensures forall x :: x in r <==>
              exists k :: 0 <= k < |fields| && BeforeChar(fields[k], '.') in stateVars
                && x == StateModification(BeforeChar(fields[k], '.'), Some(fields[k]))
  {
    if |fields| == 0 then []
    else
      var rest := FieldSinks(fields[1..], stateVars);
      assert forall k :: 0 <= k < |fields[1..]| ==> fields[1..][k] == fields[k + 1];
      var b := BeforeChar(fields[0], '.');
      var r := if b in stateVars then [StateModification(b, Some(fields[0]))] + rest else rest;
      forall x | (exists k :: 0 <= k < |fields| && BeforeChar(fields[k], '.') in stateVars
                   && x == StateModification(BeforeChar(fields[k], '.'), Some(fields[k])))
        ensures x in r
      {
        var k :| 0 <= k < |fields| && BeforeChar(fields[k], '.') in stateVars
                 && x == StateModification(BeforeChar(fields[k], '.'), Some(fields[k]));
        if k > 0 {
          assert fields[1..][k - 1] == fields[k];
        }
      }
      r
  }

  /** The sinks a function's recorded facts give: whole-variable writes, field writes on
      state variables, and external calls. */
  function RecordedSinks(f: FunctionInfo, stateVars: set<string>): seq<TaintSink> {
    seq(|f.modifiesStates|, k requires 0 <= k < |f.modifiesStates| => StateModification(f.modifiesStates[k], None))
      + FieldSinks(f.modifiesStateFields, stateVars)
      + seq(|f.externalCalls|, k requires 0 <= k < |f.externalCalls| =>
              ExternalCallSink(f.externalCalls[k].targetVariable, f.externalCalls[k].targetFunction))
  }

  /** The sinks of a function: its recorded writes and external calls, then the dangerous
      calls the body scanner finds, in visiting order. */
  function IdentifyTaintSinks(f: FunctionInfo, body: Option<Stmt>, stateVars: set<string>): (r: seq<TaintSink>)
    ensures r == RecordedSinks(f, stateVars) + SinksOf(BodyNodes(body))
  {
    var recorded := RecordedSinks(f, stateVars);
    match body
    case Some(s) => ScanStmtSinks(s, recorded)
    case None => recorded
  }

  /** Write sinks: one per recorded written variable, and one per field path whose first
      segment is a state variable; the scanner adds none. */
  lemma WriteSinks(f: FunctionInfo, body: Option<Stmt>, stateVars: set<string>, v: string, p: Option<string>)
    ensures StateModification(v, p) in IdentifyTaintSinks(f, body, stateVars) <==>
              match p
              case None => v in f.modifiesStates
              case Some(path) => path in f.modifiesStateFields && v == BeforeChar(path, '.') && v in stateVars
  {
    var x := StateModification(v, p);
    var nodes := BodyNodes(body);
    var ms := f.modifiesStates;
    var s1 := seq(|ms|, k requires 0 <= k < |ms| => StateModification(ms[k], None));
    var s3 := seq(|f.externalCalls|, k requires 0 <= k < |f.externalCalls| =>
                    ExternalCallSink(f.externalCalls[k].targetVariable, f.externalCalls[k].targetFunction));
    assert x !in s3;
    BodySinkKinds(nodes);
    if p.None? && v in ms {
      var k :| 0 <= k < |ms| && ms[k] == v;
      assert s1[k] == x;
    }
    assert RecordedSinks(f, stateVars) == s1 + FieldSinks(f.modifiesStateFields, stateVars) + s3;
    if p.Some? && p.value in f.modifiesStateFields && v == BeforeChar(p.value, '.') && v in stateVars {
      var k :| 0 <= k < |f.modifiesStateFields| && f.modifiesStateFields[k] == p.value;
      assert BeforeChar(f.modifiesStateFields[k], '.') in stateVars
             && x == StateModification(BeforeChar(f.modifiesStateFields[k], '.'), Some(f.modifiesStateFields[k]));
      assert x in FieldSinks(f.modifiesStateFields, stateVars);
    }
  }

  /** External-call sinks: one per recorded external call, by target variable and
      function. */
  lemma CallSinks(f: FunctionInfo, body: Option<Stmt>, stateVars: set<string>, t: string, g: string)
    ensures ExternalCallSink(t, g) in IdentifyTaintSinks(f, body, stateVars) <==>
              exists k :: 0 <= k < |f.externalCalls| && f.externalCalls[k].targetVariable == t
                && f.externalCalls[k].targetFunction == g
  {
    var x := ExternalCallSink(t, g);
    var nodes := BodyNodes(body);
    var ms := f.modifiesStates;
    var s1 := seq(|ms|, k requires 0 <= k < |ms| => StateModification(ms[k], None));
    var s3 := seq(|f.externalCalls|, k requires 0 <= k < |f.externalCalls| =>
                    ExternalCallSink(f.externalCalls[k].targetVariable, f.externalCalls[k].targetFunction));
    assert x !in s1;
    assert x !in FieldSinks(f.modifiesStateFields, stateVars);
    BodySinkKinds(nodes);
    if exists k :: 0 <= k < |f.externalCalls| && f.externalCalls[k].targetVariable == t && f.externalCalls[k].targetFunction == g {
      var k :| 0 <= k < |f.externalCalls| && f.externalCalls[k].targetVariable == t && f.externalCalls[k].targetFunction == g;
      assert s3[k] == x;
    }
  }

  /** A delegatecall sink names the rendered receiver of a visited `.delegatecall(...)`
      call, and every such call yields one. */
  lemma DelegateSinks(f: FunctionInfo, body: Option<Stmt>, stateVars: set<string>, t: string)
    ensures DelegateCall(t) in IdentifyTaintSinks(f, body, stateVars) <==>
              exists k :: 0 <= k < |BodyNodes(body)| && DelegatesTo(BodyNodes(body)[k], t)
  {
    assert DelegateCall(t) !in RecordedSinks(f, stateVars);
    DelegateIff(BodyNodes(body), t);
  }

  /** A call `b.delegatecall(...)` whose receiver `b` renders as `t`. */
  predicate DelegatesTo(e: Expr, t: string) {
    e.Call? && e.callee.Member? && e.callee.member == "delegatecall" && ExprToString(e.callee.base) == t
  }

  /** The scanner's delegatecall sinks over a node list: one per `.delegatecall(...)`
      call, named by its rendered receiver. */
  lemma DelegateIff(nodes: seq<Expr>, t: string)
    ensures DelegateCall(t) in SinksOf(nodes) <==> exists k :: 0 <= k < |nodes| && DelegatesTo(nodes[k], t)
  {
    SinksOfMembers(nodes);
    forall k | 0 <= k < |nodes|
      ensures LocalSink(nodes[k]) == Some(DelegateCall(t)) <==> DelegatesTo(nodes[k], t)
    {
      LocalDelegate(nodes[k], t);
    }
  }

  lemma LocalDelegate(e: Expr, t: string)
    ensures LocalSink(e) == Some(DelegateCall(t)) <==> DelegatesTo(e, t)
  {
  }

  /** The scanner only finds value transfers, delegatecalls and self-destructs. */
  lemma BodySinkKinds(nodes: seq<Expr>)
    ensures forall x :: x in SinksOf(nodes) ==> x.ValueTransfer? || x.DelegateCall? || x.SelfDestruct?
  {
    SinksOfMembers(nodes);
    assert forall k :: 0 <= k < |nodes| && LocalSink(nodes[k]).Some? ==>
             LocalSink(nodes[k]).value.ValueTransfer? || LocalSink(nodes[k]).value.DelegateCall?
             || LocalSink(nodes[k]).value.SelfDestruct?;
  }

  /** The analyzer never produces an array-index sink. */
  lemma NoArrayIndexSinks(f: FunctionInfo, body: Option<Stmt>, stateVars: set<string>)
    ensures forall x :: x in IdentifyTaintSinks(f, body, stateVars) ==> !x.ArrayIndex?
  {
    var nodes := BodyNodes(body);
    BodySinkKinds(nodes);
    assert forall x :: x in FieldSinks(f.modifiesStateFields, stateVars) ==> x.StateModification?;
  }
}
