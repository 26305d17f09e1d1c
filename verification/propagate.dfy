/** Inter-procedural propagation through storage parameters (src/analyzer.rs): a call
    `g(x)` where `g` writes its storage parameter at `x`'s position makes the caller a
    writer of the state variable `x` resolves to. Runs as a bounded fixed point. */
module Propagate {
  import opened Wrappers
  import opened Strings
  import opened Ast
  import opened Paths
  import opened Collections
  import opened Records
  import opened Extract

  /** A direct call `f(a0, a1, ...)` with each argument resolved to a state variable, or
      to "" when it does not resolve. */
  datatype CallSite = CallSite(callee: string, args: seq<string>)

  /** Round cap of the fixed point. */
  const MaxIterations: nat := 10

  // ---------------------------------------------------------------------------
  // Call sites with resolved arguments.

  /** Flat alias map for the whole body: `T x = init;` binds `x` to the root of `init`
      when that root is a state variable; later bindings replace earlier ones. Walks
      blocks, branches, loop bodies and `for` initialisers. */
  function StorageMapping(s: Stmt, stateVars: set<string>, m: map<string, string>): (r: map<string, string>)
    ensures (forall k :: k in m ==> m[k] in stateVars) ==> (forall k :: k in r ==> r[k] in stateVars)
    ensures m.Keys <= r.Keys
  {
    match s
    case VarDef(local, Some(init)) =>
      (match ExtractBaseVariable(init)
       case Some(b) => if b in stateVars && local.Some? then m[local.value := b] else m
       case None => m)
    case Block(_, stmts) => StorageMappingSeq(stmts, stateVars, m)
    case If(_, thenS, elseS) =>
      var m1 := StorageMapping(thenS, stateVars, m);
      (match elseS case Some(e) => StorageMapping(e, stateVars, m1) case None => m1)
    case While(_, body) => StorageMapping(body, stateVars, m)
    case DoWhile(body, _) => StorageMapping(body, stateVars, m)
    case For(init, _, _, body) =>
      var m1 := (match init case Some(i) => StorageMapping(i, stateVars, m) case None => m);
      (match body case Some(b) => StorageMapping(b, stateVars, m1) case None => m1)
    case _ => m
  }

  function StorageMappingSeq(ss: seq<Stmt>, stateVars: set<string>, m: map<string, string>)
    : (r: map<string, string>)
    ensures (forall k :: k in m ==> m[k] in stateVars) ==> (forall k :: k in r ==> r[k] in stateVars)
    ensures m.Keys <= r.Keys
  {
    if |ss| == 0 then m else StorageMappingSeq(ss[1..], stateVars, StorageMapping(ss[0], stateVars, m))
  }

  /** An argument resolved to the state variable it names, or "" when it names none. */
  function ResolveArg(arg: Expr, stateVars: set<string>, aliases: map<string, string>): (r: string)
    ensures r != "" ==> r in stateVars || r in aliases.Values
    ensures arg.Var? && arg.name in stateVars ==> r == arg.name
  {
    match ExtractBaseVariable(arg)
    case Some(n) =>
      (match ResolveToStateVar(n, stateVars, aliases)
       case Some(t) => t
       case None => "")
    case None => ""
  }

  function ResolveArgs(args: seq<Expr>, stateVars: set<string>, aliases: map<string, string>): (r: seq<string>)
    ensures |r| == |args|
    ensures forall i :: 0 <= i < |args| ==> r[i] == ResolveArg(args[i], stateVars, aliases)
  {
    seq(|args|, i requires 0 <= i < |args| => ResolveArg(args[i], stateVars, aliases))
  }

  /** Call sites of an expression: direct calls, then those in their arguments;
      member-access bases are searched too. */
  function ExprSites(e: Expr, stateVars: set<string>, aliases: map<string, string>): (r: seq<CallSite>)
  {
    match e
    case Call(callee, args) =>
      (if callee.Var? then [CallSite(callee.name, ResolveArgs(args, stateVars, aliases))] else [])
      + ExprSitesSeq(args, stateVars, aliases)
    case Member(b, _) => ExprSites(b, stateVars, aliases)
    case _ => []
  }

  function ExprSitesSeq(es: seq<Expr>, stateVars: set<string>, aliases: map<string, string>): (r: seq<CallSite>)
  {
    if |es| == 0 then [] else ExprSites(es[0], stateVars, aliases) + ExprSitesSeq(es[1..], stateVars, aliases)
  }

  function OptExprSites(e: Option<Expr>, stateVars: set<string>, aliases: map<string, string>): (r: seq<CallSite>)
  {
    match e case Some(x) => ExprSites(x, stateVars, aliases) case None => []
  }

  /** Call sites of a statement, over the same arms as the plain call walker. */
  function StmtSites(s: Stmt, stateVars: set<string>, aliases: map<string, string>): (r: seq<CallSite>)
  {
    match s
    case ExprStmt(e) => ExprSites(e, stateVars, aliases)
    case Block(_, stmts) => StmtSitesSeq(stmts, stateVars, aliases)
    case If(c, thenS, elseS) =>
      ExprSites(c, stateVars, aliases) + StmtSites(thenS, stateVars, aliases)
      + (match elseS case Some(e) => StmtSites(e, stateVars, aliases) case None => [])
    case While(c, body) => ExprSites(c, stateVars, aliases) + StmtSites(body, stateVars, aliases)
    case For(init, c, update, body) =>
      (match init case Some(i) => StmtSites(i, stateVars, aliases) case None => [])
      + OptExprSites(c, stateVars, aliases) + OptExprSites(update, stateVars, aliases)
      + (match body case Some(b) => StmtSites(b, stateVars, aliases) case None => [])
    case Return(Some(e)) => ExprSites(e, stateVars, aliases)
    case _ => []
  }

  function StmtSitesSeq(ss: seq<Stmt>, stateVars: set<string>, aliases: map<string, string>): (r: seq<CallSite>)
  {
    if |ss| == 0 then [] else StmtSites(ss[0], stateVars, aliases) + StmtSitesSeq(ss[1..], stateVars, aliases)
  }

  /** Every direct call of a body with its arguments resolved against the body's flat
      alias map. */
  function ExtractFunctionCallsWithArgs(body: Option<Stmt>, stateVars: set<string>): (r: seq<CallSite>)
    ensures forall k, j :: 0 <= k < |r| && 0 <= j < |r[k].args| && r[k].args[j] != "" ==> r[k].args[j] in stateVars
  {
    match body
    case None => []
    case Some(b) =>
      var m := StorageMapping(b, stateVars, map[]);
      SitesArgsResolved(b, stateVars, m);
      StmtSites(b, stateVars, m)
  }

  /** Names of the callees of a list of call sites. */
  function Callees(sites: seq<CallSite>): set<string> {
    set k | 0 <= k < |sites| :: sites[k].callee
  }

  // --- Resolved arguments name state variables. ---

  predicate ArgsResolved(sites: seq<CallSite>, stateVars: set<string>) {
    forall k, j :: 0 <= k < |sites| && 0 <= j < |sites[k].args| && sites[k].args[j] != "" ==>
      sites[k].args[j] in stateVars
  }

  lemma ArgsResolvedAppend(a: seq<CallSite>, b: seq<CallSite>, stateVars: set<string>)
    requires ArgsResolved(a, stateVars) && ArgsResolved(b, stateVars)
    ensures ArgsResolved(a + b, stateVars)
  {
    forall k, j | 0 <= k < |a + b| && 0 <= j < |(a + b)[k].args| && (a + b)[k].args[j] != ""
      ensures (a + b)[k].args[j] in stateVars
    {
      if k >= |a| {
        assert (a + b)[k] == b[k - |a|];
      }
    }
  }

  lemma {:induction false} ExprSitesResolved(e: Expr, stateVars: set<string>, aliases: map<string, string>)
    requires forall k :: k in aliases ==> aliases[k] in stateVars
    ensures ArgsResolved(ExprSites(e, stateVars, aliases), stateVars)
  {
    match e
    case Call(callee, args) =>
      ExprSitesSeqResolved(args, stateVars, aliases);
      ArgsResolvedAppend(if callee.Var? then [CallSite(callee.name, ResolveArgs(args, stateVars, aliases))] else [],
                         ExprSitesSeq(args, stateVars, aliases), stateVars);
    case Member(b, _) => ExprSitesResolved(b, stateVars, aliases);
    case _ =>
  }

  lemma {:induction false} ExprSitesSeqResolved(es: seq<Expr>, stateVars: set<string>, aliases: map<string, string>)
    requires forall k :: k in aliases ==> aliases[k] in stateVars
    ensures ArgsResolved(ExprSitesSeq(es, stateVars, aliases), stateVars)
  {
    if |es| > 0 {
      ExprSitesResolved(es[0], stateVars, aliases);
      ExprSitesSeqResolved(es[1..], stateVars, aliases);
      ArgsResolvedAppend(ExprSites(es[0], stateVars, aliases), ExprSitesSeq(es[1..], stateVars, aliases), stateVars);
    }
  }

  lemma OptExprSitesResolved(e: Option<Expr>, stateVars: set<string>, aliases: map<string, string>)
    requires forall k :: k in aliases ==> aliases[k] in stateVars
    ensures ArgsResolved(OptExprSites(e, stateVars, aliases), stateVars)
  {
    if e.Some? {
      ExprSitesResolved(e.value, stateVars, aliases);
    }
  }

  lemma {:induction false} SitesArgsResolved(s: Stmt, stateVars: set<string>, aliases: map<string, string>)
    requires forall k :: k in aliases ==> aliases[k] in stateVars
    ensures ArgsResolved(StmtSites(s, stateVars, aliases), stateVars)
  {
    match s
    case ExprStmt(e) => ExprSitesResolved(e, stateVars, aliases);
    case Block(_, stmts) => SitesSeqArgsResolved(stmts, stateVars, aliases);
    case If(c, thenS, elseS) =>
      ExprSitesResolved(c, stateVars, aliases);
      SitesArgsResolved(thenS, stateVars, aliases);
      var tail: seq<CallSite> := match elseS case Some(e) => StmtSites(e, stateVars, aliases) case None => [];
      if elseS.Some? {
        SitesArgsResolved(elseS.value, stateVars, aliases);
      }
      ArgsResolvedAppend(ExprSites(c, stateVars, aliases), StmtSites(thenS, stateVars, aliases), stateVars);
      ArgsResolvedAppend(ExprSites(c, stateVars, aliases) + StmtSites(thenS, stateVars, aliases), tail, stateVars);
    case While(c, body) =>
      ExprSitesResolved(c, stateVars, aliases);
      SitesArgsResolved(body, stateVars, aliases);
      ArgsResolvedAppend(ExprSites(c, stateVars, aliases), StmtSites(body, stateVars, aliases), stateVars);
    case For(init, c, update, body) =>
      var a: seq<CallSite> := match init case Some(i) => StmtSites(i, stateVars, aliases) case None => [];
      var d: seq<CallSite> := match body case Some(b) => StmtSites(b, stateVars, aliases) case None => [];
      if init.Some? {
        SitesArgsResolved(init.value, stateVars, aliases);
      }
      if body.Some? {
        SitesArgsResolved(body.value, stateVars, aliases);
      }
      OptExprSitesResolved(c, stateVars, aliases);
      OptExprSitesResolved(update, stateVars, aliases);
      var b := OptExprSites(c, stateVars, aliases);
      var u := OptExprSites(update, stateVars, aliases);
      ArgsResolvedAppend(a, b, stateVars);
      ArgsResolvedAppend(a + b, u, stateVars);
      ArgsResolvedAppend(a + b + u, d, stateVars);
    case Return(Some(e)) => ExprSitesResolved(e, stateVars, aliases);
    case _ =>
  }

  lemma {:induction false} SitesSeqArgsResolved(ss: seq<Stmt>, stateVars: set<string>, aliases: map<string, string>)
    requires forall k :: k in aliases ==> aliases[k] in stateVars
    ensures ArgsResolved(StmtSitesSeq(ss, stateVars, aliases), stateVars)
  {
    if |ss| > 0 {
      SitesArgsResolved(ss[0], stateVars, aliases);
      SitesSeqArgsResolved(ss[1..], stateVars, aliases);
      ArgsResolvedAppend(StmtSites(ss[0], stateVars, aliases), StmtSitesSeq(ss[1..], stateVars, aliases), stateVars);
    }
  }

  // --- The call-site walker finds the same callees as the plain call walker. ---

  lemma CalleesAppend(a: seq<CallSite>, b: seq<CallSite>)
    ensures Callees(a + b) == Callees(a) + Callees(b)
  {
    forall x | x in Callees(a + b) ensures x in Callees(a) + Callees(b) {
      var k :| 0 <= k < |a + b| && (a + b)[k].callee == x;
      if k >= |a| {
        assert b[k - |a|].callee == x;
      }
    }
    forall x | x in Callees(a) + Callees(b) ensures x in Callees(a + b) {
      if x in Callees(a) {
        var k :| 0 <= k < |a| && a[k].callee == x;
        assert (a + b)[k].callee == x;
      } else {
        var k :| 0 <= k < |b| && b[k].callee == x;
        assert (a + b)[|a| + k].callee == x;
      }
    }
  }

  /** A set view of an accumulated name list. */
  function Elems(xs: seq<string>): set<string> {
    set x | x in xs
  }

  lemma {:induction false} ExprCallsAgree(e: Expr, stateVars: set<string>, aliases: map<string, string>, acc: seq<string>)
    ensures Elems(ExprCalls(e, acc)) == Elems(acc) + Callees(ExprSites(e, stateVars, aliases))
  {
    match e
    case Call(callee, args) =>
      var acc1 := if callee.Var? then Insert(acc, callee.name) else acc;
      var head: seq<CallSite> := if callee.Var? then [CallSite(callee.name, ResolveArgs(args, stateVars, aliases))] else [];
      ExprCallsSeqAgree(args, stateVars, aliases, acc1);
      CalleesAppend(head, ExprSitesSeq(args, stateVars, aliases));
      HeadCallees(callee, head, ResolveArgs(args, stateVars, aliases));
    case Member(b, _) => ExprCallsAgree(b, stateVars, aliases, acc);
    case _ =>
  }

  lemma HeadCallees(callee: Expr, head: seq<CallSite>, args: seq<string>)
    requires head == if callee.Var? then [CallSite(callee.name, args)] else []
    ensures Callees(head) == if callee.Var? then {callee.name} else {}
  {
    if callee.Var? {
      assert head[0].callee == callee.name;
    }
  }

  lemma {:induction false} ExprCallsSeqAgree(es: seq<Expr>, stateVars: set<string>, aliases: map<string, string>, acc: seq<string>)
    ensures Elems(ExprCallsSeq(es, acc)) == Elems(acc) + Callees(ExprSitesSeq(es, stateVars, aliases))
  {
    if |es| > 0 {
      ExprCallsAgree(es[0], stateVars, aliases, acc);
      ExprCallsSeqAgree(es[1..], stateVars, aliases, ExprCalls(es[0], acc));
      CalleesAppend(ExprSites(es[0], stateVars, aliases), ExprSitesSeq(es[1..], stateVars, aliases));
    }
  }

  lemma OptExprCallsAgree(e: Option<Expr>, stateVars: set<string>, aliases: map<string, string>, acc: seq<string>)
    ensures Elems(OptExprCalls(e, acc)) == Elems(acc) + Callees(OptExprSites(e, stateVars, aliases))
  {
    if e.Some? {
      ExprCallsAgree(e.value, stateVars, aliases, acc);
    }
  }

  /** The call-site walker used by the propagator and the plain call walker find the same
      callee names in any statement. */
  lemma {:induction false} StmtCallsAgree(s: Stmt, stateVars: set<string>, aliases: map<string, string>, acc: seq<string>)
    ensures Elems(StmtCalls(s, acc)) == Elems(acc) + Callees(StmtSites(s, stateVars, aliases))
    decreases s, 1
  {
    match s
    case ExprStmt(e) => ExprCallsAgree(e, stateVars, aliases, acc);
    case Block(_, stmts) => StmtsCallsAgree(stmts, stateVars, aliases, acc);
    case If(_, _, _) => IfCallsAgree(s, stateVars, aliases, acc);
    case While(c, body) =>
      ExprCallsAgree(c, stateVars, aliases, acc);
      StmtCallsAgree(body, stateVars, aliases, ExprCalls(c, acc));
      CalleesAppend(ExprSites(c, stateVars, aliases), StmtSites(body, stateVars, aliases));
    case For(_, _, _, _) => ForCallsAgree(s, stateVars, aliases, acc);
    case Return(Some(e)) => ExprCallsAgree(e, stateVars, aliases, acc);
    case _ =>
  }

  lemma {:induction false} IfCallsAgree(s: Stmt, stateVars: set<string>, aliases: map<string, string>, acc: seq<string>)
    requires s.If?
    ensures Elems(StmtCalls(s, acc)) == Elems(acc) + Callees(StmtSites(s, stateVars, aliases))
    decreases s, 0
  {
    var If(c, thenS, elseS) := s;
    var a0 := ExprCalls(c, acc);
    var a1 := StmtCalls(thenS, a0);
    var sc := ExprSites(c, stateVars, aliases);
    var st := StmtSites(thenS, stateVars, aliases);
    var tail: seq<CallSite> := match elseS case Some(e) => StmtSites(e, stateVars, aliases) case None => [];
    assert StmtSites(s, stateVars, aliases) == sc + st + tail;
    ExprCallsAgree(c, stateVars, aliases, acc);
    StmtCallsAgree(thenS, stateVars, aliases, a0);
    if elseS.Some? {
      StmtCallsAgree(elseS.value, stateVars, aliases, a1);
    }
    CalleesAppend(sc, st);
    CalleesAppend(sc + st, tail);
  }

  lemma {:induction false} ForCallsAgree(s: Stmt, stateVars: set<string>, aliases: map<string, string>, acc: seq<string>)
    requires s.For?
    ensures Elems(StmtCalls(s, acc)) == Elems(acc) + Callees(StmtSites(s, stateVars, aliases))
    decreases s, 0
  {
    var For(init, c, update, body) := s;
    var a: seq<CallSite> := match init case Some(i) => StmtSites(i, stateVars, aliases) case None => [];
    var d: seq<CallSite> := match body case Some(b) => StmtSites(b, stateVars, aliases) case None => [];
    var b := OptExprSites(c, stateVars, aliases);
    var u := OptExprSites(update, stateVars, aliases);
    assert StmtSites(s, stateVars, aliases) == a + b + u + d;
    var a1 := (match init case Some(i) => StmtCalls(i, acc) case None => acc);
    if init.Some? {
      StmtCallsAgree(init.value, stateVars, aliases, acc);
    }
    OptExprCallsAgree(c, stateVars, aliases, a1);
    OptExprCallsAgree(update, stateVars, aliases, OptExprCalls(c, a1));
    var a2 := OptExprCalls(update, OptExprCalls(c, a1));
    if body.Some? {
      StmtCallsAgree(body.value, stateVars, aliases, a2);
    }
    CalleesAppend(a, b);
    CalleesAppend(a + b, u);
    CalleesAppend(a + b + u, d);
  }

  lemma {:induction false} StmtsCallsAgree(ss: seq<Stmt>, stateVars: set<string>, aliases: map<string, string>, acc: seq<string>)
    ensures Elems(StmtsCalls(ss, acc)) == Elems(acc) + Callees(StmtSitesSeq(ss, stateVars, aliases))
  {
    if |ss| > 0 {
      StmtCallsAgree(ss[0], stateVars, aliases, acc);
      StmtsCallsAgree(ss[1..], stateVars, aliases, StmtCalls(ss[0], acc));
      CalleesAppend(StmtSites(ss[0], stateVars, aliases), StmtSitesSeq(ss[1..], stateVars, aliases));
    }
  }

  /** The functions a body calls are exactly the callees of its call sites. */
  lemma CallSitesMatchCalls(body: Option<Stmt>, stateVars: set<string>)
    ensures Elems(FindFunctionCalls(body)) == Callees(ExtractFunctionCallsWithArgs(body, stateVars))
  {
    if body.Some? {
      StmtCallsAgree(body.value, stateVars, StorageMapping(body.value, stateVars, map[]), []);
    }
  }

  // ---------------------------------------------------------------------------
  // The fixed point.

  /** The callee's write list shows a write of its parameter `p`: some entry is `p` or
      starts with "p.". */
  predicate ParamModified(mods: seq<string>, p: string) {
    exists m :: m in mods && (m == p || StartsWith(m, p + "."))
  }

  /** Storage parameters each function is known, from its body, to write, by function
      name. The analyzer as written knows none; see `PropagateCorrected`. */
  type ParamWrites = map<string, set<string>>

  /** The callee writes storage parameter `sp`: its write list says so, or it is among
      the parameter writes known for it. */
  predicate ParamWritten(callee: FunctionInfo, sp: StorageParam, known: ParamWrites) {
    || ParamModified(callee.modifiesStates, sp.paramName)
    || (callee.name in known && sp.paramName in known[callee.name])
  }

  ghost predicate ParamJustifies(site: CallSite, callee: FunctionInfo, sp: StorageParam, v: string,
                                 known: ParamWrites) {
    && sp.paramIndex < |site.args|
    && site.args[sp.paramIndex] == v
    && ParamWritten(callee, sp, known)
  }

  /** The call site passes `v` at the position of a storage parameter its callee writes. */
  ghost predicate SiteJustifies(site: CallSite, fns: seq<FunctionInfo>, v: string, known: ParamWrites) {
    match FuncIndex(fns, site.callee)
    case None => false
    case Some(c) =>
      exists j :: 0 <= j < |fns[c].storageParams| && ParamJustifies(site, fns[c], fns[c].storageParams[j], v, known)
  }

  /** Arguments one call site hands to written storage parameters of one callee,
      scanning its storage parameters from position `from`. */
  function ParamModifications(site: CallSite, callee: FunctionInfo, sps: seq<StorageParam>, from: nat,
                              known: ParamWrites): (r: seq<string>)
    requires from <= |sps|
    ensures NoDups(r)
    ensures forall v :: v in r <==> exists j :: from <= j < |sps| && ParamJustifies(site, callee, sps[j], v, known)
    decreases |sps| - from
  {
    if from == |sps| then []
    else
      var rest := ParamModifications(site, callee, sps, from + 1, known);
      var sp := sps[from];
      if sp.paramIndex < |site.args| && ParamWritten(callee, sp, known)
      then Insert(rest, site.args[sp.paramIndex])
      else rest
  }

  function SiteModifications(site: CallSite, fns: seq<FunctionInfo>, known: ParamWrites): (r: seq<string>)
    ensures NoDups(r)
    ensures forall v :: v in r <==> SiteJustifies(site, fns, v, known)
  {
    match FuncIndex(fns, site.callee)
    case None => []
    case Some(c) => ParamModifications(site, fns[c], fns[c].storageParams, 0, known)
  }

  /** Arguments a caller's call sites hand to storage parameters that their callee
      writes, without duplicates: exactly the justified ones. */
  function NewModifications(sites: seq<CallSite>, fns: seq<FunctionInfo>, known: ParamWrites): (r: seq<string>)
    ensures NoDups(r)
    ensures forall v :: v in r <==> exists k :: 0 <= k < |sites| && SiteJustifies(sites[k], fns, v, known)
  {
    if |sites| == 0 then []
    else
      var rest := NewModifications(sites[1..], fns, known);
      var here := SiteModifications(sites[0], fns, known);
      forall v | v in rest ensures exists k :: 0 <= k < |sites| && SiteJustifies(sites[k], fns, v, known) {
        var k :| 0 <= k < |sites| - 1 && SiteJustifies(sites[1..][k], fns, v, known);
        assert sites[1..][k] == sites[k + 1];
      }
      forall v, k | 0 < k < |sites| && SiteJustifies(sites[k], fns, v, known) ensures v in rest {
        assert sites[1..][k - 1] == sites[k];
      }
      InsertAll(here, rest)
  }

  /** `after` is `before` with only the write lists grown, each by appending. */
  predicate Grows(before: seq<FunctionInfo>, after: seq<FunctionInfo>) {
    && |after| == |before|
    && forall i :: 0 <= i < |before| ==>
         && after[i] == before[i].(modifiesStates := after[i].modifiesStates)
         && before[i].modifiesStates <= after[i].modifiesStates
  }

  /** A name indexes the same position in two lists with the same names. */
  lemma FuncIndexSameNames(a: seq<FunctionInfo>, b: seq<FunctionInfo>, name: string)
    requires |a| == |b| && forall i :: 0 <= i < |a| ==> a[i].name == b[i].name
    ensures FuncIndex(a, name) == FuncIndex(b, name)
  {
    if |a| > 0 && a[|a| - 1].name != name {
      FuncIndexSameNames(a[..|a| - 1], b[..|b| - 1], name);
    }
  }

  /** A justification stays valid when the write lists grow. */
  lemma JustificationPersists(site: CallSite, a: seq<FunctionInfo>, b: seq<FunctionInfo>, v: string,
                              known: ParamWrites)
    requires Grows(a, b)
    requires SiteJustifies(site, a, v, known)
    ensures SiteJustifies(site, b, v, known)
  {
    FuncIndexSameNames(a, b, site.callee);
    var c := FuncIndex(a, site.callee).value;
    var j :| 0 <= j < |a[c].storageParams| && ParamJustifies(site, a[c], a[c].storageParams[j], v, known);
    var sp := a[c].storageParams[j];
    if ParamModified(a[c].modifiesStates, sp.paramName) {
      var m :| m in a[c].modifiesStates && (m == sp.paramName || StartsWith(m, sp.paramName + "."));
      assert m in b[c].modifiesStates;
    }
    assert ParamJustifies(site, b[c], b[c].storageParams[j], v, known);
  }

  /** `v` was gained by function `i` legitimately: one of its call sites hands `v` to a
      storage parameter that the callee writes. */
  ghost predicate GainJustified(fns: seq<FunctionInfo>, i: nat, v: string, bodies: map<string, Option<Stmt>>,
                                stateVars: set<string>, known: ParamWrites)
    requires i < |fns|
  {
    && fns[i].name in bodies
    && var sites := ExtractFunctionCallsWithArgs(bodies[fns[i].name], stateVars);
       exists k :: 0 <= k < |sites| && SiteJustifies(sites[k], fns, v, known)
  }

  /** Every entry gained since `orig` is justified in `now`. */
  ghost predicate GainsJustified(orig: seq<FunctionInfo>, now: seq<FunctionInfo>, bodies: map<string, Option<Stmt>>,
                                 stateVars: set<string>, known: ParamWrites)
    requires |orig| == |now|
  {
    forall i, v :: 0 <= i < |now| && v in now[i].modifiesStates && v !in orig[i].modifiesStates ==>
      GainJustified(now, i, v, bodies, stateVars, known)
  }

  lemma GainsPersist(orig: seq<FunctionInfo>, a: seq<FunctionInfo>, b: seq<FunctionInfo>,
                     bodies: map<string, Option<Stmt>>, stateVars: set<string>, known: ParamWrites)
    requires Grows(orig, a) && Grows(a, b)
    requires GainsJustified(orig, a, bodies, stateVars, known)
    ensures forall i, v :: 0 <= i < |a| && v in a[i].modifiesStates && v !in orig[i].modifiesStates ==>
              GainJustified(b, i, v, bodies, stateVars, known)
  {
    forall i, v | 0 <= i < |a| && v in a[i].modifiesStates && v !in orig[i].modifiesStates
      ensures GainJustified(b, i, v, bodies, stateVars, known)
    {
      var sites := ExtractFunctionCallsWithArgs(bodies[a[i].name], stateVars);
      var k :| 0 <= k < |sites| && SiteJustifies(sites[k], a, v, known);
      JustificationPersists(sites[k], a, b, v, known);
    }
  }

  /** The call site passes `v` to a storage parameter the callee is KNOWN to write; unlike
      a write-list justification this does not depend on the round. */
  ghost predicate SiteDirect(site: CallSite, fns: seq<FunctionInfo>, v: string, known: ParamWrites) {
    match FuncIndex(fns, site.callee)
    case None => false
    case Some(c) =>
      exists j :: 0 <= j < |fns[c].storageParams| && DirectParam(site, fns[c], fns[c].storageParams[j], v, known)
  }

  ghost predicate DirectParam(site: CallSite, callee: FunctionInfo, sp: StorageParam, v: string, known: ParamWrites) {
    && sp.paramIndex < |site.args|
    && site.args[sp.paramIndex] == v
    && callee.name in known && sp.paramName in known[callee.name]
  }

  lemma DirectJustifies(site: CallSite, orig: seq<FunctionInfo>, now: seq<FunctionInfo>, v: string, known: ParamWrites)
    requires Grows(orig, now)
    requires SiteDirect(site, orig, v, known)
    ensures SiteJustifies(site, now, v, known)
  {
    FuncIndexSameNames(orig, now, site.callee);
    var c := FuncIndex(orig, site.callee).value;
    var j :| 0 <= j < |orig[c].storageParams| && DirectParam(site, orig[c], orig[c].storageParams[j], v, known);
    assert ParamJustifies(site, now[c], now[c].storageParams[j], v, known);
  }

  /** Function `i` holds every argument its call sites pass to a storage parameter its
      callee is known to write. */
  ghost predicate DirectGainsIn(orig: seq<FunctionInfo>, i: nat, now: seq<FunctionInfo>,
                                bodies: map<string, Option<Stmt>>, stateVars: set<string>, known: ParamWrites)
    requires i < |orig| && |now| == |orig|
  {
    orig[i].name in bodies ==>
      var sites := ExtractFunctionCallsWithArgs(bodies[orig[i].name], stateVars);
      forall k, v :: 0 <= k < |sites| && SiteDirect(sites[k], orig, v, known) ==> v in now[i].modifiesStates
  }

  /** The result of one pass over the functions. */
  datatype RoundResult = RoundResult(functions: seq<FunctionInfo>, changed: bool)

  /** Function `i` after its step: its write list extended, in discovery order, by the
      arguments its call sites pass to written storage parameters of their callees. */
  function Step(fns: seq<FunctionInfo>, i: nat, bodies: map<string, Option<Stmt>>, stateVars: set<string>,
                known: ParamWrites): (r: seq<FunctionInfo>)
    requires i < |fns| && fns[i].name in bodies
    ensures Grows(fns, r)
    ensures forall j :: 0 <= j < |fns| && j != i ==> r[j] == fns[j]
    ensures NoDups(fns[i].modifiesStates) ==> NoDups(r[i].modifiesStates)
    ensures forall v :: v in r[i].modifiesStates <==>
              v in fns[i].modifiesStates ||
              exists k :: 0 <= k < |ExtractFunctionCallsWithArgs(bodies[fns[i].name], stateVars)| &&
                SiteJustifies(ExtractFunctionCallsWithArgs(bodies[fns[i].name], stateVars)[k], fns, v, known)
  {
    var sites := ExtractFunctionCallsWithArgs(bodies[fns[i].name], stateVars);
    var gained := NewModifications(sites, fns, known);
    fns[i := fns[i].(modifiesStates := InsertAll(fns[i].modifiesStates, gained))]
  }

  /** A step keeps the round invariants and completes function `i`. */
  lemma StepKeepsInvariants(orig: seq<FunctionInfo>, fns: seq<FunctionInfo>, i: nat, bodies: map<string, Option<Stmt>>,
                            stateVars: set<string>, known: ParamWrites)
    requires i < |fns| && fns[i].name in bodies
    requires Grows(orig, fns)
    requires GainsJustified(orig, fns, bodies, stateVars, known)
    requires forall j :: 0 <= j < |fns| ==> (NoDups(orig[j].modifiesStates) ==> NoDups(fns[j].modifiesStates))
    requires forall j :: 0 <= j < i ==> DirectGainsIn(orig, j, fns, bodies, stateVars, known)
    ensures var fns' := Step(fns, i, bodies, stateVars, known);
            && Grows(orig, fns')
            && GainsJustified(orig, fns', bodies, stateVars, known)
            && (forall j :: 0 <= j < |fns| ==> (NoDups(orig[j].modifiesStates) ==> NoDups(fns'[j].modifiesStates)))
            && (forall j :: 0 <= j <= i ==> DirectGainsIn(orig, j, fns', bodies, stateVars, known))
  {
    var fns' := Step(fns, i, bodies, stateVars, known);
    var sites := ExtractFunctionCallsWithArgs(bodies[fns[i].name], stateVars);
    GainsPersist(orig, fns, fns', bodies, stateVars, known);
    forall v | v in fns'[i].modifiesStates && v !in orig[i].modifiesStates
      ensures GainJustified(fns', i, v, bodies, stateVars, known)
    {
      if v !in fns[i].modifiesStates {
        var k :| 0 <= k < |sites| && SiteJustifies(sites[k], fns, v, known);
        JustificationPersists(sites[k], fns, fns', v, known);
      }
    }
    forall k, v | 0 <= k < |sites| && SiteDirect(sites[k], orig, v, known) ensures v in fns'[i].modifiesStates {
      DirectJustifies(sites[k], orig, fns, v, known);
    }
    assert DirectGainsIn(orig, i, fns', bodies, stateVars, known);
    forall j | 0 <= j < i ensures DirectGainsIn(orig, j, fns', bodies, stateVars, known) {
      assert DirectGainsIn(orig, j, fns, bodies, stateVars, known);
      assert fns'[j] == fns[j];
    }
  }

  /** One round from position `i` on: each function with a body takes its step in
      place, so a later function already sees what earlier ones gained in the round. */
  function RoundFrom(fns: seq<FunctionInfo>, i: nat, bodies: map<string, Option<Stmt>>, stateVars: set<string>,
                     known: ParamWrites, changed: bool, ghost orig: seq<FunctionInfo>): (r: RoundResult)
    requires i <= |fns|
    requires Grows(orig, fns)
    requires GainsJustified(orig, fns, bodies, stateVars, known)
    requires forall j :: 0 <= j < |fns| ==> (NoDups(orig[j].modifiesStates) ==> NoDups(fns[j].modifiesStates))
    requires forall j :: 0 <= j < i ==> DirectGainsIn(orig, j, fns, bodies, stateVars, known)
    ensures Grows(orig, r.functions)
    ensures GainsJustified(orig, r.functions, bodies, stateVars, known)
    ensures forall j :: 0 <= j < |fns| ==> (NoDups(orig[j].modifiesStates) ==> NoDups(r.functions[j].modifiesStates))
    ensures forall j :: 0 <= j < |fns| ==> DirectGainsIn(orig, j, r.functions, bodies, stateVars, known)
    ensures !r.changed ==> !changed && r.functions == fns
    decreases |fns| - i
  {
    if i == |fns| then RoundResult(fns, changed)
    else if fns[i].name !in bodies then
      assert DirectGainsIn(orig, i, fns, bodies, stateVars, known);
      RoundFrom(fns, i + 1, bodies, stateVars, known, changed, orig)
    else
      var fns' := Step(fns, i, bodies, stateVars, known);
      StepKeepsInvariants(orig, fns, i, bodies, stateVars, known);
      RoundFrom(fns', i + 1, bodies, stateVars, known, changed || fns' != fns, orig)
  }

  /** The result of the fixed point, with the number of rounds it ran. */
  datatype Propagation = Propagation(functions: seq<FunctionInfo>, rounds: nat)

  function Iterate(fns: seq<FunctionInfo>, bodies: map<string, Option<Stmt>>, stateVars: set<string>,
                   known: ParamWrites, rounds: nat, ghost orig: seq<FunctionInfo>): (r: Propagation)
    requires rounds < MaxIterations
    requires Grows(orig, fns)
    requires GainsJustified(orig, fns, bodies, stateVars, known)
    requires forall j :: 0 <= j < |fns| ==> (NoDups(orig[j].modifiesStates) ==> NoDups(fns[j].modifiesStates))
    ensures Grows(orig, r.functions)
    ensures GainsJustified(orig, r.functions, bodies, stateVars, known)
    ensures forall j :: 0 <= j < |fns| ==> (NoDups(orig[j].modifiesStates) ==> NoDups(r.functions[j].modifiesStates))
    ensures forall j :: 0 <= j < |fns| ==> DirectGainsIn(orig, j, r.functions, bodies, stateVars, known)
    ensures rounds < r.rounds <= MaxIterations
    ensures r.rounds < MaxIterations ==>
              var again := RoundFrom(r.functions, 0, bodies, stateVars, known, false, orig);
              !again.changed && again.functions == r.functions
    decreases MaxIterations - rounds
  {
    var round := RoundFrom(fns, 0, bodies, stateVars, known, false, orig);
    if round.changed && rounds + 1 < MaxIterations then
      Iterate(round.functions, bodies, stateVars, known, rounds + 1, orig)
    else
      Propagation(round.functions, rounds + 1)
  }

  /** The fixed point: at most ten rounds, stopping after the first round that changes
      nothing. Write lists only grow by appending and never gain a duplicate; every
      gained entry is justified by a call site of the function; and every argument
      passed to a storage parameter the callee is known to write has been gained. When
      it stops before the tenth round the result is a fixed point: one more round
      changes nothing. */
  function Propagate(fns: seq<FunctionInfo>, bodies: map<string, Option<Stmt>>, stateVars: set<string>,
                     known: ParamWrites): (r: Propagation)
    ensures 1 <= r.rounds <= MaxIterations
    ensures Grows(fns, r.functions)
    ensures forall j :: 0 <= j < |fns| ==> (NoDups(fns[j].modifiesStates) ==> NoDups(r.functions[j].modifiesStates))
    ensures GainsJustified(fns, r.functions, bodies, stateVars, known)
    ensures forall j :: 0 <= j < |fns| ==> DirectGainsIn(fns, j, r.functions, bodies, stateVars, known)
    ensures r.rounds < MaxIterations ==>
              var again := RoundFrom(r.functions, 0, bodies, stateVars, known, false, fns);
              !again.changed && again.functions == r.functions
  {
    Iterate(fns, bodies, stateVars, known, 0, fns)
  }

  /** The propagation as the analyzer writes it: a callee counts as writing its storage
      parameter only when its own write list says so. */
  function PropagateStorageParamModifications(fns: seq<FunctionInfo>, bodies: map<string, Option<Stmt>>,
                                              stateVars: set<string>): (r: Propagation)
    ensures 1 <= r.rounds <= MaxIterations
    ensures Grows(fns, r.functions)
    ensures forall j :: 0 <= j < |fns| ==> (NoDups(fns[j].modifiesStates) ==> NoDups(r.functions[j].modifiesStates))
    ensures GainsJustified(fns, r.functions, bodies, stateVars, map[])
  {
    Propagate(fns, bodies, stateVars, map[])
  }

  // --- As written, the propagation never fires. ---

  lemma NoDotInMarker()
    ensures '.' !in StorageStructMarker
  {
  }

  /** A string that starts with "p." has a dot right after `p`. */
  lemma DottedPrefix(m: string, p: string)
    requires StartsWith(m, p + ".")
    ensures |m| > |p| && m[|p|] == '.'
  {
    assert m[..|p| + 1][|p|] == (p + ".")[|p|];
  }

  /** A write list whose entries are dot-free names other than `p` never shows a write
      of `p`. */
  lemma NotParamModified(mods: seq<string>, p: string)
    requires forall m :: m in mods ==> m != p && '.' !in m
    ensures !ParamModified(mods, p)
  {
    forall m | m in mods ensures !StartsWith(m, p + ".") {
      if StartsWith(m, p + ".") {
        DottedPrefix(m, p);
      }
    }
  }

  /** Write lists as the body walk produces them (state variables or the storage-struct
      marker), state variables without dots, and storage parameters that do not share a
      name with a state variable or the marker. */
  ghost predicate AsExtracted(fns: seq<FunctionInfo>, stateVars: set<string>) {
    && (forall v :: v in stateVars ==> '.' !in v)
    && (forall i, m :: 0 <= i < |fns| && m in fns[i].modifiesStates ==> m in stateVars || m == StorageStructMarker)
    && (forall i, j :: 0 <= i < |fns| && 0 <= j < |fns[i].storageParams| ==>
          fns[i].storageParams[j].paramName !in stateVars && fns[i].storageParams[j].paramName != StorageStructMarker)
  }

  /** On such lists no call site justifies any gain. */
  lemma NothingJustified(site: CallSite, fns: seq<FunctionInfo>, v: string, stateVars: set<string>)
    requires AsExtracted(fns, stateVars)
    ensures !SiteJustifies(site, fns, v, map[])
  {
    if FuncIndex(fns, site.callee).Some? {
      var c := FuncIndex(fns, site.callee).value;
      NoDotInMarker();
      forall j | 0 <= j < |fns[c].storageParams| ensures !ParamJustifies(site, fns[c], fns[c].storageParams[j], v, map[]) {
        NotParamModified(fns[c].modifiesStates, fns[c].storageParams[j].paramName);
      }
    }
  }

  lemma {:induction false} RoundInert(fns: seq<FunctionInfo>, i: nat, bodies: map<string, Option<Stmt>>,
                                      stateVars: set<string>)
    requires i <= |fns|
    requires AsExtracted(fns, stateVars)
    ensures RoundFrom(fns, i, bodies, stateVars, map[], false, fns) == RoundResult(fns, false)
    decreases |fns| - i
  {
    if i < |fns| {
      if fns[i].name in bodies {
        var sites := ExtractFunctionCallsWithArgs(bodies[fns[i].name], stateVars);
        forall k, v | 0 <= k < |sites| ensures !SiteJustifies(sites[k], fns, v, map[]) {
          NothingJustified(sites[k], fns, v, stateVars);
        }
        NoMembersEmpty(NewModifications(sites, fns, map[]));
        assert Step(fns, i, bodies, stateVars, map[]) == fns;
      }
      RoundInert(fns, i + 1, bodies, stateVars);
    }
  }

  /** A list with no members is empty. */
  lemma NoMembersEmpty(xs: seq<string>)
    requires forall x :: x !in xs
    ensures xs == []
  {
    if |xs| > 0 {
      FirstIsMember(xs);
    }
  }

  lemma FirstIsMember(xs: seq<string>)
    requires |xs| > 0
    ensures xs[0] in xs
  {
  }

  /** As written, a callee's write list never names its own storage parameters (they are
      filtered out, and a parameter is neither a state variable nor an alias of one), so
      on lists produced by the body walk the propagation stops after one round having
      changed nothing. */
  lemma PropagationNeverFires(fns: seq<FunctionInfo>, bodies: map<string, Option<Stmt>>, stateVars: set<string>)
    requires AsExtracted(fns, stateVars)
    ensures PropagateStorageParamModifications(fns, bodies, stateVars) == Propagation(fns, 1)
  {
    RoundInert(fns, 0, bodies, stateVars);
  }

  /** The smallest instance: `function g(S storage s) internal { s.x = 1; }` writes its
      storage parameter, yet its write list is empty, so a caller `g(data)` gains nothing. */
  lemma ParamWriteExample()
    ensures var body := Some(ExprStmt(Assign(Plain, Member(Var("s"), "x"), NumberLit("1"))));
            && FindStateModifications(body, {"data"}, [StorageParam(0, "s")]) == []
            && ParamsWrittenInBody(body, {"data"}, [StorageParam(0, "s")]) == {"s"}
  {
    var body := ExprStmt(Assign(Plain, Member(Var("s"), "x"), NumberLit("1")));
    assert StmtMods(body, {"data"}, ScanState([], map[])).modified == [];
    assert StmtMods(body, {"data", "s"}, ScanState([], map[])).modified == ["s"];
    var ps := [StorageParam(0, "s")];
    assert ps[0].paramName == "s";
    assert ParamNames(ps) == {"s"};
  }

  // --- Corrected: a callee's parameter writes are read from its body. ---

  /** Storage parameters a body writes through the parameter itself or a local alias of
      it: the body walk with the parameter names taken as further roots. */
  function ParamsWrittenInBody(body: Option<Stmt>, stateVars: set<string>, sps: seq<StorageParam>): (r: set<string>)
    ensures r <= ParamNames(sps)
    ensures body.Some? ==> forall p :: p in ParamNames(sps) ==>
              (p in r <==> p in StmtMods(body.value, stateVars + ParamNames(sps), ScanState([], map[])).modified)
  {
    match body
    case None => {}
    case Some(b) =>
      var found := StmtMods(b, stateVars + ParamNames(sps), ScanState([], map[])).modified;
      set p | p in ParamNames(sps) && p in found
  }

  /** For every function with a body, the storage parameters the body writes. */
  function DirectParamWrites(fns: seq<FunctionInfo>, bodies: map<string, Option<Stmt>>, stateVars: set<string>)
    : (r: ParamWrites)
    ensures forall n :: n in r <==> n in bodies && FuncIndex(fns, n).Some?
    ensures forall n :: n in r ==> (FuncIndex(fns, n).Some? &&
              r[n] == ParamsWrittenInBody(bodies[n], stateVars, fns[FuncIndex(fns, n).value].storageParams))
  {
    map n | n in bodies.Keys && FuncIndex(fns, n).Some? ::
      ParamsWrittenInBody(bodies[n], stateVars, fns[FuncIndex(fns, n).value].storageParams)
  }

  /** The propagation as evidently intended: a callee writes its storage parameter when
      its write list says so or its body writes the parameter. */
  function PropagateCorrected(fns: seq<FunctionInfo>, bodies: map<string, Option<Stmt>>, stateVars: set<string>)
    : (r: Propagation)
    ensures 1 <= r.rounds <= MaxIterations
    ensures Grows(fns, r.functions)
    ensures forall j :: 0 <= j < |fns| ==> (NoDups(fns[j].modifiesStates) ==> NoDups(r.functions[j].modifiesStates))
    ensures GainsJustified(fns, r.functions, bodies, stateVars, DirectParamWrites(fns, bodies, stateVars))
    ensures forall j :: 0 <= j < |fns| ==>
              DirectGainsIn(fns, j, r.functions, bodies, stateVars, DirectParamWrites(fns, bodies, stateVars))
  {
    Propagate(fns, bodies, stateVars, DirectParamWrites(fns, bodies, stateVars))
  }

  /** Corrected propagation reaches the caller: when caller `i` passes, at call site `k`,
      an argument to a storage parameter that the callee's body writes, the caller ends
      up writing that argument. */
  lemma CalleeParamWriteReachesCaller(fns: seq<FunctionInfo>, bodies: map<string, Option<Stmt>>,
                                      stateVars: set<string>, i: nat, k: nat, j: nat)
    requires i < |fns| && fns[i].name in bodies
    requires var sites := ExtractFunctionCallsWithArgs(bodies[fns[i].name], stateVars);
             && k < |sites|
             && sites[k].callee in bodies
             && FuncIndex(fns, sites[k].callee).Some?
             && var callee := fns[FuncIndex(fns, sites[k].callee).value];
                && j < |callee.storageParams|
                && callee.storageParams[j].paramIndex < |sites[k].args|
                && callee.storageParams[j].paramName in ParamsWrittenInBody(bodies[sites[k].callee], stateVars, callee.storageParams)
    ensures var sites := ExtractFunctionCallsWithArgs(bodies[fns[i].name], stateVars);
            var callee := fns[FuncIndex(fns, sites[k].callee).value];
            sites[k].args[callee.storageParams[j].paramIndex] in PropagateCorrected(fns, bodies, stateVars).functions[i].modifiesStates
  {
    var known := DirectParamWrites(fns, bodies, stateVars);
    var sites := ExtractFunctionCallsWithArgs(bodies[fns[i].name], stateVars);
    var c := FuncIndex(fns, sites[k].callee).value;
    var v := sites[k].args[fns[c].storageParams[j].paramIndex];
    assert DirectParam(sites[k], fns[c], fns[c].storageParams[j], v, known);
    assert SiteDirect(sites[k], fns, v, known);
    assert DirectGainsIn(fns, i, PropagateCorrected(fns, bodies, stateVars).functions, bodies, stateVars, known);
  }
}
