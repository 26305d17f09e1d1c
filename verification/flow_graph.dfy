/** The variable flow graph of a function body (src/dataflow.rs): which variables each
    variable's value flows into through assignments and initialised declarations, and the
    two searches over it, the state variables a source reaches and a witness path. */
module FlowGraph {
  import opened Wrappers
  import opened Strings
  import opened Ast
  import opened Paths
  import opened Collections
  import TaintScan

  /** Variable to the variables its value flows into. The analyzer keeps each successor
      list in a hash set; here it is a duplicate-free list in insertion order, and the
      searches take successors in that order. */
  type Graph = map<string, seq<string>>

  /** The value of `a` flows into `b`. */
  predicate HasEdge(g: Graph, a: string, b: string) {
    a in g && b in g[a]
  }

  /** The variables `a` flows into, none for a variable without an entry. */
  function Succ(g: Graph, a: string): seq<string> {
    if a in g then g[a] else []
  }

  /** Every successor list is duplicate-free. */
  predicate WellFormed(g: Graph) {
    forall a :: a in g ==> NoDups(g[a])
  }

  /** Record that `a` flows into `b` (an `entry(a).or_default().insert(b)`). */
  function AddEdge(g: Graph, a: string, b: string): (r: Graph)
    ensures forall x, y :: HasEdge(r, x, y) <==> HasEdge(g, x, y) || (x == a && y == b)
    ensures WellFormed(g) ==> WellFormed(r)
  {
    g[a := Insert(Succ(g, a), b)]
  }

  /** Record that each of `srcs` flows into `t`, in order. */
  function AddEdges(g: Graph, srcs: seq<string>, t: string): (r: Graph)
    ensures forall x, y :: HasEdge(r, x, y) <==> HasEdge(g, x, y) || (x in srcs && y == t)
    ensures WellFormed(g) ==> WellFormed(r)
    decreases |srcs|
  {
    if |srcs| == 0 then g
    else
      var r := AddEdges(AddEdge(g, srcs[0], t), srcs[1..], t);
      assert forall x :: x in srcs <==> x == srcs[0] || x in srcs[1..];
      r
  }

  // ---------------------------------------------------------------------------
  // Variables of an expression.

  /** The variable an assignment writes or an access starts from: the root of a chain of
      member accesses and subscripts, empty for anything else (the analyzer's
      `get_base_var_name` and `extract_lvalue_var` compute the same). */
  function BaseVarName(e: Expr): string {
    ExtractBaseVariable(e).GetOr("")
  }

  /** The variables an expression reads, in visiting order, with repeats: a variable by
      name; for a member access, the base variable when the base is one and the base's
      variables otherwise, and then `root.member` for the chain's root; the operands of
      subscripts, calls, arithmetic, comparisons, logic, unary operators, increments,
      parentheses and conditionals. Assignments, deletions, literals and types read
      nothing. */
  function ExprVariables(e: Expr): (r: seq<string>)
    ensures IsAccessChain(e) ==> ExtractBaseVariable(e).value in r
  {
    match e
    case Var(n) => [n]
    case Member(b, m) =>
      var front := if b.Var? then [b.name] else ExprVariables(b);
      var root := BaseVarName(b);
      front + (if root != "" then [root + "." + m] else [])
    case Index(b, i) =>
      ExprVariables(b) + (match i case Some(x) => ExprVariables(x) case None => [])
    case Call(c, args) => ExprVariables(c) + ArgsVariables(args)
    case Binary(_, l, rr) => ExprVariables(l) + ExprVariables(rr)
    case Unary(_, a) => ExprVariables(a)
    case IncDec(_, a) => ExprVariables(a)
    case Paren(a) => ExprVariables(a)
    case Ternary(c, t, f) => ExprVariables(c) + ExprVariables(t) + ExprVariables(f)
    case _ => []
  }

  function ArgsVariables(args: seq<Expr>): seq<string> {
    if |args| == 0 then [] else ExprVariables(args[0]) + ArgsVariables(args[1..])
  }

  /** `x` is what node `n` contributes: a variable's name, or a chain root followed by a
      member name. */
  predicate Names(n: Expr, x: string) {
    || n == Var(x)
    || (n.Member? && BaseVarName(n.base) != "" && x == BaseVarName(n.base) + "." + n.member)
  }

  /** Every variable collected from an expression is named by one of its nodes. */
  lemma {:induction false} VariablesNamed(e: Expr)
    ensures forall x :: x in ExprVariables(e) ==> exists n :: n in TaintScan.ExprNodes(e) && Names(n, x)
    decreases e, 1
  {
    var nodes := TaintScan.ExprNodes(e);
    assert nodes == [e] + TaintScan.SubNodes(e);
    assert e in nodes;
    match e
    case Var(n) =>
      assert ExprVariables(e) == [n] && Names(e, n);
    case Member(b, m) =>
      assert TaintScan.SubNodes(e) == TaintScan.ExprNodes(b);
      VariablesNamed(b);
      if b.Var? {
        assert b in TaintScan.ExprNodes(b);
      }
      forall x | x in ExprVariables(e) ensures exists n :: n in nodes && Names(n, x) {
        if x !in ExprVariables(b) && !(b.Var? && x == b.name) {
          assert Names(e, x);
        } else if b.Var? && x == b.name {
          assert Names(b, x);
        } else {
          var n :| n in TaintScan.ExprNodes(b) && Names(n, x);
          assert n in nodes;
        }
      }
    case Index(b, i) =>
      VariablesNamed(b);
      match i {
        case Some(y) =>
          VariablesNamed(y);
          assert TaintScan.SubNodes(e) == TaintScan.ExprNodes(b) + TaintScan.ExprNodes(y);
        case None =>
      }
    case Call(c, args) =>
      VariablesNamed(c);
      ArgsNamed(args);
      assert TaintScan.SubNodes(e) == TaintScan.ExprNodes(c) + TaintScan.ArgsNodes(args);
    case Binary(_, l, rr) =>
      VariablesNamed(l);
      VariablesNamed(rr);
      assert TaintScan.SubNodes(e) == TaintScan.ExprNodes(l) + TaintScan.ExprNodes(rr);
    case Unary(_, a) =>
      VariablesNamed(a);
      assert TaintScan.SubNodes(e) == TaintScan.ExprNodes(a);
    case IncDec(_, a) =>
      VariablesNamed(a);
      assert TaintScan.SubNodes(e) == TaintScan.ExprNodes(a);
    case Paren(a) =>
      VariablesNamed(a);
      assert TaintScan.SubNodes(e) == TaintScan.ExprNodes(a);
    case Ternary(c, t, f) =>
      VariablesNamed(c);
      VariablesNamed(t);
      VariablesNamed(f);
      assert TaintScan.SubNodes(e) == TaintScan.ExprNodes(c) + TaintScan.ExprNodes(t) + TaintScan.ExprNodes(f);
    case _ =>
  }

  lemma {:induction false} ArgsNamed(args: seq<Expr>)
    ensures forall x :: x in ArgsVariables(args) ==> exists n :: n in TaintScan.ArgsNodes(args) && Names(n, x)
    decreases args, 3
  {
    if |args| > 0 {
      VariablesNamed(args[0]);
      ArgsNamed(args[1..]);
      assert TaintScan.ArgsNodes(args) == TaintScan.ExprNodes(args[0]) + TaintScan.ArgsNodes(args[1..]);
    }
  }

  /** Below the first level a member path is rebuilt from the chain's root, not from the
      whole chain: `s.x.y` yields `s`, `s.x` and `s.y`, never `s.x.y`. */
  lemma NestedMemberPath()
    ensures ExprVariables(Member(Member(Var("s"), "x"), "y")) == ["s", "s.x", "s.y"]
    ensures "s.x.y" !in ExprVariables(Member(Member(Var("s"), "x"), "y"))
  {
    var inner := Member(Var("s"), "x");
    assert BaseVarName(inner) == "s";
    assert "s" + "." + "x" == "s.x";
    assert ExprVariables(inner) == ["s", "s.x"];
    assert "s" + "." + "y" == "s.y";
  }

  // ---------------------------------------------------------------------------
  // Building the graph.

  /** The edges one assignment contributes: each variable its right-hand side reads flows
      into the root of its left-hand side (empty when the target is no access chain), and
      under a compound operator the target also flows into itself. */
  predicate AssignEdge(e: Expr, a: string, b: string) {
    && e.Assign?
    && b == BaseVarName(e.lhs)
    && (a in ExprVariables(e.rhs) || (e.op != Plain && a == b))
  }

  /** The edges of a statement, as a relation: assignments that are whole expression
      statements, initialised declarations with a name (each variable of the initialiser
      flows into the declared name), and the edges of nested blocks, branches and loop
      bodies; conditions, `for` headers, returns and everything else add none. */
  predicate StmtEdge(s: Stmt, a: string, b: string) {
    match s
    case ExprStmt(e) => AssignEdge(e, a, b)
    case Block(_, ss) => exists k :: 0 <= k < |ss| && StmtEdge(ss[k], a, b)
    case If(_, t, el) => StmtEdge(t, a, b) || (el.Some? && StmtEdge(el.value, a, b))
    case While(_, body) => StmtEdge(body, a, b)
    case DoWhile(body, _) => StmtEdge(body, a, b)
    case For(_, _, _, Some(body)) => StmtEdge(body, a, b)
    case VarDef(Some(n), Some(init)) => n != "" && b == n && a in ExprVariables(init)
    case _ => false
  }

  /** The graph after one expression statement. */
  function ExprFlows(g: Graph, e: Expr): (r: Graph)
    ensures forall x, y :: HasEdge(r, x, y) <==> HasEdge(g, x, y) || AssignEdge(e, x, y)
    ensures WellFormed(g) ==> WellFormed(r)
  {
    match e
    case Assign(op, lhs, rhs) =>
      var t := BaseVarName(lhs);
      var g1 := if op == Plain then g else AddEdge(g, t, t);
      AddEdges(g1, ExprVariables(rhs), t)
    case _ => g
  }

  /** The graph after a statement: exactly the edges it had and those of the statement. */
  function StmtFlows(g: Graph, s: Stmt): (r: Graph)
    ensures forall x, y :: HasEdge(r, x, y) <==> HasEdge(g, x, y) || StmtEdge(s, x, y)
    ensures WellFormed(g) ==> WellFormed(r)
    decreases s
  {
    match s
    case ExprStmt(e) => ExprFlows(g, e)
    case Block(_, ss) => StmtsFlows(g, ss)
    case If(_, t, el) =>
      var g1 := StmtFlows(g, t);
      (match el case Some(x) => StmtFlows(g1, x) case None => g1)
    case While(_, body) => StmtFlows(g, body)
    case DoWhile(body, _) => StmtFlows(g, body)
    case For(_, _, _, Some(body)) => StmtFlows(g, body)
    case VarDef(Some(n), Some(init)) =>
      if n != "" then AddEdges(g, ExprVariables(init), n) else g
    case _ => g
  }

  function StmtsFlows(g: Graph, ss: seq<Stmt>): (r: Graph)
    ensures forall x, y :: HasEdge(r, x, y) <==>
              HasEdge(g, x, y) || exists k :: 0 <= k < |ss| && StmtEdge(ss[k], x, y)
    ensures WellFormed(g) ==> WellFormed(r)
    decreases ss
  {
    if |ss| == 0 then g
    else
      var r := StmtsFlows(StmtFlows(g, ss[0]), ss[1..]);
      forall x, y | exists k :: 0 <= k < |ss| && StmtEdge(ss[k], x, y)
        ensures StmtEdge(ss[0], x, y) || exists k :: 0 <= k < |ss[1..]| && StmtEdge(ss[1..][k], x, y)
      {
        var k :| 0 <= k < |ss| && StmtEdge(ss[k], x, y);
        if k > 0 { assert ss[1..][k - 1] == ss[k]; }
      }
      forall x, y, k | 0 <= k < |ss[1..]| && StmtEdge(ss[1..][k], x, y)
        ensures exists j :: 0 <= j < |ss| && StmtEdge(ss[j], x, y)
      {
        assert ss[k + 1] == ss[1..][k];
      }
      r
  }

  /** The flow graph of a function body; a function without a body has an empty graph. */
  function BuildVariableFlowGraph(body: Option<Stmt>): (r: Graph)
    ensures WellFormed(r)
    ensures forall x, y :: HasEdge(r, x, y) <==> body.Some? && StmtEdge(body.value, x, y)
  {
    match body
    case Some(s) => StmtFlows(map[], s)
    case None => map[]
  }

  // ---------------------------------------------------------------------------
  // Reachability.

  /** Consecutive entries are edges of the graph. */
  predicate IsPath(g: Graph, p: seq<string>) {
    |p| >= 1 && forall k :: 0 <= k < |p| - 1 ==> HasEdge(g, p[k], p[k + 1])
  }

  /** Some path leads from `a` to `b` (every variable reaches itself). */
  ghost predicate Reaches(g: Graph, a: string, b: string) {
    exists p :: IsPath(g, p) && p[0] == a && p[|p| - 1] == b
  }

  /** Every variable that occurs in the graph, as a key or as a successor. */
  ghost function Nodes(g: Graph): set<string> {
    g.Keys + set a, b | a in g && b in g[a] :: b
  }

  lemma ReachesSelf(g: Graph, a: string)
    ensures Reaches(g, a, a)
  {
    assert IsPath(g, [a]);
  }

  /** A path extended by an edge is a path. */
  lemma ReachesStep(g: Graph, a: string, b: string, c: string)
    requires Reaches(g, a, b) && HasEdge(g, b, c)
    ensures Reaches(g, a, c)
  {
    var p :| IsPath(g, p) && p[0] == a && p[|p| - 1] == b;
    assert IsPath(g, p + [c]);
  }

  /** A set closed under edges holds everything its members reach. */
  lemma {:induction false} ClosedHoldsPath(g: Graph, s: set<string>, p: seq<string>, k: nat)
    requires IsPath(g, p) && p[0] in s
    requires forall v, w :: v in s && HasEdge(g, v, w) ==> w in s
    requires k < |p|
    ensures p[k] in s
  {
    if k > 0 {
      ClosedHoldsPath(g, s, p, k - 1);
      assert HasEdge(g, p[k - 1], p[k]);
    }
  }

  lemma ClosedHoldsReach(g: Graph, s: set<string>, a: string, b: string)
    requires a in s && Reaches(g, a, b)
    requires forall v, w :: v in s && HasEdge(g, v, w) ==> w in s
    ensures b in s
  {
    var p :| IsPath(g, p) && p[0] == a && p[|p| - 1] == b;
    ClosedHoldsPath(g, s, p, |p| - 1);
  }

  // ---------------------------------------------------------------------------
  // Influence.

  /** A state variable, or a field path whose first component is one. */
  predicate StateLike(t: string, stateVars: set<string>) {
    t in stateVars || BeforeChar(t, '.') in stateVars
  }

  /** The state-like variables the source flows into, found depth first from the source:
      each variable is expanded once, and every successor of an expanded variable that
      is state-like is reported. The source itself is reported only when something it
      reaches flows back into it. */
  method TraceVariableInfluence(src: string, g: Graph, stateVars: set<string>) returns (r: set<string>)
    ensures r == Influenced(g, src, stateVars)
  {
    ghost var universe := Nodes(g) + {src};
    var stack := [src];
    var visited: set<string> := {};
    r := {};
    TraceStart(g, src, stateVars, universe);
    while |stack| > 0
      invariant TraceInv(g, src, stateVars, universe, stack, visited, r)
      decreases |universe - visited|, |stack|
    {
      var u := stack[|stack| - 1];
      if u in visited {
        TraceSkip(g, src, stateVars, universe, stack, visited, r);
        stack := stack[..|stack| - 1];
      } else {
        TraceVisit(g, src, stateVars, universe, stack, visited, r);
        RemainingShrinks(universe, visited, u);
        var next := Succ(g, u);
        r := r + (set t | t in next && StateLike(t, stateVars));
        stack := stack[..|stack| - 1] + next;
        visited := visited + {u};
      }
    }
    TraceDone(g, src, stateVars, universe, visited, r);
    InfluencedIsReport(g, src, stateVars, r);
  }

  /** The source flows into `t`: `t` is state-like and has an edge from a variable the
      source reaches. */
  ghost predicate Influences(g: Graph, src: string, stateVars: set<string>, t: string) {
    StateLike(t, stateVars) && exists v :: Reaches(g, src, v) && HasEdge(g, v, t)
  }

  /** Everything the source flows into. */
  ghost function Influenced(g: Graph, src: string, stateVars: set<string>): set<string> {
    set t | t in Nodes(g) && Influences(g, src, stateVars, t)
  }

  /** What the source flows into, it reaches, and it is a variable of the graph. */
  lemma InfluencedReached(g: Graph, src: string, stateVars: set<string>, t: string)
    requires Influences(g, src, stateVars, t)
    ensures Reaches(g, src, t) && t in Nodes(g)
  {
    var v :| Reaches(g, src, v) && HasEdge(g, v, t);
    ReachesStep(g, src, v, t);
  }

  /** Membership in what the source flows into. */
  lemma InInfluenced(g: Graph, src: string, stateVars: set<string>, t: string)
    ensures t in Influenced(g, src, stateVars) <==> Influences(g, src, stateVars, t)
  {
    if Influences(g, src, stateVars, t) {
      InfluencedReached(g, src, stateVars, t);
    }
  }

  lemma InfluencedIsReport(g: Graph, src: string, stateVars: set<string>, r: set<string>)
    requires forall t :: t in r <==> Influences(g, src, stateVars, t)
    ensures r == Influenced(g, src, stateVars)
  {
    forall t | t in r ensures t in Nodes(g) {
      InfluencedReached(g, src, stateVars, t);
    }
  }

  /** What the influence search keeps true: everything stacked or expanded is reachable
      from the source and known to the universe, the source is stacked or expanded, every
      successor of an expanded variable is expanded or stacked, and the report holds the
      state-like successors of the expanded variables. */
  ghost predicate TraceInv(g: Graph, src: string, stateVars: set<string>, universe: set<string>,
                           stack: seq<string>, visited: set<string>, r: set<string>) {
    && universe == Nodes(g) + {src}
    && visited <= universe
    && (forall k :: 0 <= k < |stack| ==> stack[k] in universe && Reaches(g, src, stack[k]))
    && (forall v :: v in visited ==> Reaches(g, src, v))
    && (src in visited || src in stack)
    && (forall v, w :: v in visited && HasEdge(g, v, w) ==> w in visited || w in stack)
    && (forall t :: t in r <==> StateLike(t, stateVars) && exists v :: v in visited && HasEdge(g, v, t))
  }

  lemma TraceStart(g: Graph, src: string, stateVars: set<string>, universe: set<string>)
    requires universe == Nodes(g) + {src}
    ensures TraceInv(g, src, stateVars, universe, [src], {}, {})
  {
    ReachesSelf(g, src);
  }

  lemma TraceSkip(g: Graph, src: string, stateVars: set<string>, universe: set<string>,
                  stack: seq<string>, visited: set<string>, r: set<string>)
    requires TraceInv(g, src, stateVars, universe, stack, visited, r)
    requires |stack| > 0 && stack[|stack| - 1] in visited
    ensures TraceInv(g, src, stateVars, universe, stack[..|stack| - 1], visited, r)
  {
    assert stack == stack[..|stack| - 1] + [stack[|stack| - 1]];
  }

  lemma TraceVisit(g: Graph, src: string, stateVars: set<string>, universe: set<string>,
                   stack: seq<string>, visited: set<string>, r: set<string>)
    requires TraceInv(g, src, stateVars, universe, stack, visited, r)
    requires |stack| > 0 && stack[|stack| - 1] !in visited
    ensures var u := stack[|stack| - 1];
            && u in universe
            && TraceInv(g, src, stateVars, universe, stack[..|stack| - 1] + Succ(g, u), visited + {u},
                        r + (set t | t in Succ(g, u) && StateLike(t, stateVars)))
  {
    var u := stack[|stack| - 1];
    var rest := stack[..|stack| - 1];
    var next := Succ(g, u);
    var stack' := rest + next;
    var visited' := visited + {u};
    var r' := r + (set t | t in next && StateLike(t, stateVars));
    assert stack == rest + [u];
    SuccInNodes(g, u);
    forall t | t in next ensures Reaches(g, src, t) {
      ReachesStep(g, src, u, t);
    }
    forall k | 0 <= k < |stack'| ensures stack'[k] in universe && Reaches(g, src, stack'[k]) {
      if k >= |rest| { assert stack'[k] == next[k - |rest|]; }
    }
    forall v, w | v in visited' && HasEdge(g, v, w) ensures w in visited' || w in stack' {
      if v == u { assert w in next; }
    }
    forall t | t in r' ensures StateLike(t, stateVars) && exists v :: v in visited' && HasEdge(g, v, t) {
      if t !in r { assert HasEdge(g, u, t); }
    }
  }

  lemma TraceDone(g: Graph, src: string, stateVars: set<string>, universe: set<string>,
                  visited: set<string>, r: set<string>)
    requires TraceInv(g, src, stateVars, universe, [], visited, r)
    ensures forall t :: t in r <==> StateLike(t, stateVars) && exists v :: Reaches(g, src, v) && HasEdge(g, v, t)
  {
    forall t | StateLike(t, stateVars) && exists v :: Reaches(g, src, v) && HasEdge(g, v, t)
      ensures t in r
    {
      var v :| Reaches(g, src, v) && HasEdge(g, v, t);
      ClosedHoldsReach(g, visited, src, v);
    }
  }

  lemma SuccInNodes(g: Graph, u: string)
    ensures forall t :: t in Succ(g, u) ==> t in Nodes(g) && HasEdge(g, u, t)
  {
  }

  // ---------------------------------------------------------------------------
  // Witness path.

  /** A search entry: a variable and the path by which it was reached. */
  datatype Pending = Pending(node: string, path: seq<string>)

  /** The entry's path is a path from `src` to its variable that does not repeat a
      variable before its last step, and all of whose earlier steps are expanded. */
  ghost predicate Justified(g: Graph, src: string, visited: set<string>, p: Pending) {
    && IsPath(g, p.path)
    && p.path[0] == src
    && p.path[|p.path| - 1] == p.node
    && NoDups(p.path[..|p.path| - 1])
    && forall i :: 0 <= i < |p.path| - 1 ==> p.path[i] in visited
  }

  /** The variable is waiting on the stack. */
  ghost predicate Queued(stack: seq<Pending>, w: string) {
    exists k :: 0 <= k < |stack| && stack[k].node == w
  }

  /** The entries for the successors of an expanded entry. */
  function Extend(p: Pending, next: seq<string>): (r: seq<Pending>)
    ensures |r| == |next|
    ensures forall k :: 0 <= k < |r| ==> r[k] == Pending(next[k], p.path + [next[k]])
  {
    seq(|next|, k requires 0 <= k < |next| => Pending(next[k], p.path + [next[k]]))
  }

  /** A path from `src` to `sink` found depth first, or `[src, sink]` when there is none.
      The search stops when it takes the sink from the stack, before the check for an
      already-expanded variable, so the path found never repeats a variable. It is not
      necessarily the shortest. */
  method BuildFlowPath(src: string, sink: string, g: Graph) returns (r: seq<string>)
    ensures |r| >= 1 && r[0] == src && r[|r| - 1] == sink
    ensures IsPath(g, r) <==> Reaches(g, src, sink)
    ensures NoDups(r)
  {
    ghost var universe := Nodes(g) + {src};
    var stack := [Pending(src, [src])];
    var visited: set<string> := {};
    PathStart(g, src, sink, universe);
    while |stack| > 0
      invariant PathInv(g, src, sink, universe, stack, visited)
      decreases |universe - visited|, |stack|
    {
      if stack[|stack| - 1].node == sink {
        FoundOnTop(g, src, sink, universe, stack, visited);
        return stack[|stack| - 1].path;
      }
      stack, visited := PathStep(g, src, sink, universe, stack, visited);
    }
    PathMissing(g, src, sink, universe, visited);
    r := [src, sink];
  }

  /** One step of the search when the top entry is not the sink: an entry already
      expanded is dropped; otherwise its variable is expanded and its successors pushed. */
  method PathStep(g: Graph, src: string, sink: string, ghost universe: set<string>,
                  stack: seq<Pending>, visited: set<string>) returns (stack': seq<Pending>, visited': set<string>)
    requires PathInv(g, src, sink, universe, stack, visited)
    requires |stack| > 0 && stack[|stack| - 1].node != sink
    ensures PathInv(g, src, sink, universe, stack', visited')
    ensures |universe - visited'| < |universe - visited|
            || (|universe - visited'| == |universe - visited| && |stack'| < |stack|)
  {
    var top := stack[|stack| - 1];
    if top.node in visited {
      PathSkip(g, src, sink, universe, stack, visited);
      stack', visited' := stack[..|stack| - 1], visited;
    } else {
      PathVisit(g, src, sink, universe, stack, visited);
      RemainingShrinks(universe, visited, top.node);
      stack', visited' := stack[..|stack| - 1] + Extend(top, Succ(g, top.node)), visited + {top.node};
    }
  }

  /** What the path search keeps true: entries are justified and known to the universe,
      the sink is never expanded, the source is expanded or queued, and every successor
      of an expanded variable is expanded or queued. */
  ghost predicate PathInv(g: Graph, src: string, sink: string, universe: set<string>,
                          stack: seq<Pending>, visited: set<string>) {
    && universe == Nodes(g) + {src}
    && visited <= universe
    && sink !in visited
    && (forall k :: 0 <= k < |stack| ==> stack[k].node in universe && Justified(g, src, visited, stack[k]))
    && (src in visited || Queued(stack, src))
    && (forall v, w :: v in visited && HasEdge(g, v, w) ==> w in visited || Queued(stack, w))
  }

  lemma PathStart(g: Graph, src: string, sink: string, universe: set<string>)
    requires universe == Nodes(g) + {src}
    ensures PathInv(g, src, sink, universe, [Pending(src, [src])], {})
  {
    assert [Pending(src, [src])][0].node == src;
  }

  lemma PathSkip(g: Graph, src: string, sink: string, universe: set<string>,
                 stack: seq<Pending>, visited: set<string>)
    requires PathInv(g, src, sink, universe, stack, visited)
    requires |stack| > 0 && stack[|stack| - 1].node in visited
    ensures PathInv(g, src, sink, universe, stack[..|stack| - 1], visited)
  {
    QueuedAfterPop(stack, stack[..|stack| - 1], stack[|stack| - 1]);
  }

  lemma PathVisit(g: Graph, src: string, sink: string, universe: set<string>,
                  stack: seq<Pending>, visited: set<string>)
    requires PathInv(g, src, sink, universe, stack, visited)
    requires |stack| > 0 && stack[|stack| - 1].node !in visited && stack[|stack| - 1].node != sink
    ensures var top := stack[|stack| - 1];
            && top.node in universe
            && PathInv(g, src, sink, universe, stack[..|stack| - 1] + Extend(top, Succ(g, top.node)),
                       visited + {top.node})
  {
    var top := stack[|stack| - 1];
    var rest := stack[..|stack| - 1];
    var next := Succ(g, top.node);
    var pushed := Extend(top, next);
    var visited' := visited + {top.node};
    QueuedAfterPop(stack, rest, top);
    SuccInNodes(g, top.node);
    ExtendJustified(g, src, visited, top, next);
    JustifiedGrows(g, src, visited, visited', rest);
    QueuedAfterPush(rest, pushed, next);
    var stack' := rest + pushed;
    forall k | 0 <= k < |stack'| ensures stack'[k].node in universe && Justified(g, src, visited', stack'[k]) {
      if k >= |rest| { assert stack'[k] == pushed[k - |rest|]; }
    }
    forall v, w | v in visited' && HasEdge(g, v, w) ensures w in visited' || Queued(stack', w) {
      if v == top.node { assert w in next; }
    }
  }

  /** When the search runs dry the expanded set is closed and holds the source but not
      the sink, so no path leads to the sink. */
  lemma PathMissing(g: Graph, src: string, sink: string, universe: set<string>, visited: set<string>)
    requires PathInv(g, src, sink, universe, [], visited)
    ensures src != sink && !Reaches(g, src, sink)
    ensures !IsPath(g, [src, sink]) && NoDups([src, sink])
  {
    if Reaches(g, src, sink) {
      ClosedHoldsReach(g, visited, src, sink);
    }
  }

  /** Taking the top entry off leaves every other queued variable queued. */
  lemma QueuedAfterPop(before: seq<Pending>, after: seq<Pending>, top: Pending)
    requires |before| > 0 && top == before[|before| - 1] && after == before[..|before| - 1]
    ensures forall w :: Queued(before, w) ==> Queued(after, w) || w == top.node
  {
    forall w | Queued(before, w) ensures Queued(after, w) || w == top.node {
      var k :| 0 <= k < |before| && before[k].node == w;
      if k < |after| { assert after[k] == before[k]; }
    }
  }

  /** Pushing entries keeps the queued variables queued and queues the pushed ones. */
  lemma QueuedAfterPush(stack: seq<Pending>, pushed: seq<Pending>, next: seq<string>)
    requires |pushed| == |next| && forall k :: 0 <= k < |pushed| ==> pushed[k].node == next[k]
    ensures forall w :: Queued(stack, w) ==> Queued(stack + pushed, w)
    ensures forall w :: w in next ==> Queued(stack + pushed, w)
  {
    forall w | Queued(stack, w) ensures Queued(stack + pushed, w) {
      var k :| 0 <= k < |stack| && stack[k].node == w;
      assert (stack + pushed)[k] == stack[k];
    }
    forall w | w in next ensures Queued(stack + pushed, w) {
      var k :| 0 <= k < |next| && next[k] == w;
      assert (stack + pushed)[|stack| + k] == pushed[k];
    }
  }

  /** The path of the entry for the sink is the answer: a path without repeats. */
  /** The entry on top of the stack names the sink: its path is a repetition-free path
      from the source to the sink. */
  lemma FoundOnTop(g: Graph, src: string, sink: string, universe: set<string>,
                   stack: seq<Pending>, visited: set<string>)
    requires PathInv(g, src, sink, universe, stack, visited)
    requires |stack| > 0 && stack[|stack| - 1].node == sink
    ensures var r := stack[|stack| - 1].path;
            && |r| >= 1 && r[0] == src && r[|r| - 1] == sink
            && IsPath(g, r) && Reaches(g, src, sink) && NoDups(r)
  {
    FoundPath(g, src, visited, stack[|stack| - 1]);
  }

  lemma FoundPath(g: Graph, src: string, visited: set<string>, top: Pending)
    requires Justified(g, src, visited, top) && top.node !in visited
    ensures Reaches(g, src, top.node)
    ensures NoDups(top.path)
  {
    var p := top.path;
    var n := |p| - 1;
    forall i, j | 0 <= i < j < |p| ensures p[i] != p[j] {
      if j < n {
        assert p[..n][i] == p[i] && p[..n][j] == p[j];
      } else {
        assert p[i] in visited;
      }
    }
  }

  /** Entries pushed for the successors of a newly expanded variable are justified. */
  lemma ExtendJustified(g: Graph, src: string, visited: set<string>, top: Pending, next: seq<string>)
    requires Justified(g, src, visited, top) && top.node !in visited
    requires forall t :: t in next ==> HasEdge(g, top.node, t)
    ensures forall k :: 0 <= k < |next| ==>
              Justified(g, src, visited + {top.node}, Pending(next[k], top.path + [next[k]]))
  {
    var p := top.path;
    var n := |p| - 1;
    forall i, j | 0 <= i < j < |p| ensures p[i] != p[j] {
      if j < n {
        assert p[..n][i] == p[i] && p[..n][j] == p[j];
      } else {
        assert p[i] in visited;
      }
    }
    forall k | 0 <= k < |next|
      ensures Justified(g, src, visited + {top.node}, Pending(next[k], p + [next[k]]))
    {
      var q := p + [next[k]];
      assert q[..|q| - 1] == p;
      assert HasEdge(g, p[n], next[k]);
      assert IsPath(g, q);
    }
  }

  /** Justification survives the growth of the expanded set. */
  lemma JustifiedGrows(g: Graph, src: string, small: set<string>, large: set<string>, stack: seq<Pending>)
    requires small <= large
    requires forall k :: 0 <= k < |stack| ==> Justified(g, src, small, stack[k])
    ensures forall k :: 0 <= k < |stack| ==> Justified(g, src, large, stack[k])
  {
  }
}
