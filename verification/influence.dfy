/** How a parameter influences the state variables it reaches (src/dataflow.rs): a walk of
    the function body raises flags for arithmetic on the parameter, conditions on it that
    guard writes, and its use as an index into state, and the strongest raised flag is the
    reported influence type. */
module Influence {
  import opened Wrappers
  import opened Ast
  import opened FlowGraph
  import opened TaintTypes
  import TaintScan

  // ---------------------------------------------------------------------------
  // Does an expression mention the parameter?

  /** Which occurrence test the walk uses: the analyzer's own, or one that looks through
      every operand. */
  datatype VarTest = AsWritten | AnyOperand

  /** The binary operators the analyzer's occurrence test looks through. */
  const LookThroughOps: set<BinOp> := {Add, Sub, Mul, Div, Eq, Ne, Lt, Gt, And, Or}

  /** The analyzer's occurrence test: the variable by name, under member accesses,
      subscripts (base and index), calls (callee and arguments), plain assignments, the
      operators of `LookThroughOps`, `!`, unary `-` and parentheses. It does not look
      through `%`, `**`, `<=`, `>=`, bitwise operators, shifts, conditionals, increments or
      compound assignments. */
  function ContainsVarAsWritten(e: Expr, x: string): bool {
    match e
    case Var(n) => n == x
    case Member(b, _) => ContainsVarAsWritten(b, x)
    case Index(b, i) => ContainsVarAsWritten(b, x) || (i.Some? && ContainsVarAsWritten(i.value, x))
    case Call(c, args) =>
      ContainsVarAsWritten(c, x) || exists k :: 0 <= k < |args| && ContainsVarAsWritten(args[k], x)
    case Assign(Plain, l, r) => ContainsVarAsWritten(l, x) || ContainsVarAsWritten(r, x)
    case Binary(op, l, r) => op in LookThroughOps && (ContainsVarAsWritten(l, x) || ContainsVarAsWritten(r, x))
    case Unary(op, a) => (op == Not || op == Negate) && ContainsVarAsWritten(a, x)
    case Paren(a) => ContainsVarAsWritten(a, x)
    case _ => false
  }

  /** The corrected occurrence test: the variable occurs anywhere in the expression. */
  predicate MentionsVar(e: Expr, x: string) {
    Var(x) in TaintScan.ExprNodes(e)
  }

  function ContainsVar(test: VarTest, e: Expr, x: string): bool {
    match test
    case AsWritten => ContainsVarAsWritten(e, x)
    case AnyOperand => MentionsVar(e, x)
  }

  /** The analyzer's test never reports a variable that does not occur. */
  lemma {:induction false} AsWrittenMentions(e: Expr, x: string)
    requires ContainsVarAsWritten(e, x)
    ensures MentionsVar(e, x)
    decreases e
  {
    var nodes := TaintScan.ExprNodes(e);
    assert nodes == [e] + TaintScan.SubNodes(e);
    match e
    case Var(n) =>
      assert nodes[0] == e;
    case Member(b, _) =>
      AsWrittenMentions(b, x);
      assert TaintScan.SubNodes(e) == TaintScan.ExprNodes(b);
    case Index(b, i) =>
      assert TaintScan.SubNodes(e) == TaintScan.ExprNodes(b) + TaintScan.OptExprNodes(i);
      if ContainsVarAsWritten(b, x) {
        AsWrittenMentions(b, x);
      } else {
        AsWrittenMentions(i.value, x);
      }
    case Call(c, args) =>
      assert TaintScan.SubNodes(e) == TaintScan.ExprNodes(c) + TaintScan.ArgsNodes(args);
      if ContainsVarAsWritten(c, x) {
        AsWrittenMentions(c, x);
      } else {
        var k :| 0 <= k < |args| && ContainsVarAsWritten(args[k], x);
        AsWrittenMentions(args[k], x);
        ArgNodesIncluded(args, k);
      }
    case Assign(_, l, r) =>
      assert TaintScan.SubNodes(e) == TaintScan.ExprNodes(l) + TaintScan.ExprNodes(r);
      if ContainsVarAsWritten(l, x) {
        AsWrittenMentions(l, x);
      } else {
        AsWrittenMentions(r, x);
      }
    case Binary(_, l, r) =>
      assert TaintScan.SubNodes(e) == TaintScan.ExprNodes(l) + TaintScan.ExprNodes(r);
      if ContainsVarAsWritten(l, x) {
        AsWrittenMentions(l, x);
      } else {
        AsWrittenMentions(r, x);
      }
    case Unary(_, a) =>
      AsWrittenMentions(a, x);
      assert TaintScan.SubNodes(e) == TaintScan.ExprNodes(a);
    case Paren(a) =>
      AsWrittenMentions(a, x);
      assert TaintScan.SubNodes(e) == TaintScan.ExprNodes(a);
  }

  /** The nodes of an argument are among the nodes of the argument list. */
  lemma {:induction false} ArgNodesIncluded(args: seq<Expr>, k: nat)
    requires k < |args|
    ensures forall n :: n in TaintScan.ExprNodes(args[k]) ==> n in TaintScan.ArgsNodes(args)
    decreases k
  {
    assert TaintScan.ArgsNodes(args) == TaintScan.ExprNodes(args[0]) + TaintScan.ArgsNodes(args[1..]);
    if k > 0 {
      ArgNodesIncluded(args[1..], k - 1);
      assert args[1..][k - 1] == args[k];
    }
  }

  /** Either test reports only variables that occur. */
  lemma ContainsVarMentions(test: VarTest, e: Expr, x: string)
    requires ContainsVar(test, e, x)
    ensures MentionsVar(e, x)
  {
    if test == AsWritten {
      AsWrittenMentions(e, x);
    }
  }

  // ---------------------------------------------------------------------------
  // The walk.

  /** What the walk has seen; `direct` is recorded but never decides the result, since
      direct influence is also the default. */
  datatype Flags = Flags(arithmetic: bool, conditional: bool, indexAccess: bool, direct: bool) {
    function Or(o: Flags): Flags {
      Flags(arithmetic || o.arithmetic, conditional || o.conditional, indexAccess || o.indexAccess,
            direct || o.direct)
    }
  }

  const NoFlags: Flags := Flags(false, false, false, false)

  /** Every flag of `f` is also raised in `g`. */
  predicate FlagsLe(f: Flags, g: Flags) {
    && (f.arithmetic ==> g.arithmetic)
    && (f.conditional ==> g.conditional)
    && (f.indexAccess ==> g.indexAccess)
    && (f.direct ==> g.direct)
  }

  /** The parameter under study, the state variables it reaches, the contract's state
      variables and the occurrence test. */
  datatype Context = Context(param: string, influenced: set<string>, stateVars: set<string>, test: VarTest)

  predicate Mentions(ctx: Context, e: Expr) {
    ContainsVar(ctx.test, e, ctx.param)
  }

  /** The arithmetic operators whose results count as arithmetic influence. */
  const ArithOps: set<BinOp> := {Add, Sub, Mul, Div, Mod, Pow}

  /** The compound assignments that count as arithmetic influence. */
  const ArithAssignOps: set<AssignOp> := {AddAssign, SubAssign, MulAssign, DivAssign, ModAssign}

  /** The assignments that count as writes of an influenced variable. */
  const ModifyOps: set<AssignOp> := {Plain, AddAssign, SubAssign, MulAssign, DivAssign}

  /** The assignment writes a state variable the parameter reaches. */
  predicate WritesInfluencedState(ctx: Context, lhs: Expr) {
    BaseVarName(lhs) in ctx.stateVars && BaseVarName(lhs) in ctx.influenced
  }

  /** The flags raised inside an expression. A plain assignment to an influenced state
      variable walks its right-hand side as assignment context and is direct when that
      side is the parameter itself; a compound arithmetic assignment to one is arithmetic
      when its right-hand side mentions the parameter; an arithmetic operator in
      assignment context is arithmetic when it mentions the parameter; a subscript of a
      state variable by an index mentioning the parameter is index access. Member
      accesses, subscripts, calls and arithmetic operators are walked into; nothing else
      is. */
  function ExprInfluence(e: Expr, ctx: Context, inAssign: bool): Flags
    decreases e, 1
  {
    match e
    case Assign(op, lhs, rhs) => AssignInfluence(e, ctx)
    case Binary(op, l, r) =>
      if op in ArithOps then
        Flags(inAssign && Mentions(ctx, e), false, false, false)
          .Or(ExprInfluence(l, ctx, inAssign)).Or(ExprInfluence(r, ctx, inAssign))
      else NoFlags
    case Index(b, i) => IndexInfluence(e, ctx, inAssign)
    case Member(b, _) => ExprInfluence(b, ctx, inAssign)
    case Call(c, args) => ExprInfluence(c, ctx, inAssign).Or(ArgsInfluence(args, ctx, inAssign))
    case _ => NoFlags
  }

  function AssignInfluence(e: Expr, ctx: Context): Flags
    requires e.Assign?
    decreases e, 0
  {
    var Assign(op, lhs, rhs) := e;
    if op == Plain then
      if WritesInfluencedState(ctx, lhs) then
        var f := ExprInfluence(rhs, ctx, true);
        f.(direct := f.direct || rhs == Var(ctx.param))
      else NoFlags
    else if op in ArithAssignOps then
      Flags(WritesInfluencedState(ctx, lhs) && Mentions(ctx, rhs), false, false, false)
    else NoFlags
  }

  function IndexInfluence(e: Expr, ctx: Context, inAssign: bool): Flags
    requires e.Index?
    decreases e, 0
  {
    var Index(b, i) := e;
    var here := i.Some? && Mentions(ctx, i.value) && BaseVarName(b) in ctx.stateVars;
    var inIndex := (match i case Some(x) => ExprInfluence(x, ctx, inAssign) case None => NoFlags);
    Flags(false, false, here, false).Or(ExprInfluence(b, ctx, inAssign)).Or(inIndex)
  }

  function ArgsInfluence(args: seq<Expr>, ctx: Context, inAssign: bool): Flags
    decreases args, 2
  {
    if |args| == 0 then NoFlags
    else ExprInfluence(args[0], ctx, inAssign).Or(ArgsInfluence(args[1..], ctx, inAssign))
  }

  /** The statement writes an influenced variable: an expression statement assigning
      (plainly or by `+=`, `-=`, `*=`, `/=`) to one, or a block with such a statement
      among its direct statements or nested blocks. */
  predicate ModifiesInfluenced(s: Stmt, influenced: set<string>) {
    match s
    case Block(_, ss) => exists k :: 0 <= k < |ss| && ModifiesInfluenced(ss[k], influenced)
    case ExprStmt(Assign(op, lhs, _)) => op in ModifyOps && BaseVarName(lhs) in influenced
    case _ => false
  }

  /** The flags raised inside a statement: those of its expression statements and
      initialisers (outside assignment context), of nested blocks, branches and loop
      bodies, and conditional influence for an `if` whose condition mentions the
      parameter and one of whose branches writes an influenced variable. */
  function StmtInfluence(s: Stmt, ctx: Context): Flags
    decreases s
  {
    match s
    case Block(_, ss) => StmtsInfluence(ss, ctx)
    case ExprStmt(e) => ExprInfluence(e, ctx, false)
    case If(c, t, el) =>
      var guarded := ModifiesInfluenced(t, ctx.influenced)
                     || (el.Some? && ModifiesInfluenced(el.value, ctx.influenced));
      var inElse := (match el case Some(x) => StmtInfluence(x, ctx) case None => NoFlags);
      Flags(false, Mentions(ctx, c) && guarded, false, false).Or(StmtInfluence(t, ctx)).Or(inElse)
    case While(_, body) => StmtInfluence(body, ctx)
    case DoWhile(body, _) => StmtInfluence(body, ctx)
    case For(_, _, _, Some(body)) => StmtInfluence(body, ctx)
    case VarDef(_, Some(init)) => ExprInfluence(init, ctx, false)
    case _ => NoFlags
  }

  function StmtsInfluence(ss: seq<Stmt>, ctx: Context): Flags
    decreases ss
  {
    if |ss| == 0 then NoFlags else StmtInfluence(ss[0], ctx).Or(StmtsInfluence(ss[1..], ctx))
  }

  // ---------------------------------------------------------------------------
  // The verdict.

  /** The strength of an influence type, weakest first. */
  function Rank(t: InfluenceType): nat {
    match t
    case Direct => 0
    case Arithmetic => 1
    case Conditional => 2
    case IndexAccess => 3
  }

  /** The flag behind an influence type is raised; direct influence always holds. */
  predicate Raised(f: Flags, t: InfluenceType) {
    match t
    case Direct => true
    case Arithmetic => f.arithmetic
    case Conditional => f.conditional
    case IndexAccess => f.indexAccess
  }

  /** The strongest influence type whose flag is raised. */
  function Priority(f: Flags): (r: InfluenceType)
    ensures Raised(f, r)
    ensures forall t :: Raised(f, t) ==> Rank(t) <= Rank(r)
  {
    if f.indexAccess then IndexAccess
    else if f.conditional then Conditional
    else if f.arithmetic then Arithmetic
    else Direct
  }

  /** The influence type of a parameter given the state variables it reaches; a function
      without a body is direct. */
  function DetermineInfluenceType(param: string, influenced: set<string>, body: Option<Stmt>,
                                  stateVars: set<string>, test: VarTest): InfluenceType {
    match body
    case Some(s) => Priority(StmtInfluence(s, Context(param, influenced, stateVars, test)))
    case None => Direct
  }

  // ---------------------------------------------------------------------------
  // Properties.

  /** A parameter the body never mentions is direct. */
  lemma AbsentParamIsDirect(param: string, influenced: set<string>, body: Option<Stmt>,
                            stateVars: set<string>, test: VarTest)
    requires Var(param) !in TaintScan.BodyNodes(body)
    ensures DetermineInfluenceType(param, influenced, body, stateVars, test) == Direct
  {
    if body.Some? {
      StmtAbsent(body.value, Context(param, influenced, stateVars, test));
    }
  }

  lemma {:induction false} ExprAbsent(e: Expr, ctx: Context, inAssign: bool)
    requires Var(ctx.param) !in TaintScan.ExprNodes(e)
    ensures ExprInfluence(e, ctx, inAssign) == NoFlags
    decreases e, 1
  {
    var nodes := TaintScan.ExprNodes(e);
    assert nodes == [e] + TaintScan.SubNodes(e);
    if Mentions(ctx, e) {
      ContainsVarMentions(ctx.test, e, ctx.param);
    }
    match e
    case Assign(op, lhs, rhs) =>
      assert TaintScan.SubNodes(e) == TaintScan.ExprNodes(lhs) + TaintScan.ExprNodes(rhs);
      ExprAbsent(rhs, ctx, true);
      if Mentions(ctx, rhs) {
        ContainsVarMentions(ctx.test, rhs, ctx.param);
      }
      assert rhs != Var(ctx.param) by { assert rhs in TaintScan.ExprNodes(rhs); }
    case Binary(op, l, r) =>
      assert TaintScan.SubNodes(e) == TaintScan.ExprNodes(l) + TaintScan.ExprNodes(r);
      ExprAbsent(l, ctx, inAssign);
      ExprAbsent(r, ctx, inAssign);
    case Index(b, i) =>
      assert TaintScan.SubNodes(e) == TaintScan.ExprNodes(b) + TaintScan.OptExprNodes(i);
      ExprAbsent(b, ctx, inAssign);
      match i {
        case Some(x) =>
          ExprAbsent(x, ctx, inAssign);
          if Mentions(ctx, x) {
            ContainsVarMentions(ctx.test, x, ctx.param);
          }
        case None =>
      }
    case Member(b, _) =>
      assert TaintScan.SubNodes(e) == TaintScan.ExprNodes(b);
      ExprAbsent(b, ctx, inAssign);
    case Call(c, args) =>
      assert TaintScan.SubNodes(e) == TaintScan.ExprNodes(c) + TaintScan.ArgsNodes(args);
      ExprAbsent(c, ctx, inAssign);
      ArgsAbsent(args, ctx, inAssign);
    case _ =>
  }

  lemma {:induction false} ArgsAbsent(args: seq<Expr>, ctx: Context, inAssign: bool)
    requires Var(ctx.param) !in TaintScan.ArgsNodes(args)
    ensures ArgsInfluence(args, ctx, inAssign) == NoFlags
    decreases args, 2
  {
    if |args| > 0 {
      assert TaintScan.ArgsNodes(args) == TaintScan.ExprNodes(args[0]) + TaintScan.ArgsNodes(args[1..]);
      ExprAbsent(args[0], ctx, inAssign);
      ArgsAbsent(args[1..], ctx, inAssign);
    }
  }

  lemma {:induction false} StmtAbsent(s: Stmt, ctx: Context)
    requires Var(ctx.param) !in TaintScan.StmtNodes(s)
    ensures StmtInfluence(s, ctx) == NoFlags
    decreases s
  {
    match s
    case Block(_, ss) => StmtsAbsent(ss, ctx);
    case ExprStmt(e) => ExprAbsent(e, ctx, false);
    case If(c, t, el) =>
      assert TaintScan.StmtNodes(s) == TaintScan.ExprNodes(c) + TaintScan.StmtNodes(t) + TaintScan.OptStmtNodes(el);
      if Mentions(ctx, c) {
        ContainsVarMentions(ctx.test, c, ctx.param);
      }
      StmtAbsent(t, ctx);
      match el {
        case Some(x) => StmtAbsent(x, ctx);
        case None =>
      }
    case While(c, body) =>
      assert TaintScan.StmtNodes(s) == TaintScan.ExprNodes(c) + TaintScan.StmtNodes(body);
      StmtAbsent(body, ctx);
    case DoWhile(body, c) =>
      assert TaintScan.StmtNodes(s) == TaintScan.StmtNodes(body) + TaintScan.ExprNodes(c);
      StmtAbsent(body, ctx);
    case For(i, c, u, body) =>
      assert TaintScan.StmtNodes(s) == TaintScan.OptStmtNodes(i) + TaintScan.OptExprNodes(c)
                                       + TaintScan.OptExprNodes(u) + TaintScan.OptStmtNodes(body);
      match body {
        case Some(b) => StmtAbsent(b, ctx);
        case None =>
      }
    case VarDef(_, init) =>
      match init {
        case Some(x) => ExprAbsent(x, ctx, false);
        case None =>
      }
    case _ =>
  }

  lemma {:induction false} StmtsAbsent(ss: seq<Stmt>, ctx: Context)
    requires Var(ctx.param) !in TaintScan.StmtsNodes(ss)
    ensures StmtsInfluence(ss, ctx) == NoFlags
    decreases ss
  {
    if |ss| > 0 {
      assert TaintScan.StmtsNodes(ss) == TaintScan.StmtNodes(ss[0]) + TaintScan.StmtsNodes(ss[1..]);
      StmtAbsent(ss[0], ctx);
      StmtsAbsent(ss[1..], ctx);
    }
  }

  /** Reaching more state variables never weakens the verdict. */
  lemma InfluenceMonotone(param: string, small: set<string>, large: set<string>, body: Option<Stmt>,
                          stateVars: set<string>, test: VarTest)
    requires small <= large
    ensures Rank(DetermineInfluenceType(param, small, body, stateVars, test))
            <= Rank(DetermineInfluenceType(param, large, body, stateVars, test))
  {
    if body.Some? {
      var c1 := Context(param, small, stateVars, test);
      var c2 := Context(param, large, stateVars, test);
      StmtMonotone(body.value, c1, c2);
      var f1 := StmtInfluence(body.value, c1);
      var f2 := StmtInfluence(body.value, c2);
      assert Raised(f2, Priority(f1));
    }
  }

  /** The two contexts differ only in a larger set of reached variables. */
  predicate Wider(c1: Context, c2: Context) {
    c1.param == c2.param && c1.stateVars == c2.stateVars && c1.test == c2.test && c1.influenced <= c2.influenced
  }

  lemma {:induction false} ExprMonotone(e: Expr, c1: Context, c2: Context, inAssign: bool)
    requires Wider(c1, c2)
    ensures FlagsLe(ExprInfluence(e, c1, inAssign), ExprInfluence(e, c2, inAssign))
    decreases e, 1
  {
    match e
    case Assign(op, lhs, rhs) =>
      AssignMonotone(e, c1, c2);
      assert ExprInfluence(e, c1, inAssign) == AssignInfluence(e, c1);
      assert ExprInfluence(e, c2, inAssign) == AssignInfluence(e, c2);
    case Binary(op, l, r) =>
      ExprMonotone(l, c1, c2, inAssign);
      ExprMonotone(r, c1, c2, inAssign);
    case Index(b, i) =>
      ExprMonotone(b, c1, c2, inAssign);
      assert ExprInfluence(e, c1, inAssign) == IndexInfluence(e, c1, inAssign);
      assert ExprInfluence(e, c2, inAssign) == IndexInfluence(e, c2, inAssign);
      match i {
        case Some(x) => ExprMonotone(x, c1, c2, inAssign);
        case None =>
      }
    case Member(b, _) => ExprMonotone(b, c1, c2, inAssign);
    case Call(c, args) =>
      ExprMonotone(c, c1, c2, inAssign);
      ArgsMonotone(args, c1, c2, inAssign);
    case _ =>
  }

  lemma {:induction false} AssignMonotone(e: Expr, c1: Context, c2: Context)
    requires e.Assign? && Wider(c1, c2)
    ensures FlagsLe(AssignInfluence(e, c1), AssignInfluence(e, c2))
    decreases e, 0
  {
    ExprMonotone(e.rhs, c1, c2, true);
    assert WritesInfluencedState(c1, e.lhs) ==> WritesInfluencedState(c2, e.lhs);
    assert Mentions(c1, e.rhs) == Mentions(c2, e.rhs);
  }

  lemma {:induction false} ArgsMonotone(args: seq<Expr>, c1: Context, c2: Context, inAssign: bool)
    requires Wider(c1, c2)
    ensures FlagsLe(ArgsInfluence(args, c1, inAssign), ArgsInfluence(args, c2, inAssign))
    decreases args, 2
  {
    if |args| > 0 {
      ExprMonotone(args[0], c1, c2, inAssign);
      ArgsMonotone(args[1..], c1, c2, inAssign);
    }
  }

  lemma {:induction false} ModifiesMonotone(s: Stmt, small: set<string>, large: set<string>)
    requires small <= large && ModifiesInfluenced(s, small)
    ensures ModifiesInfluenced(s, large)
    decreases s
  {
    match s
    case Block(_, ss) =>
      var k :| 0 <= k < |ss| && ModifiesInfluenced(ss[k], small);
      ModifiesMonotone(ss[k], small, large);
    case _ =>
  }

  lemma {:induction false} StmtMonotone(s: Stmt, c1: Context, c2: Context)
    requires Wider(c1, c2)
    ensures FlagsLe(StmtInfluence(s, c1), StmtInfluence(s, c2))
    decreases s
  {
    match s
    case Block(_, ss) => StmtsMonotone(ss, c1, c2);
    case ExprStmt(e) => ExprMonotone(e, c1, c2, false);
    case If(c, t, el) =>
      if ModifiesInfluenced(t, c1.influenced) {
        ModifiesMonotone(t, c1.influenced, c2.influenced);
      }
      StmtMonotone(t, c1, c2);
      match el {
        case Some(x) =>
          StmtMonotone(x, c1, c2);
          if ModifiesInfluenced(x, c1.influenced) {
            ModifiesMonotone(x, c1.influenced, c2.influenced);
          }
        case None =>
      }
    case While(_, body) => StmtMonotone(body, c1, c2);
    case DoWhile(body, _) => StmtMonotone(body, c1, c2);
    case For(_, _, _, body) =>
      match body {
        case Some(b) => StmtMonotone(b, c1, c2);
        case None =>
      }
    case VarDef(_, init) =>
      match init {
        case Some(x) => ExprMonotone(x, c1, c2, false);
        case None =>
      }
    case _ =>
  }

  lemma {:induction false} StmtsMonotone(ss: seq<Stmt>, c1: Context, c2: Context)
    requires Wider(c1, c2)
    ensures FlagsLe(StmtsInfluence(ss, c1), StmtsInfluence(ss, c2))
    decreases ss
  {
    if |ss| > 0 {
      StmtMonotone(ss[0], c1, c2);
      StmtsMonotone(ss[1..], c1, c2);
    }
  }

  // ---------------------------------------------------------------------------
  // The occurrence test as written misses operators.

  /** As written, `total = amount % 7` with `total` an influenced state variable is
      classified direct: the arithmetic check asks whether the `%` expression itself
      mentions the parameter, and the occurrence test does not look through `%`. */
  lemma ModuloNotArithmetic()
    ensures DetermineInfluenceType("amount", {"total"}, Some(ModuloUpdate()), {"total"}, AsWritten) == Direct
    ensures DetermineInfluenceType("amount", {"total"}, Some(ModuloUpdate()), {"total"}, AnyOperand) == Arithmetic
  {
    var rhs := Binary(Mod, Var("amount"), NumberLit("7"));
    assert !ContainsVarAsWritten(rhs, "amount");
    assert TaintScan.ExprNodes(rhs)[1] == Var("amount") by {
      assert TaintScan.ExprNodes(rhs) == [rhs] + TaintScan.ExprNodes(Var("amount")) + TaintScan.ExprNodes(NumberLit("7"));
    }
    assert BaseVarName(Var("total")) == "total";
  }

  /** `total = amount % 7`. */
  function ModuloUpdate(): Stmt {
    ExprStmt(Assign(Plain, Var("total"), Binary(Mod, Var("amount"), NumberLit("7"))))
  }

  /** As written, `if (amount <= cap) { total = 1; }` with `total` influenced raises no
      conditional influence: the occurrence test does not look through `<=`. */
  lemma LessEqualNotConditional()
    ensures DetermineInfluenceType("amount", {"total"}, Some(CappedUpdate()), {"total"}, AsWritten) == Direct
    ensures DetermineInfluenceType("amount", {"total"}, Some(CappedUpdate()), {"total"}, AnyOperand) == Conditional
  {
    var c := Binary(Le, Var("amount"), Var("cap"));
    var t := Block(false, [ExprStmt(Assign(Plain, Var("total"), NumberLit("1")))]);
    assert CappedUpdate() == If(c, t, None);
    var asWritten := Context("amount", {"total"}, {"total"}, AsWritten);
    var corrected := Context("amount", {"total"}, {"total"}, AnyOperand);
    assert !Mentions(asWritten, c);
    assert Mentions(corrected, c) by {
      assert TaintScan.ExprNodes(c) == [c] + TaintScan.ExprNodes(Var("amount")) + TaintScan.ExprNodes(Var("cap"));
      assert TaintScan.ExprNodes(c)[1] == Var("amount");
    }
    assert ModifiesInfluenced(t, {"total"}) by {
      assert BaseVarName(Var("total")) == "total";
      assert t.stmts[0] == ExprStmt(Assign(Plain, Var("total"), NumberLit("1")));
    }
    CappedBranchRaisesNothing(asWritten);
    CappedBranchRaisesNothing(corrected);
    assert StmtInfluence(If(c, t, None), asWritten) == NoFlags;
    assert StmtInfluence(If(c, t, None), corrected) == Flags(false, true, false, false);
  }

  /** The branch `{ total = 1; }` raises no flag by itself. */
  lemma CappedBranchRaisesNothing(ctx: Context)
    ensures StmtInfluence(Block(false, [ExprStmt(Assign(Plain, Var("total"), NumberLit("1")))]), ctx) == NoFlags
  {
    var a := Assign(Plain, Var("total"), NumberLit("1"));
    assert ExprInfluence(NumberLit("1"), ctx, true) == NoFlags;
    assert AssignInfluence(a, ctx) == NoFlags;
    assert StmtInfluence(ExprStmt(a), ctx) == NoFlags;
    assert [ExprStmt(a)][1..] == [];
  }

  /** `if (amount <= cap) { total = 1; }`. */
  function CappedUpdate(): Stmt {
    If(Binary(Le, Var("amount"), Var("cap")),
       Block(false, [ExprStmt(Assign(Plain, Var("total"), NumberLit("1")))]),
       None)
  }

  /** With the corrected test, a plain assignment to an influenced state variable from any
      arithmetic expression that mentions the parameter is at least arithmetic. */
  lemma ArithmeticDetected(param: string, influenced: set<string>, stateVars: set<string>,
                           lhs: Expr, op: BinOp, l: Expr, r: Expr)
    requires op in ArithOps
    requires BaseVarName(lhs) in stateVars && BaseVarName(lhs) in influenced
    requires MentionsVar(Binary(op, l, r), param)
    ensures Rank(DetermineInfluenceType(param, influenced, Some(ExprStmt(Assign(Plain, lhs, Binary(op, l, r)))),
                                        stateVars, AnyOperand)) >= Rank(Arithmetic)
  {
    var ctx := Context(param, influenced, stateVars, AnyOperand);
    var a := Assign(Plain, lhs, Binary(op, l, r));
    var f := StmtInfluence(ExprStmt(a), ctx);
    assert ExprInfluence(Binary(op, l, r), ctx, true).arithmetic;
    assert AssignInfluence(a, ctx).arithmetic;
    assert f == ExprInfluence(a, ctx, false) == AssignInfluence(a, ctx);
    assert Raised(f, Arithmetic);
  }

  /** With the corrected test, an `if` whose condition mentions the parameter and whose
      then-branch writes an influenced variable is at least conditional. */
  lemma ConditionalDetected(param: string, influenced: set<string>, stateVars: set<string>,
                            c: Expr, t: Stmt, el: Option<Stmt>)
    requires MentionsVar(c, param)
    requires ModifiesInfluenced(t, influenced)
    ensures Rank(DetermineInfluenceType(param, influenced, Some(If(c, t, el)), stateVars, AnyOperand))
            >= Rank(Conditional)
  {
    var ctx := Context(param, influenced, stateVars, AnyOperand);
    var f := StmtInfluence(If(c, t, el), ctx);
    assert f.conditional;
    assert Raised(f, Conditional);
  }
}
