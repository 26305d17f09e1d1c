/** Syntactic validation detection (src/dataflow.rs): the variables a function checks with
    `require`/`assert` or guards with an `if` whose branch reverts, and the substring test
    that decides whether a taint source counts as validated. */
module Validations {
  import opened Wrappers
  import opened Strings
  import opened Ast
  import opened FlowGraph

  /** A call of the built-in `revert` by name. */
  predicate IsRevertCall(e: Expr) {
    e.Call? && e.callee == Var("revert")
  }

  /** The statement reverts: a revert statement, a `revert(...)` expression statement, or
      a block holding one of these among its direct statements or nested blocks. Reverts
      inside nested branches or loops are not seen. */
  predicate ContainsRevert(s: Stmt) {
    match s
    case Revert(_, _) => true
    case Block(_, ss) => exists k :: 0 <= k < |ss| && ContainsRevert(ss[k])
    case ExprStmt(e) => IsRevertCall(e)
    case _ => false
  }

  /** A call of `require` or `assert` by name with at least one argument. */
  predicate IsCheckCall(e: Expr) {
    && e.Call?
    && e.callee.Var?
    && e.callee.name in {"require", "assert"}
    && |e.args| > 0
  }

  /** The variables a `require`/`assert` statement checks: those of its first argument. */
  function ExprValidations(e: Expr): (r: seq<string>)
    ensures IsCheckCall(e) ==> r == ExprVariables(e.args[0])
    ensures !IsCheckCall(e) ==> r == []
  {
    match e
    case Call(Var(n), args) =>
      if (n == "require" || n == "assert") && |args| > 0 then ExprVariables(args[0]) else []
    case _ => []
  }

  /** `g` guards the statement: it is the first argument of a `require`/`assert` that is a
      whole expression statement, or the condition of an `if` whose then-branch reverts,
      anywhere in nested blocks, both branches of an `if`, and loop bodies. */
  ghost predicate IsGuard(s: Stmt, g: Expr)
    decreases s
  {
    match s
    case ExprStmt(e) => IsCheckCall(e) && g == e.args[0]
    case Block(_, ss) => GuardIn(ss, g)
    case If(c, t, el) =>
      || (ContainsRevert(t) && g == c)
      || IsGuard(t, g)
      || (el.Some? && IsGuard(el.value, g))
    case While(_, body) => IsGuard(body, g)
    case DoWhile(body, _) => IsGuard(body, g)
    case For(_, _, _, Some(body)) => IsGuard(body, g)
    case _ => false
  }

  /** `g` guards one of the statements. */
  ghost predicate GuardIn(ss: seq<Stmt>, g: Expr)
    decreases ss
  {
    exists k :: 0 <= k < |ss| && IsGuard(ss[k], g)
  }

  /** `x` is a variable of one of the statement's guards. */
  ghost predicate Validates(s: Stmt, x: string) {
    exists g :: IsGuard(s, g) && x in ExprVariables(g)
  }

  /** `x` is a variable of a guard of one of the statements. */
  ghost predicate ValidatesIn(ss: seq<Stmt>, x: string) {
    exists g :: GuardIn(ss, g) && x in ExprVariables(g)
  }

  /** The variables a statement validates, in visiting order, with repeats. */
  function StmtValidations(s: Stmt): seq<string>
    decreases s
  {
    match s
    case ExprStmt(e) => ExprValidations(e)
    case Block(_, ss) => StmtsValidations(ss)
    case If(c, t, el) =>
      var here := if ContainsRevert(t) then ExprVariables(c) else [];
      var rest := (match el case Some(x) => StmtValidations(x) case None => []);
      here + StmtValidations(t) + rest
    case While(_, body) => StmtValidations(body)
    case DoWhile(body, _) => StmtValidations(body)
    case For(_, _, _, Some(body)) => StmtValidations(body)
    case _ => []
  }

  function StmtsValidations(ss: seq<Stmt>): seq<string>
    decreases ss
  {
    if |ss| == 0 then [] else StmtValidations(ss[0]) + StmtsValidations(ss[1..])
  }

  /** The variables a function body validates, none without a body. */
  function DetectValidations(body: Option<Stmt>): seq<string> {
    match body
    case Some(s) => StmtValidations(s)
    case None => []
  }

  /** The validated variables are exactly the variables of the guards. */
  lemma {:induction false} StmtValidationsAreGuards(s: Stmt)
    ensures forall x :: x in StmtValidations(s) <==> Validates(s, x)
    decreases s
  {
    match s
    case ExprStmt(e) =>
      forall x | x in StmtValidations(s) ensures Validates(s, x) {
        assert IsGuard(s, e.args[0]);
      }
    case Block(_, ss) =>
      StmtsValidationsAreGuards(ss);
      forall x ensures Validates(s, x) == ValidatesIn(ss, x) {
        assert forall g :: IsGuard(s, g) == GuardIn(ss, g);
      }
    case If(c, t, el) =>
      StmtValidationsAreGuards(t);
      match el {
        case Some(y) => StmtValidationsAreGuards(y);
        case None =>
      }
      forall x | x in StmtValidations(s) ensures Validates(s, x) {
        if ContainsRevert(t) && x in ExprVariables(c) {
          assert IsGuard(s, c);
        } else if x in StmtValidations(t) {
          var g :| IsGuard(t, g) && x in ExprVariables(g);
          assert IsGuard(s, g);
        } else {
          var g :| IsGuard(el.value, g) && x in ExprVariables(g);
          assert IsGuard(s, g);
        }
      }
      forall x | Validates(s, x) ensures x in StmtValidations(s) {
        var g :| IsGuard(s, g) && x in ExprVariables(g);
        if !(ContainsRevert(t) && g == c) && !IsGuard(t, g) {
          assert el.Some? && IsGuard(el.value, g);
          assert Validates(el.value, x);
        } else if IsGuard(t, g) {
          assert Validates(t, x);
        }
      }
    case While(_, body) =>
      StmtValidationsAreGuards(body);
      SameGuards(s, body);
    case DoWhile(body, _) =>
      StmtValidationsAreGuards(body);
      SameGuards(s, body);
    case For(_, _, _, body) =>
      match body {
        case Some(b) =>
          StmtValidationsAreGuards(b);
          SameGuards(s, b);
        case None =>
      }
    case _ =>
  }

  /** A loop has the guards of its body. */
  lemma SameGuards(s: Stmt, body: Stmt)
    requires forall g :: IsGuard(s, g) == IsGuard(body, g)
    ensures forall x :: Validates(s, x) == Validates(body, x)
  {
    forall x ensures Validates(s, x) == Validates(body, x) {
      if Validates(body, x) {
        var g :| IsGuard(body, g) && x in ExprVariables(g);
        assert IsGuard(s, g);
      }
    }
  }

  lemma {:induction false} StmtsValidationsAreGuards(ss: seq<Stmt>)
    ensures forall x :: x in StmtsValidations(ss) <==> ValidatesIn(ss, x)
    decreases ss
  {
    if |ss| > 0 {
      StmtValidationsAreGuards(ss[0]);
      StmtsValidationsAreGuards(ss[1..]);
      var head := StmtValidations(ss[0]);
      var tail := StmtsValidations(ss[1..]);
      assert StmtsValidations(ss) == head + tail;
      forall x | x in tail ensures ValidatesIn(ss, x) {
        var g :| GuardIn(ss[1..], g) && x in ExprVariables(g);
        var k :| 0 <= k < |ss[1..]| && IsGuard(ss[1..][k], g);
        assert ss[k + 1] == ss[1..][k];
        assert GuardIn(ss, g);
      }
      forall x | x in head ensures ValidatesIn(ss, x) {
        var g :| IsGuard(ss[0], g) && x in ExprVariables(g);
        assert GuardIn(ss, g);
      }
      forall x | ValidatesIn(ss, x) ensures x in head + tail {
        var g :| GuardIn(ss, g) && x in ExprVariables(g);
        var k :| 0 <= k < |ss| && IsGuard(ss[k], g);
        if k > 0 {
          assert ss[1..][k - 1] == ss[k];
          assert GuardIn(ss[1..], g);
          assert ValidatesIn(ss[1..], x);
        } else {
          assert Validates(ss[0], x);
        }
      }
    }
  }

  /** The validated variables of a body are exactly the variables of its guards. */
  lemma ValidationsAreGuards(body: Option<Stmt>)
    ensures body.None? ==> DetectValidations(body) == []
    ensures body.Some? ==> forall x :: x in DetectValidations(body) <==> Validates(body.value, x)
  {
    if body.Some? {
      StmtValidationsAreGuards(body.value);
    }
  }

  /** A source counts as validated when its name occurs as a substring of some validated
      name. */
  predicate IsValidated(vals: seq<string>, src: string) {
    exists k :: 0 <= k < |vals| && Contains(vals[k], src)
  }

  /** A source whose own name is validated counts as validated. */
  lemma ValidatedByName(vals: seq<string>, src: string)
    requires src in vals
    ensures IsValidated(vals, src)
  {
    var k :| 0 <= k < |vals| && vals[k] == src;
    assert StartsWith(vals[k], src);
  }

  /** The substring test over-approximates: a check on `amount` also counts as a check on
      a parameter named `a`. */
  lemma SubstringCountsAsValidation()
    ensures IsValidated(["amount"], "a")
    ensures !("a" in ["amount"])
  {
    var vals := ["amount"];
    assert StartsWith(vals[0], "a");
  }

  /** A `require` whose condition is the parameter validates it. */
  lemma RequireValidates(p: string, rest: seq<Expr>)
    ensures p in DetectValidations(Some(ExprStmt(Call(Var("require"), [Var(p)] + rest))))
  {
    var e := Call(Var("require"), [Var(p)] + rest);
    ValidationsAreGuards(Some(ExprStmt(e)));
    assert IsCheckCall(e) && e.args[0] == Var(p);
    assert IsGuard(ExprStmt(e), Var(p));
    assert p in ExprVariables(Var(p));
  }

  /** A revert reached only through a nested `if` does not make the outer condition a
      guard. */
  lemma NestedRevertNotSeen(c: Expr, d: Expr)
    ensures !ContainsRevert(If(d, Revert(None, []), None))
    ensures !IsGuard(If(c, If(d, Revert(None, []), None), None), c) || c == d
  {
    var inner := If(d, Revert(None, []), None);
    assert !IsGuard(Revert(None, []), c);
    assert IsGuard(inner, c) ==> c == d;
  }
}
