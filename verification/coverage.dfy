/** What the per-function walkers of src/analyzer.rs are guaranteed to find. Each walker
    is an accumulator over the syntax tree. Here each one gets a reference predicate that
    says, without accumulators, which nodes of the tree the walker looks at, and lemmas
    connecting the two: whatever the walker is meant to collect, at a position it visits,
    ends up in its result. */
module Coverage {
  import opened Wrappers
  import opened Strings
  import opened Ast
  import opened Paths
  import opened Collections
  import opened Records
  import opened Extract
  import opened ExternalCalls
  import opened Propagate
  import Analyze

  // ---------------------------------------------------------------------------
  // Write targets: the coarse walker and the field-level walker.

  /** `t` is a write target that the expression walkers inspect in `e`: the left-hand side
      of an assignment, the operand of `++`, `--` or `delete`, or the receiver of a call to
      one of `mutators`, at the top, in an assignment's right-hand side or in a call
      argument. */
  predicate TargetIn(e: Expr, t: Expr, mutators: set<string>) {
    match e
    case Assign(_, lhs, rhs) => t == lhs || TargetIn(rhs, t, mutators)
    case IncDec(_, x) => t == x
    case Delete(x) => t == x
    case Call(callee, args) =>
      || (callee.Member? && callee.member in mutators && t == callee.base)
      || exists i :: 0 <= i < |args| && TargetIn(args[i], t, mutators)
    case _ => false
  }

  /** `t` is a write target in an expression the statement walkers visit: expression
      statements, blocks, both branches of an `if`, loop bodies, the initialiser, update
      and body of a `for`, returned values and variable initialisers. */
  predicate StmtTarget(s: Stmt, t: Expr, mutators: set<string>) {
    match s
    case ExprStmt(e) => TargetIn(e, t, mutators)
    case Block(_, stmts) => exists i :: 0 <= i < |stmts| && StmtTarget(stmts[i], t, mutators)
    case If(_, thenS, elseS) =>
      StmtTarget(thenS, t, mutators) || (elseS.Some? && StmtTarget(elseS.value, t, mutators))
    case While(_, body) => StmtTarget(body, t, mutators)
    case DoWhile(body, _) => StmtTarget(body, t, mutators)
    case For(init, _, update, body) =>
      || (init.Some? && StmtTarget(init.value, t, mutators))
      || (update.Some? && TargetIn(update.value, t, mutators))
      || (body.Some? && StmtTarget(body.value, t, mutators))
    case Return(value) => value.Some? && TargetIn(value.value, t, mutators)
    case VarDef(_, init) => init.Some? && TargetIn(init.value, t, mutators)
    case _ => false
  }

  /** The name a write target is recorded under by the coarse walker, if any. */
  function TargetRoot(t: Expr, stateVars: set<string>, aliases: map<string, string>): (r: Option<string>)
    ensures r.Some? ==> IsAccessChain(t)
    ensures StateRooted(t, stateVars) ==> r == Some(ExtractBaseVariable(t).value)
  {
    match ExtractBaseVariable(t)
    case None => None
    case Some(n) => ResolveToStateVar(n, stateVars, aliases)
  }

  /** The target is an access chain whose root variable is a state variable. */
  predicate StateRooted(t: Expr, stateVars: set<string>) {
    IsAccessChain(t) && ExtractBaseVariable(t).value in stateVars
  }

  /** Recording one target adds exactly the name it resolves to. */
  lemma MarkResolvedExact(acc: seq<string>, t: Expr, stateVars: set<string>, aliases: map<string, string>)
    ensures forall x :: x in MarkResolved(acc, t, stateVars, aliases) <==> x in acc || TargetRoot(t, stateVars, aliases) == Some(x)
  {
  }

  /** A prefix keeps its members in every extension. */
  lemma InPrefix<T>(a: seq<T>, b: seq<T>, x: T)
    requires a <= b && x in a
    ensures x in b
  {
    var i :| 0 <= i < |a| && a[i] == x;
    assert b[i] == x;
  }

  /** A target the coarse expression walker inspects is recorded whenever it resolves. */
  lemma {:induction false} ExprModsRecords(e: Expr, stateVars: set<string>, aliases: map<string, string>,
                                           acc: seq<string>, t: Expr)
    requires TargetIn(e, t, CoarseMutators) && TargetRoot(t, stateVars, aliases).Some?
    ensures TargetRoot(t, stateVars, aliases).value in ExprMods(e, stateVars, aliases, acc)
  {
    var x := TargetRoot(t, stateVars, aliases).value;
    match e
    case Assign(_, lhs, rhs) =>
      var acc1 := MarkResolved(acc, lhs, stateVars, aliases);
      if t == lhs {
        MarkResolvedExact(acc, lhs, stateVars, aliases);
        InPrefix(acc1, ExprMods(rhs, stateVars, aliases, acc1), x);
      } else {
        ExprModsRecords(rhs, stateVars, aliases, acc1, t);
      }
    case IncDec(_, y) => MarkResolvedExact(acc, y, stateVars, aliases);
    case Delete(y) => MarkResolvedExact(acc, y, stateVars, aliases);
    case Call(callee, args) =>
      var acc1 := if callee.Member? && callee.member in CoarseMutators
                  then MarkResolved(acc, callee.base, stateVars, aliases) else acc;
      if callee.Member? && callee.member in CoarseMutators && t == callee.base {
        MarkResolvedExact(acc, callee.base, stateVars, aliases);
        InPrefix(acc1, ExprModsSeq(args, stateVars, aliases, acc1), x);
      } else {
        var i :| 0 <= i < |args| && TargetIn(args[i], t, CoarseMutators);
        ExprModsSeqRecords(args, stateVars, aliases, acc1, i, t);
      }
  }

  lemma {:induction false} ExprModsSeqRecords(es: seq<Expr>, stateVars: set<string>, aliases: map<string, string>,
                                              acc: seq<string>, i: nat, t: Expr)
    requires i < |es| && TargetIn(es[i], t, CoarseMutators) && TargetRoot(t, stateVars, aliases).Some?
    ensures TargetRoot(t, stateVars, aliases).value in ExprModsSeq(es, stateVars, aliases, acc)
  {
    var acc1 := ExprMods(es[0], stateVars, aliases, acc);
    if i == 0 {
      ExprModsRecords(es[0], stateVars, aliases, acc, t);
      InPrefix(acc1, ExprModsSeq(es[1..], stateVars, aliases, acc1), TargetRoot(t, stateVars, aliases).value);
    } else {
      assert es[1..][i - 1] == es[i];
      ExprModsSeqRecords(es[1..], stateVars, aliases, acc1, i - 1, t);
    }
  }

  /** A write whose target is rooted at a state variable is recorded by the coarse
      statement walker, whatever aliases are in scope. */
  lemma {:induction false} StmtModsRecords(s: Stmt, stateVars: set<string>, st: ScanState, t: Expr)
    requires AliasesWellFormed(st.aliases, stateVars)
    requires StmtTarget(s, t, CoarseMutators) && StateRooted(t, stateVars)
    ensures ExtractBaseVariable(t).value in StmtMods(s, stateVars, st).modified
    decreases s, 1
  {
    var x := ExtractBaseVariable(t).value;
    match s
    case ExprStmt(e) => ExprModsRecords(e, stateVars, st.aliases, st.modified, t);
    case Block(_, stmts) =>
      var i :| 0 <= i < |stmts| && StmtTarget(stmts[i], t, CoarseMutators);
      StmtsModsRecords(stmts, stateVars, st, i, t);
    case If(_, thenS, elseS) =>
      var r1 := StmtMods(thenS, stateVars, st);
      if StmtTarget(thenS, t, CoarseMutators) {
        StmtModsRecords(thenS, stateVars, st, t);
        if elseS.Some? {
          InPrefix(r1.modified, StmtMods(elseS.value, stateVars, r1).modified, x);
        }
      } else {
        StmtModsRecords(elseS.value, stateVars, r1, t);
      }
    case While(_, body) => StmtModsRecords(body, stateVars, st, t);
    case DoWhile(body, _) => StmtModsRecords(body, stateVars, st, t);
    case For(init, _, update, body) => ForModsRecords(s, stateVars, st, t);
    case Return(value) => ExprModsRecords(value.value, stateVars, st.aliases, st.modified, t);
    case VarDef(local, init) =>
      var al := BindAlias(local, init.value, stateVars, st.aliases);
      ExprModsRecords(init.value, stateVars, al, st.modified, t);
  }

  lemma {:induction false} ForModsRecords(s: Stmt, stateVars: set<string>, st: ScanState, t: Expr)
    requires s.For? && AliasesWellFormed(st.aliases, stateVars)
    requires StmtTarget(s, t, CoarseMutators) && StateRooted(t, stateVars)
    ensures ExtractBaseVariable(t).value in StmtMods(s, stateVars, st).modified
    decreases s, 0
  {
    var x := ExtractBaseVariable(t).value;
    var r1 := (match s.init case Some(i) => StmtMods(i, stateVars, st) case None => st);
    var r2 := (match s.update
               case Some(u) => ScanState(ExprMods(u, stateVars, r1.aliases, r1.modified), r1.aliases)
               case None => r1);
    var r3 := (match s.forBody case Some(b) => StmtMods(b, stateVars, r2) case None => r2);
    assert StmtMods(s, stateVars, st) == r3;
    if s.forBody.Some? && StmtTarget(s.forBody.value, t, CoarseMutators) {
      StmtModsRecords(s.forBody.value, stateVars, r2, t);
    } else {
      if s.init.Some? && StmtTarget(s.init.value, t, CoarseMutators) {
        StmtModsRecords(s.init.value, stateVars, st, t);
        InPrefix(r1.modified, r2.modified, x);
      } else {
        ExprModsRecords(s.update.value, stateVars, r1.aliases, r1.modified, t);
      }
      InPrefix(r2.modified, r3.modified, x);
    }
  }

  lemma {:induction false} StmtsModsRecords(ss: seq<Stmt>, stateVars: set<string>, st: ScanState, i: nat, t: Expr)
    requires AliasesWellFormed(st.aliases, stateVars)
    requires i < |ss| && StmtTarget(ss[i], t, CoarseMutators) && StateRooted(t, stateVars)
    ensures ExtractBaseVariable(t).value in StmtsMods(ss, stateVars, st).modified
  {
    var st1 := StmtMods(ss[0], stateVars, st);
    if i == 0 {
      StmtModsRecords(ss[0], stateVars, st, t);
      InPrefix(st1.modified, StmtsMods(ss[1..], stateVars, st1).modified, ExtractBaseVariable(t).value);
    } else {
      assert ss[1..][i - 1] == ss[i];
      StmtsModsRecords(ss[1..], stateVars, st1, i - 1, t);
    }
  }

  /** Every state variable that a function body writes directly (not through a storage
      parameter) is among its modified state variables. */
  lemma StateWriteRecorded(body: Stmt, stateVars: set<string>, storageParams: seq<StorageParam>, t: Expr)
    requires StmtTarget(body, t, CoarseMutators) && StateRooted(t, stateVars)
    requires ExtractBaseVariable(t).value !in ParamNames(storageParams)
    ensures ExtractBaseVariable(t).value in FindStateModifications(Some(body), stateVars, storageParams)
  {
    StmtModsRecords(body, stateVars, ScanState([], map[]), t);
  }

  /** `total = x;` inside a block, with `total` a state variable, makes the body a
      writer of `total`. */
  lemma AssignmentRecorded(pre: seq<Stmt>, op: AssignOp, v: string, rhs: Expr, post: seq<Stmt>,
                           stateVars: set<string>, storageParams: seq<StorageParam>)
    requires v in stateVars && v !in ParamNames(storageParams)
    ensures v in FindStateModifications(Some(Block(false, pre + [ExprStmt(Assign(op, Var(v), rhs))] + post)),
                                        stateVars, storageParams)
  {
    var ss := pre + [ExprStmt(Assign(op, Var(v), rhs))] + post;
    assert ss[|pre|] == ExprStmt(Assign(op, Var(v), rhs));
    assert StmtTarget(Block(false, ss), Var(v), CoarseMutators);
    StateWriteRecorded(Block(false, ss), stateVars, storageParams, Var(v));
  }

  // ---------------------------------------------------------------------------
  // Field paths.

  /** The path the field-level walker records for a target whose root does not need an
      alias: a storage parameter's path under "@param", or a state variable's own path.
      Solidity identifiers never contain '@', so no state variable is called like the
      storage-struct marker; that name is left out here. */
  function DirectField(t: Expr, stateVars: set<string>, params: set<string>): (r: Option<string>)
    ensures r.Some? ==> IsAccessChain(t)
  {
    if !IsAccessChain(t) then None
    else
      var base := ExtractBaseVariable(t).value;
      var full := ExtractMemberPath(t).value;
      if base in params then Some(ParamMarker + full[|base|..])
      else if base in stateVars && base != StorageStructMarker then Some(full)
      else None
  }

  /** For such a target the alias map is irrelevant: the field-level walker records
      exactly the direct path. */
  lemma FieldWriteDirect(t: Expr, stateVars: set<string>, params: set<string>, aliases: map<string, string>)
    requires AliasesWellFormed(aliases, stateVars)
    requires DirectField(t, stateVars, params).Some?
    ensures FieldWrite(t, stateVars, params, aliases) == DirectField(t, stateVars, params)
  {
    var base := ExtractBaseVariable(t).value;
    var full := ExtractMemberPath(t).value;
    if base !in params {
      ReplaceFirstAtPrefix(full, base, base);
      assert base + full[|base|..] == full;
    }
  }

  lemma {:induction false} ExprFieldsRecords(e: Expr, stateVars: set<string>, params: set<string>,
                                             aliases: map<string, string>, acc: seq<string>, t: Expr)
    requires AliasesWellFormed(aliases, stateVars)
    requires TargetIn(e, t, FieldMutators) && DirectField(t, stateVars, params).Some?
    ensures DirectField(t, stateVars, params).value in ExprFields(e, stateVars, params, aliases, acc)
  {
    var f := DirectField(t, stateVars, params).value;
    FieldWriteDirect(t, stateVars, params, aliases);
    match e
    case Assign(_, lhs, rhs) =>
      var acc1 := RecordField(acc, lhs, stateVars, params, aliases);
      if t == lhs {
        InPrefix(acc1, ExprFields(rhs, stateVars, params, aliases, acc1), f);
      } else {
        ExprFieldsRecords(rhs, stateVars, params, aliases, acc1, t);
      }
    case IncDec(_, y) =>
    case Delete(y) =>
    case Call(callee, args) =>
      var acc1 := if callee.Member? && callee.member in FieldMutators
                  then RecordField(acc, callee.base, stateVars, params, aliases) else acc;
      if callee.Member? && callee.member in FieldMutators && t == callee.base {
        InPrefix(acc1, ExprFieldsSeq(args, stateVars, params, aliases, acc1), f);
      } else {
        var i :| 0 <= i < |args| && TargetIn(args[i], t, FieldMutators);
        ExprFieldsSeqRecords(args, stateVars, params, aliases, acc1, i, t);
      }
  }

  lemma {:induction false} ExprFieldsSeqRecords(es: seq<Expr>, stateVars: set<string>, params: set<string>,
                                                aliases: map<string, string>, acc: seq<string>, i: nat, t: Expr)
    requires AliasesWellFormed(aliases, stateVars)
    requires i < |es| && TargetIn(es[i], t, FieldMutators) && DirectField(t, stateVars, params).Some?
    ensures DirectField(t, stateVars, params).value in ExprFieldsSeq(es, stateVars, params, aliases, acc)
  {
    var acc1 := ExprFields(es[0], stateVars, params, aliases, acc);
    if i == 0 {
      ExprFieldsRecords(es[0], stateVars, params, aliases, acc, t);
      InPrefix(acc1, ExprFieldsSeq(es[1..], stateVars, params, aliases, acc1), DirectField(t, stateVars, params).value);
    } else {
      assert es[1..][i - 1] == es[i];
      ExprFieldsSeqRecords(es[1..], stateVars, params, aliases, acc1, i - 1, t);
    }
  }

  /** A write to a path rooted at a storage parameter or a state variable is recorded by
      the field-level statement walker, whatever aliases are in scope. */
  lemma {:induction false} StmtFieldsRecords(s: Stmt, stateVars: set<string>, params: set<string>,
                                             st: FieldState, t: Expr)
    requires AliasesWellFormed(st.aliases, stateVars)
    requires StmtTarget(s, t, FieldMutators) && DirectField(t, stateVars, params).Some?
    ensures DirectField(t, stateVars, params).value in StmtFields(s, stateVars, params, st).fields
    decreases s, 1
  {
    var f := DirectField(t, stateVars, params).value;
    match s
    case ExprStmt(e) => ExprFieldsRecords(e, stateVars, params, st.aliases, st.fields, t);
    case Block(_, stmts) =>
      var i :| 0 <= i < |stmts| && StmtTarget(stmts[i], t, FieldMutators);
      StmtsFieldsRecords(stmts, stateVars, params, st, i, t);
    case If(_, thenS, elseS) =>
      var r1 := StmtFields(thenS, stateVars, params, st);
      if StmtTarget(thenS, t, FieldMutators) {
        StmtFieldsRecords(thenS, stateVars, params, st, t);
        if elseS.Some? {
          InPrefix(r1.fields, StmtFields(elseS.value, stateVars, params, r1).fields, f);
        }
      } else {
        StmtFieldsRecords(elseS.value, stateVars, params, r1, t);
      }
    case While(_, body) => StmtFieldsRecords(body, stateVars, params, st, t);
    case DoWhile(body, _) => StmtFieldsRecords(body, stateVars, params, st, t);
    case For(init, _, update, body) => ForFieldsRecords(s, stateVars, params, st, t);
    case Return(value) => ExprFieldsRecords(value.value, stateVars, params, st.aliases, st.fields, t);
    case VarDef(local, init) =>
      var al := BindAlias(local, init.value, stateVars, st.aliases);
      ExprFieldsRecords(init.value, stateVars, params, al, st.fields, t);
  }

  lemma {:induction false} ForFieldsRecords(s: Stmt, stateVars: set<string>, params: set<string>,
                                            st: FieldState, t: Expr)
    requires s.For? && AliasesWellFormed(st.aliases, stateVars)
    requires StmtTarget(s, t, FieldMutators) && DirectField(t, stateVars, params).Some?
    ensures DirectField(t, stateVars, params).value in StmtFields(s, stateVars, params, st).fields
    decreases s, 0
  {
    var f := DirectField(t, stateVars, params).value;
    var r1 := (match s.init case Some(i) => StmtFields(i, stateVars, params, st) case None => st);
    var r2 := (match s.update
               case Some(u) => FieldState(ExprFields(u, stateVars, params, r1.aliases, r1.fields), r1.aliases)
               case None => r1);
    var r3 := (match s.forBody case Some(b) => StmtFields(b, stateVars, params, r2) case None => r2);
    assert StmtFields(s, stateVars, params, st) == r3;
    if s.forBody.Some? && StmtTarget(s.forBody.value, t, FieldMutators) {
      StmtFieldsRecords(s.forBody.value, stateVars, params, r2, t);
    } else {
      if s.init.Some? && StmtTarget(s.init.value, t, FieldMutators) {
        StmtFieldsRecords(s.init.value, stateVars, params, st, t);
        InPrefix(r1.fields, r2.fields, f);
      } else {
        ExprFieldsRecords(s.update.value, stateVars, params, r1.aliases, r1.fields, t);
      }
      InPrefix(r2.fields, r3.fields, f);
    }
  }

  lemma {:induction false} StmtsFieldsRecords(ss: seq<Stmt>, stateVars: set<string>, params: set<string>,
                                              st: FieldState, i: nat, t: Expr)
    requires AliasesWellFormed(st.aliases, stateVars)
    requires i < |ss| && StmtTarget(ss[i], t, FieldMutators) && DirectField(t, stateVars, params).Some?
    ensures DirectField(t, stateVars, params).value in StmtsFields(ss, stateVars, params, st).fields
  {
    var st1 := StmtFields(ss[0], stateVars, params, st);
    if i == 0 {
      StmtFieldsRecords(ss[0], stateVars, params, st, t);
      InPrefix(st1.fields, StmtsFields(ss[1..], stateVars, params, st1).fields, DirectField(t, stateVars, params).value);
    } else {
      assert ss[1..][i - 1] == ss[i];
      StmtsFieldsRecords(ss[1..], stateVars, params, st1, i - 1, t);
    }
  }

  /** Every write of a body to a path rooted at a storage parameter or a state variable
      is among its field modifications. */
  lemma FieldWriteRecorded(body: Stmt, stateVars: set<string>, storageParams: seq<StorageParam>, t: Expr)
    requires StmtTarget(body, t, FieldMutators) && DirectField(t, stateVars, ParamNames(storageParams)).Some?
    ensures DirectField(t, stateVars, ParamNames(storageParams)).value
              in FindFieldModifications(Some(body), stateVars, storageParams)
  {
    StmtFieldsRecords(body, stateVars, ParamNames(storageParams), FieldState([], map[]), t);
  }

  /** `s.a = x;` with `s` a state variable records the field path "s.a". */
  lemma MemberAssignmentRecorded(v: string, m: string, op: AssignOp, rhs: Expr,
                                 stateVars: set<string>, storageParams: seq<StorageParam>)
    requires v in stateVars && v != StorageStructMarker && v !in ParamNames(storageParams)
    ensures v + "." + m in FindFieldModifications(Some(ExprStmt(Assign(op, Member(Var(v), m), rhs))),
                                                  stateVars, storageParams)
  {
    var t := Member(Var(v), m);
    assert ExtractMemberPath(t) == Some(v + "." + m);
    FieldWriteRecorded(ExprStmt(Assign(op, t, rhs)), stateVars, storageParams, t);
  }

  // ---------------------------------------------------------------------------
  // Internal calls.

  /** `f` is called directly (`f(...)`) in `e`, at a position the call walker visits:
      the callee, call arguments, and bases of member accesses. */
  predicate CallsIn(e: Expr, f: string) {
    match e
    case Call(callee, args) =>
      (callee.Var? && callee.name == f) || exists i :: 0 <= i < |args| && CallsIn(args[i], f)
    case Member(b, _) => CallsIn(b, f)
    case _ => false
  }

  /** `f` is called in a statement: in expression statements, blocks, the condition and
      branches of an `if`, the condition and body of a `while`, the four parts of a
      `for`, and returned values. */
  predicate StmtCallsIn(s: Stmt, f: string) {
    match s
    case ExprStmt(e) => CallsIn(e, f)
    case Block(_, stmts) => exists i :: 0 <= i < |stmts| && StmtCallsIn(stmts[i], f)
    case If(c, thenS, elseS) =>
      CallsIn(c, f) || StmtCallsIn(thenS, f) || (elseS.Some? && StmtCallsIn(elseS.value, f))
    case While(c, body) => CallsIn(c, f) || StmtCallsIn(body, f)
    case For(init, c, update, body) =>
      || (init.Some? && StmtCallsIn(init.value, f))
      || (c.Some? && CallsIn(c.value, f))
      || (update.Some? && CallsIn(update.value, f))
      || (body.Some? && StmtCallsIn(body.value, f))
    case Return(value) => value.Some? && CallsIn(value.value, f)
    case _ => false
  }

  lemma {:induction false} ExprCallsExact(e: Expr, acc: seq<string>)
    ensures forall f :: f in ExprCalls(e, acc) <==> f in acc || CallsIn(e, f)
  {
    match e
    case Call(callee, args) =>
      var acc1 := if callee.Var? then Insert(acc, callee.name) else acc;
      ExprCallsSeqExact(args, acc1);
    case Member(b, _) => ExprCallsExact(b, acc);
    case _ =>
  }

  lemma {:induction false} ExprCallsSeqExact(es: seq<Expr>, acc: seq<string>)
    ensures forall f :: f in ExprCallsSeq(es, acc) <==> f in acc || exists i :: 0 <= i < |es| && CallsIn(es[i], f)
  {
    if |es| > 0 {
      ExprCallsExact(es[0], acc);
      ExprCallsSeqExact(es[1..], ExprCalls(es[0], acc));
      assert forall i :: 0 < i < |es| ==> es[i] == es[1..][i - 1];
      forall f | exists i :: 0 <= i < |es| && CallsIn(es[i], f)
        ensures (exists i :: 0 <= i < |es[1..]| && CallsIn(es[1..][i], f)) || CallsIn(es[0], f)
      {
        var i :| 0 <= i < |es| && CallsIn(es[i], f);
        if i > 0 {
          assert CallsIn(es[1..][i - 1], f);
        }
      }
    }
  }

  lemma {:induction false} StmtCallsExact(s: Stmt, acc: seq<string>)
    ensures forall f :: f in StmtCalls(s, acc) <==> f in acc || StmtCallsIn(s, f)
    decreases s, 1
  {
    match s
    case ExprStmt(e) => ExprCallsExact(e, acc);
    case Block(_, stmts) => StmtsCallsExact(stmts, acc);
    case If(c, thenS, elseS) =>
      var a0 := ExprCalls(c, acc);
      ExprCallsExact(c, acc);
      StmtCallsExact(thenS, a0);
      if elseS.Some? {
        StmtCallsExact(elseS.value, StmtCalls(thenS, a0));
      }
    case While(c, body) =>
      ExprCallsExact(c, acc);
      StmtCallsExact(body, ExprCalls(c, acc));
    case For(init, c, update, body) => ForCallsExact(s, acc);
    case Return(value) =>
      if value.Some? {
        ExprCallsExact(value.value, acc);
      }
    case _ =>
  }

  lemma {:induction false} ForCallsExact(s: Stmt, acc: seq<string>)
    requires s.For?
    ensures forall f :: f in StmtCalls(s, acc) <==> f in acc || StmtCallsIn(s, f)
    decreases s, 0
  {
    var a1 := (match s.init case Some(i) => StmtCalls(i, acc) case None => acc);
    if s.init.Some? {
      StmtCallsExact(s.init.value, acc);
    }
    var a15 := OptExprCalls(s.forCond, a1);
    if s.forCond.Some? {
      ExprCallsExact(s.forCond.value, a1);
    }
    var a2 := OptExprCalls(s.update, a15);
    if s.update.Some? {
      ExprCallsExact(s.update.value, a15);
    }
    if s.forBody.Some? {
      StmtCallsExact(s.forBody.value, a2);
    }
  }

  lemma {:induction false} StmtsCallsExact(ss: seq<Stmt>, acc: seq<string>)
    ensures forall f :: f in StmtsCalls(ss, acc) <==> f in acc || exists i :: 0 <= i < |ss| && StmtCallsIn(ss[i], f)
  {
    if |ss| > 0 {
      StmtCallsExact(ss[0], acc);
      StmtsCallsExact(ss[1..], StmtCalls(ss[0], acc));
      assert forall i :: 0 < i < |ss| ==> ss[i] == ss[1..][i - 1];
      forall f | exists i :: 0 <= i < |ss| && StmtCallsIn(ss[i], f)
        ensures (exists i :: 0 <= i < |ss[1..]| && StmtCallsIn(ss[1..][i], f)) || StmtCallsIn(ss[0], f)
      {
        var i :| 0 <= i < |ss| && StmtCallsIn(ss[i], f);
        if i > 0 {
          assert StmtCallsIn(ss[1..][i - 1], f);
        }
      }
    }
  }

  /** The functions a body calls are exactly the names called at the positions the call
      walker visits. */
  lemma FunctionCallsExact(body: Option<Stmt>)
    ensures forall f :: f in FindFunctionCalls(body) <==> body.Some? && StmtCallsIn(body.value, f)
  {
    if body.Some? {
      StmtCallsExact(body.value, []);
    }
  }

  // ---------------------------------------------------------------------------
  // Events and errors.

  /** `n` is emitted by an `emit n(...)` statement that the event walker reaches: through
      blocks, both branches of an `if`, loop bodies and a `for`'s initialiser and body. */
  predicate Emits(s: Stmt, n: string) {
    match s
    case Emit(ev) => ev.Call? && ev.callee.Var? && ev.callee.name == n
    case Block(_, stmts) => exists i :: 0 <= i < |stmts| && Emits(stmts[i], n)
    case If(_, thenS, elseS) => Emits(thenS, n) || (elseS.Some? && Emits(elseS.value, n))
    case While(_, body) => Emits(body, n)
    case DoWhile(body, _) => Emits(body, n)
    case For(init, _, _, body) => (init.Some? && Emits(init.value, n)) || (body.Some? && Emits(body.value, n))
    case _ => false
  }

  lemma {:induction false} StmtEventsExact(s: Stmt, events: set<string>, acc: seq<string>)
    ensures forall x :: x in StmtEvents(s, events, acc) <==> x in acc || (x in events && Emits(s, x))
  {
    match s
    case Emit(ev) =>
    case Block(_, stmts) => StmtsEventsExact(stmts, events, acc);
    case If(_, thenS, elseS) =>
      StmtEventsExact(thenS, events, acc);
      if elseS.Some? {
        StmtEventsExact(elseS.value, events, StmtEvents(thenS, events, acc));
      }
    case While(_, body) => StmtEventsExact(body, events, acc);
    case DoWhile(body, _) => StmtEventsExact(body, events, acc);
    case For(init, _, _, body) =>
      var a1 := (match init case Some(i) => StmtEvents(i, events, acc) case None => acc);
      if init.Some? {
        StmtEventsExact(init.value, events, acc);
      }
      if body.Some? {
        StmtEventsExact(body.value, events, a1);
      }
    case _ =>
  }

  lemma {:induction false} StmtsEventsExact(ss: seq<Stmt>, events: set<string>, acc: seq<string>)
    ensures forall x :: x in StmtsEvents(ss, events, acc) <==>
              x in acc || (x in events && exists i :: 0 <= i < |ss| && Emits(ss[i], x))
  {
    if |ss| > 0 {
      StmtEventsExact(ss[0], events, acc);
      StmtsEventsExact(ss[1..], events, StmtEvents(ss[0], events, acc));
      assert forall i :: 0 < i < |ss| ==> ss[i] == ss[1..][i - 1];
      forall x | exists i :: 0 <= i < |ss| && Emits(ss[i], x)
        ensures (exists i :: 0 <= i < |ss[1..]| && Emits(ss[1..][i], x)) || Emits(ss[0], x)
      {
        var i :| 0 <= i < |ss| && Emits(ss[i], x);
        if i > 0 {
          assert Emits(ss[1..][i - 1], x);
        }
      }
    }
  }

  /** The events a body emits are exactly the declared events it emits where the event
      walker looks. */
  lemma EventEmissionsExact(body: Option<Stmt>, events: set<string>)
    ensures forall x :: x in FindEventEmissions(body, events) <==> body.Some? && x in events && Emits(body.value, x)
  {
    if body.Some? {
      StmtEventsExact(body.value, events, []);
    }
  }

  /** `n` names the custom error of a `revert n(...)` statement that the error walker
      reaches, through the same statement positions as the event walker. */
  predicate RevertsWith(s: Stmt, n: string) {
    match s
    case Revert(path, _) => path.Some? && ErrorName(path.value) == n
    case Block(_, stmts) => exists i :: 0 <= i < |stmts| && RevertsWith(stmts[i], n)
    case If(_, thenS, elseS) => RevertsWith(thenS, n) || (elseS.Some? && RevertsWith(elseS.value, n))
    case While(_, body) => RevertsWith(body, n)
    case DoWhile(body, _) => RevertsWith(body, n)
    case For(init, _, _, body) =>
      (init.Some? && RevertsWith(init.value, n)) || (body.Some? && RevertsWith(body.value, n))
    case _ => false
  }

  lemma {:induction false} StmtErrorsExact(s: Stmt, acc: seq<string>)
    ensures forall x :: x in StmtErrors(s, acc) <==> x in acc || RevertsWith(s, x)
  {
    match s
    case Revert(_, _) =>
    case Block(_, stmts) => StmtsErrorsExact(stmts, acc);
    case If(_, thenS, elseS) =>
      StmtErrorsExact(thenS, acc);
      if elseS.Some? {
        StmtErrorsExact(elseS.value, StmtErrors(thenS, acc));
      }
    case While(_, body) => StmtErrorsExact(body, acc);
    case DoWhile(body, _) => StmtErrorsExact(body, acc);
    case For(init, _, _, body) =>
      var a1 := (match init case Some(i) => StmtErrors(i, acc) case None => acc);
      if init.Some? {
        StmtErrorsExact(init.value, acc);
      }
      if body.Some? {
        StmtErrorsExact(body.value, a1);
      }
    case _ =>
  }

  lemma {:induction false} StmtsErrorsExact(ss: seq<Stmt>, acc: seq<string>)
    ensures forall x :: x in StmtsErrors(ss, acc) <==> x in acc || exists i :: 0 <= i < |ss| && RevertsWith(ss[i], x)
  {
    if |ss| > 0 {
      StmtErrorsExact(ss[0], acc);
      StmtsErrorsExact(ss[1..], StmtErrors(ss[0], acc));
      assert forall i :: 0 < i < |ss| ==> ss[i] == ss[1..][i - 1];
      forall x | exists i :: 0 <= i < |ss| && RevertsWith(ss[i], x)
        ensures (exists i :: 0 <= i < |ss[1..]| && RevertsWith(ss[1..][i], x)) || RevertsWith(ss[0], x)
      {
        var i :| 0 <= i < |ss| && RevertsWith(ss[i], x);
        if i > 0 {
          assert RevertsWith(ss[1..][i - 1], x);
        }
      }
    }
  }

  /** The errors a body uses are exactly the errors of the `revert` statements the error
      walker reaches. */
  lemma ErrorUsageExact(body: Option<Stmt>)
    ensures forall x :: x in FindErrorUsage(body) <==> body.Some? && RevertsWith(body.value, x)
  {
    if body.Some? {
      StmtErrorsExact(body.value, []);
    }
  }

  // ---------------------------------------------------------------------------
  // External calls.

  /** `v.f(...)` occurs in `e` where the external-call walker looks: the callee of a
      call, call arguments, and bases of member accesses. */
  predicate CallsThroughIn(e: Expr, v: string, f: string) {
    match e
    case Call(callee, args) =>
      || (callee.Member? && callee.base.Var? && callee.base.name == v && callee.member == f)
      || exists i :: 0 <= i < |args| && CallsThroughIn(args[i], v, f)
    case Member(b, _) => CallsThroughIn(b, v, f)
    case _ => false
  }

  /** `v.f(...)` occurs in a statement the walker reaches: expression statements, blocks,
      both branches of an `if`, loop bodies, and a `for`'s initialiser and body. */
  predicate StmtCallsThrough(s: Stmt, v: string, f: string) {
    match s
    case ExprStmt(e) => CallsThroughIn(e, v, f)
    case Block(_, stmts) => exists i :: 0 <= i < |stmts| && StmtCallsThrough(stmts[i], v, f)
    case If(_, thenS, elseS) => StmtCallsThrough(thenS, v, f) || (elseS.Some? && StmtCallsThrough(elseS.value, v, f))
    case While(_, body) => StmtCallsThrough(body, v, f)
    case DoWhile(body, _) => StmtCallsThrough(body, v, f)
    case For(init, _, _, body) =>
      (init.Some? && StmtCallsThrough(init.value, v, f)) || (body.Some? && StmtCallsThrough(body.value, v, f))
    case _ => false
  }

  lemma {:induction false} ExprExternalRecords(e: Expr, ctx: CallContext, acc: seq<ExternalCall>, v: string, f: string)
    requires CallsThroughIn(e, v, f) && v in ctx.varTypes
    ensures CallThrough(v, f, ctx).value in ExprExternal(e, ctx, acc)
  {
    var c := CallThrough(v, f, ctx).value;
    match e
    case Call(callee, args) =>
      var acc1 :=
        if callee.Member? && callee.base.Var? then
          (match CallThrough(callee.base.name, callee.member, ctx)
           case Some(c) => acc + [c]
           case None => acc)
        else acc;
      if callee.Member? && callee.base.Var? && callee.base.name == v && callee.member == f {
        assert acc1 == acc + [c];
        InPrefix(acc1, ExprsExternal(args, ctx, acc1), c);
      } else {
        var i :| 0 <= i < |args| && CallsThroughIn(args[i], v, f);
        ExprsExternalRecords(args, ctx, acc1, i, v, f);
      }
    case Member(b, _) => ExprExternalRecords(b, ctx, acc, v, f);
  }

  lemma {:induction false} ExprsExternalRecords(es: seq<Expr>, ctx: CallContext, acc: seq<ExternalCall>,
                                                i: nat, v: string, f: string)
    requires i < |es| && CallsThroughIn(es[i], v, f) && v in ctx.varTypes
    ensures CallThrough(v, f, ctx).value in ExprsExternal(es, ctx, acc)
  {
    var acc1 := ExprExternal(es[0], ctx, acc);
    if i == 0 {
      ExprExternalRecords(es[0], ctx, acc, v, f);
      InPrefix(acc1, ExprsExternal(es[1..], ctx, acc1), CallThrough(v, f, ctx).value);
    } else {
      assert es[1..][i - 1] == es[i];
      ExprsExternalRecords(es[1..], ctx, acc1, i - 1, v, f);
    }
  }

  /** A call `v.f(...)` through a typed state variable, where the walker looks, is
      recorded. */
  lemma {:induction false} StmtExternalRecords(s: Stmt, ctx: CallContext, acc: seq<ExternalCall>, v: string, f: string)
    requires StmtCallsThrough(s, v, f) && v in ctx.varTypes
    ensures CallThrough(v, f, ctx).value in StmtExternal(s, ctx, acc)
  {
    var c := CallThrough(v, f, ctx).value;
    match s
    case ExprStmt(e) => ExprExternalRecords(e, ctx, acc, v, f);
    case Block(_, stmts) =>
      var i :| 0 <= i < |stmts| && StmtCallsThrough(stmts[i], v, f);
      StmtsExternalRecords(stmts, ctx, acc, i, v, f);
    case If(_, thenS, elseS) =>
      var a1 := StmtExternal(thenS, ctx, acc);
      if StmtCallsThrough(thenS, v, f) {
        StmtExternalRecords(thenS, ctx, acc, v, f);
        if elseS.Some? {
          InPrefix(a1, StmtExternal(elseS.value, ctx, a1), c);
        }
      } else {
        StmtExternalRecords(elseS.value, ctx, a1, v, f);
      }
    case While(_, body) => StmtExternalRecords(body, ctx, acc, v, f);
    case DoWhile(body, _) => StmtExternalRecords(body, ctx, acc, v, f);
    case For(init, _, _, body) =>
      var a1 := (match init case Some(i) => StmtExternal(i, ctx, acc) case None => acc);
      if body.Some? && StmtCallsThrough(body.value, v, f) {
        StmtExternalRecords(body.value, ctx, a1, v, f);
      } else {
        StmtExternalRecords(init.value, ctx, acc, v, f);
        if body.Some? {
          InPrefix(a1, StmtExternal(body.value, ctx, a1), c);
        }
      }
  }

  lemma {:induction false} StmtsExternalRecords(ss: seq<Stmt>, ctx: CallContext, acc: seq<ExternalCall>,
                                                i: nat, v: string, f: string)
    requires i < |ss| && StmtCallsThrough(ss[i], v, f) && v in ctx.varTypes
    ensures CallThrough(v, f, ctx).value in StmtsExternal(ss, ctx, acc)
  {
    var acc1 := StmtExternal(ss[0], ctx, acc);
    if i == 0 {
      StmtExternalRecords(ss[0], ctx, acc, v, f);
      InPrefix(acc1, StmtsExternal(ss[1..], ctx, acc1), CallThrough(v, f, ctx).value);
    } else {
      assert ss[1..][i - 1] == ss[i];
      StmtsExternalRecords(ss[1..], ctx, acc1, i - 1, v, f);
    }
  }

  /** Function `j` has a body that calls `v.f(...)` where the walker looks. */
  predicate BodyCallsThrough(fns: seq<FunctionInfo>, j: nat, bodies: map<string, FunctionDefinition>,
                             v: string, f: string) {
    && j < |fns|
    && fns[j].name in bodies
    && bodies[fns[j].name].fnBody.Some?
    && StmtCallsThrough(bodies[fns[j].name].fnBody.value, v, f)
  }

  /** The scan over the functions records that call, under function `j`'s name and line. */
  lemma {:induction false} ScanFunctionsRecords(fns: seq<FunctionInfo>, from: nat, bodies: map<string, FunctionDefinition>,
                                                contractName: string, varTypes: map<string, string>,
                                                contracts: seq<ContractInfo>, acc: seq<ExternalCall>,
                                                j: nat, v: string, f: string)
    requires from <= j && BodyCallsThrough(fns, j, bodies, v, f) && v in varTypes
    ensures CallThrough(v, f, CallContext(contractName, fns[j].name, varTypes, contracts, fns[j].line)).value
              in ScanFunctions(fns, from, bodies, contractName, varTypes, contracts, acc)
    decreases j - from
  {
    var ctx := CallContext(contractName, fns[from].name, varTypes, contracts, fns[from].line);
    var acc1 :=
      if fns[from].name in bodies && bodies[fns[from].name].fnBody.Some? then
        StmtExternal(bodies[fns[from].name].fnBody.value, ctx, acc)
      else acc;
    if j == from {
      StmtExternalRecords(bodies[fns[j].name].fnBody.value, ctx, acc, v, f);
      InPrefix(acc1, ScanFunctions(fns, from + 1, bodies, contractName, varTypes, contracts, acc1),
               CallThrough(v, f, ctx).value);
    } else {
      ScanFunctionsRecords(fns, from + 1, bodies, contractName, varTypes, contracts, acc1, j, v, f);
    }
  }

  /** A call `v.f(...)` through a typed state variable in the body of a contract's
      function is detected, and attached to that function. */
  lemma ExternalCallDetected(info: ContractInfo, parts: seq<ContractPart>, contracts: seq<ContractInfo>,
                             j: nat, v: string, f: string)
    requires BodyCallsThrough(info.functions, j, DefinitionsByName(parts, false), v, f)
    requires v in VarTypes(parts)
    ensures var c := CallThrough(v, f, CallContext(info.name, info.functions[j].name, VarTypes(parts), contracts,
                                                   info.functions[j].line)).value;
            var r := DetectExternalCalls(info, parts, contracts);
            c in r.calls && c in r.contract.functions[j].externalCalls
  {
    var varTypes := VarTypes(parts);
    var c := CallThrough(v, f, CallContext(info.name, info.functions[j].name, varTypes, contracts,
                                           info.functions[j].line)).value;
    ScanFunctionsRecords(info.functions, 0, DefinitionsByName(parts, false), info.name, varTypes, contracts, [], j, v, f);
    var r := DetectExternalCalls(info, parts, contracts);
    assert c in CallsOf(r.calls, info.functions[j].name);
  }

  // ---------------------------------------------------------------------------
  // The flat alias map of the propagator.

  /** A `T x = init;` the alias-map builder reaches binds `x` to the root of `init`, a
      state variable: through blocks, both branches of an `if`, loop bodies, and a `for`'s
      initialiser and body. */
  predicate Binds(s: Stmt, x: string, stateVars: set<string>) {
    match s
    case VarDef(local, init) =>
      && local == Some(x) && init.Some?
      && ExtractBaseVariable(init.value).Some? && ExtractBaseVariable(init.value).value in stateVars
    case Block(_, stmts) => exists i :: 0 <= i < |stmts| && Binds(stmts[i], x, stateVars)
    case If(_, thenS, elseS) => Binds(thenS, x, stateVars) || (elseS.Some? && Binds(elseS.value, x, stateVars))
    case While(_, body) => Binds(body, x, stateVars)
    case DoWhile(body, _) => Binds(body, x, stateVars)
    case For(init, _, _, body) =>
      (init.Some? && Binds(init.value, x, stateVars)) || (body.Some? && Binds(body.value, x, stateVars))
    case _ => false
  }

  /** The map holds exactly the names it held before and the names bound in the
      statement; a name the statement does not bind keeps its target. */
  lemma {:induction false} StorageMappingSpec(s: Stmt, stateVars: set<string>, m: map<string, string>)
    ensures forall x :: x in StorageMapping(s, stateVars, m) <==> x in m || Binds(s, x, stateVars)
    ensures forall x :: x in m && !Binds(s, x, stateVars) ==> StorageMapping(s, stateVars, m)[x] == m[x]
  {
    match s
    case VarDef(local, init) =>
    case Block(_, stmts) => StorageMappingSeqSpec(stmts, stateVars, m);
    case If(_, thenS, elseS) =>
      StorageMappingSpec(thenS, stateVars, m);
      if elseS.Some? {
        StorageMappingSpec(elseS.value, stateVars, StorageMapping(thenS, stateVars, m));
      }
    case While(_, body) => StorageMappingSpec(body, stateVars, m);
    case DoWhile(body, _) => StorageMappingSpec(body, stateVars, m);
    case For(init, _, _, body) =>
      var m1 := (match init case Some(i) => StorageMapping(i, stateVars, m) case None => m);
      if init.Some? {
        StorageMappingSpec(init.value, stateVars, m);
      }
      if body.Some? {
        StorageMappingSpec(body.value, stateVars, m1);
      }
    case _ =>
  }

  lemma {:induction false} StorageMappingSeqSpec(ss: seq<Stmt>, stateVars: set<string>, m: map<string, string>)
    ensures forall x :: x in StorageMappingSeq(ss, stateVars, m) <==>
              x in m || exists i :: 0 <= i < |ss| && Binds(ss[i], x, stateVars)
    ensures forall x :: x in m && (forall i :: 0 <= i < |ss| ==> !Binds(ss[i], x, stateVars)) ==>
              StorageMappingSeq(ss, stateVars, m)[x] == m[x]
  {
    if |ss| > 0 {
      StorageMappingSpec(ss[0], stateVars, m);
      StorageMappingSeqSpec(ss[1..], stateVars, StorageMapping(ss[0], stateVars, m));
      assert forall i :: 0 < i < |ss| ==> ss[i] == ss[1..][i - 1];
      forall x | exists i :: 0 <= i < |ss| && Binds(ss[i], x, stateVars)
        ensures (exists i :: 0 <= i < |ss[1..]| && Binds(ss[1..][i], x, stateVars)) || Binds(ss[0], x, stateVars)
      {
        var i :| 0 <= i < |ss| && Binds(ss[i], x, stateVars);
        if i > 0 {
          assert Binds(ss[1..][i - 1], x, stateVars);
        }
      }
    }
  }

  /** `T storage x = sv...;` in a block binds `x` to `sv` when no later statement of the
      block binds `x` again: the last binding wins. */
  lemma {:induction false} StorageBindingLastWins(ss: seq<Stmt>, stateVars: set<string>, m: map<string, string>,
                                                  i: nat, x: string, init: Expr)
    requires i < |ss| && ss[i] == VarDef(Some(x), Some(init))
    requires ExtractBaseVariable(init).Some? && ExtractBaseVariable(init).value in stateVars
    requires forall j :: i < j < |ss| ==> !Binds(ss[j], x, stateVars)
    ensures x in StorageMappingSeq(ss, stateVars, m)
    ensures StorageMappingSeq(ss, stateVars, m)[x] == ExtractBaseVariable(init).value
  {
    var m1 := StorageMapping(ss[0], stateVars, m);
    if i == 0 {
      assert m1 == m[x := ExtractBaseVariable(init).value];
      StorageMappingSeqSpec(ss[1..], stateVars, m1);
      assert forall j :: 0 <= j < |ss[1..]| ==> ss[1..][j] == ss[j + 1];
    } else {
      assert forall j :: i - 1 < j < |ss[1..]| ==> ss[1..][j] == ss[j + 1];
      StorageBindingLastWins(ss[1..], stateVars, m1, i - 1, x, init);
    }
  }

  // ---------------------------------------------------------------------------
  // The per-function facts together.

  /** A function with a body gets every write, field write, call, event and error the
      walkers are guaranteed to find in it; its calls, events and errors are exactly
      those. */
  lemma AnalyzedFunctionComplete(f: FunctionInfo, defs: map<string, FunctionDefinition>, stateVars: set<string>,
                                 events: set<string>)
    requires f.name in defs && defs[f.name].fnBody.Some?
    ensures var r := Analyze.AnalyzeFunction(f, defs, stateVars, events);
            var b := defs[f.name].fnBody.value;
            && (forall t :: (StmtTarget(b, t, CoarseMutators) && StateRooted(t, stateVars) &&
                             ExtractBaseVariable(t).value !in ParamNames(r.storageParams)) ==>
                  ExtractBaseVariable(t).value in r.modifiesStates)
            && (forall t :: StmtTarget(b, t, FieldMutators) && DirectField(t, stateVars, ParamNames(r.storageParams)).Some? ==>
                  DirectField(t, stateVars, ParamNames(r.storageParams)).value in r.modifiesStateFields)
            && (forall n :: n in r.callsFunctions <==> StmtCallsIn(b, n))
            && (forall n :: n in r.emitsEvents <==> n in events && Emits(b, n))
            && (forall n :: n in r.usesErrors <==> RevertsWith(b, n))
  {
    var b := defs[f.name].fnBody.value;
    var sps := ExtractStorageParams(defs[f.name].params);
    forall t | StmtTarget(b, t, CoarseMutators) && StateRooted(t, stateVars) && ExtractBaseVariable(t).value !in ParamNames(sps)
      ensures ExtractBaseVariable(t).value in FindStateModifications(Some(b), stateVars, sps)
    {
      StateWriteRecorded(b, stateVars, sps, t);
    }
    forall t | StmtTarget(b, t, FieldMutators) && DirectField(t, stateVars, ParamNames(sps)).Some?
      ensures DirectField(t, stateVars, ParamNames(sps)).value in FindFieldModifications(Some(b), stateVars, sps)
    {
      FieldWriteRecorded(b, stateVars, sps, t);
    }
    FunctionCallsExact(Some(b));
    EventEmissionsExact(Some(b), events);
    ErrorUsageExact(Some(b));
  }
}
