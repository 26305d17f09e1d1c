/** Per-function extraction (src/analyzer.rs): the state variables a body writes, the
    field paths it writes, the functions it calls, the events it emits, the errors it
    reverts with, whether it has an `unchecked` block, and its storage parameters.

    Each walker mirrors the arms of its Rust counterpart exactly; a node shape the
    counterpart does not match contributes nothing. Results that the analyzer keeps in a
    `HashSet` are lists without duplicates in discovery order. */
module Extract {
  import opened Wrappers
  import opened Strings
  import opened Ast
  import opened Paths
  import opened Collections
  import opened Records

  /** Member calls that the coarse walker treats as writing their receiver. */
  const CoarseMutators: set<string> := {"push", "pop", "delete"}

  /** Member calls that the field-level walker treats as writing their receiver. */
  const FieldMutators: set<string> := {"push", "pop", "add", "remove", "delete"}

  /** Name of a namespaced-storage accessor (`_getERC20Storage`, say). */
  predicate IsStorageAccessor(f: string) {
    Contains(f, "get") && Contains(f, "Storage")
  }

  /** Alias bookkeeping for `T x = init;`: a call to a storage accessor binds `x` to the
      storage-struct marker; any other call binds nothing; otherwise `x` is bound to the
      root of `init` when that root is a state variable. */
  function BindAlias(local: Option<string>, init: Expr, stateVars: set<string>,
                     aliases: map<string, string>): (r: map<string, string>)
    ensures AliasesWellFormed(aliases, stateVars) ==> AliasesWellFormed(r, stateVars)
    ensures local.None? ==> r == aliases
    ensures local.Some? ==> r.Keys <= aliases.Keys + {local.value}
    ensures forall k :: k in aliases && (local.None? || k != local.value) ==> k in r && r[k] == aliases[k]
    ensures (local.Some? && init.Call? && init.callee.Var? && IsStorageAccessor(init.callee.name))
              ==> local.value in r && r[local.value] == StorageStructMarker
    ensures (local.Some? && !init.Call? && ExtractBaseVariable(init).Some?
             && ExtractBaseVariable(init).value in stateVars)
              ==> local.value in r && r[local.value] == ExtractBaseVariable(init).value
  {
    match local
    case None => aliases
    case Some(x) =>
      if init.Call? then
        if init.callee.Var? && IsStorageAccessor(init.callee.name) then aliases[x := StorageStructMarker]
        else aliases
      else
        match ExtractBaseVariable(init)
        case Some(b) => if b in stateVars then aliases[x := b] else aliases
        case None => aliases
  }

  // ---------------------------------------------------------------------------
  // Coarse walker: which state variables a body writes.

  /** Record the resolved root of `target`, if it resolves. */
  function MarkResolved(acc: seq<string>, target: Expr, stateVars: set<string>,
                        aliases: map<string, string>): (r: seq<string>)
    ensures acc <= r
    ensures forall x :: x in r ==> x in acc || x in stateVars || x in aliases.Values
    ensures NoDups(acc) ==> NoDups(r)
  {
    match ExtractBaseVariable(target)
    case None => acc
    case Some(n) =>
      match ResolveToStateVar(n, stateVars, aliases)
      case None => acc
      case Some(t) => Insert(acc, t)
  }

  /** Writes found in an expression: the target of any assignment, increment, decrement
      or `delete`, and the receiver of `push`/`pop`/`delete` calls; the walker descends
      only into assignment right-hand sides and call arguments. */
  function ExprMods(e: Expr, stateVars: set<string>, aliases: map<string, string>, acc: seq<string>)
    : (r: seq<string>)
    ensures acc <= r
    ensures forall x :: x in r ==> x in acc || x in stateVars || x in aliases.Values
    ensures NoDups(acc) ==> NoDups(r)
  {
    match e
    case Assign(_, lhs, rhs) => ExprMods(rhs, stateVars, aliases, MarkResolved(acc, lhs, stateVars, aliases))
    case IncDec(_, x) => MarkResolved(acc, x, stateVars, aliases)
    case Delete(x) => MarkResolved(acc, x, stateVars, aliases)
    case Call(callee, args) =>
      var acc1 := if callee.Member? && callee.member in CoarseMutators
                  then MarkResolved(acc, callee.base, stateVars, aliases) else acc;
      ExprModsSeq(args, stateVars, aliases, acc1)
    case _ => acc
  }

  function ExprModsSeq(es: seq<Expr>, stateVars: set<string>, aliases: map<string, string>, acc: seq<string>)
    : (r: seq<string>)
    ensures acc <= r
    ensures forall x :: x in r ==> x in acc || x in stateVars || x in aliases.Values
    ensures NoDups(acc) ==> NoDups(r)
  {
    if |es| == 0 then acc
    else ExprModsSeq(es[1..], stateVars, aliases, ExprMods(es[0], stateVars, aliases, acc))
  }

  /** The coarse walker's state: writes found so far and the aliases of the current scope. */
  datatype ScanState = ScanState(modified: seq<string>, aliases: map<string, string>)

  /** Writes found so far name only state variables, the marker, or what `prior` held. */
  predicate ModsWithin(modified: seq<string>, prior: seq<string>, stateVars: set<string>) {
    forall x :: x in modified ==> x in prior || x in stateVars || x == StorageStructMarker
  }

  /** The aliases a block leaves behind in its parent scope: every entry of the parent,
      plus the block's new entries that point at a state variable. */
  function MergeScope(parent: map<string, string>, local: map<string, string>, stateVars: set<string>)
    : (r: map<string, string>)
    ensures forall k :: k in parent ==> k in r && r[k] == parent[k]
    ensures forall k :: k in r && k !in parent ==> k in local && r[k] == local[k] && r[k] in stateVars
    ensures forall k :: k in local && k !in parent && local[k] in stateVars ==> k in r
  {
    map k | k in parent.Keys + (set j | j in local && local[j] in stateVars) ::
      if k in parent then parent[k] else local[k]
  }

  /** The coarse statement walker. A block scans its statements with a copy of the
      parent's aliases and merges back only new aliases of state variables; every other
      statement updates the aliases of the scope it is in. */
  function StmtMods(s: Stmt, stateVars: set<string>, st: ScanState): (r: ScanState)
    requires AliasesWellFormed(st.aliases, stateVars)
    ensures AliasesWellFormed(r.aliases, stateVars)
    ensures st.modified <= r.modified
    ensures ModsWithin(r.modified, st.modified, stateVars)
    ensures NoDups(st.modified) ==> NoDups(r.modified)
  {
    match s
    case ExprStmt(e) => ScanState(ExprMods(e, stateVars, st.aliases, st.modified), st.aliases)
    case Block(_, stmts) =>
      var inner := StmtsMods(stmts, stateVars, st);
      ScanState(inner.modified, MergeScope(st.aliases, inner.aliases, stateVars))
    case If(_, thenS, elseS) =>
      var r1 := StmtMods(thenS, stateVars, st);
      (match elseS
       case Some(e) => StmtMods(e, stateVars, r1)
       case None => r1)
    case While(_, body) => StmtMods(body, stateVars, st)
    case DoWhile(body, _) => StmtMods(body, stateVars, st)
    case For(init, _, update, body) =>
      var r1 := (match init case Some(i) => StmtMods(i, stateVars, st) case None => st);
      var r2 := (match update
                 case Some(u) => ScanState(ExprMods(u, stateVars, r1.aliases, r1.modified), r1.aliases)
                 case None => r1);
      (match body case Some(b) => StmtMods(b, stateVars, r2) case None => r2)
    case Return(Some(e)) => ScanState(ExprMods(e, stateVars, st.aliases, st.modified), st.aliases)
    case VarDef(local, Some(init)) =>
      var al := BindAlias(local, init, stateVars, st.aliases);
      ScanState(ExprMods(init, stateVars, al, st.modified), al)
    case _ => st
  }

  function StmtsMods(ss: seq<Stmt>, stateVars: set<string>, st: ScanState): (r: ScanState)
    requires AliasesWellFormed(st.aliases, stateVars)
    ensures AliasesWellFormed(r.aliases, stateVars)
    ensures st.modified <= r.modified
    ensures ModsWithin(r.modified, st.modified, stateVars)
    ensures NoDups(st.modified) ==> NoDups(r.modified)
  {
    if |ss| == 0 then st
    else StmtsMods(ss[1..], stateVars, StmtMods(ss[0], stateVars, st))
  }

  /** After a block the parent keeps every alias it had, and gains only aliases it lacked
      whose target is a state variable: storage-struct aliases never escape a block. */
  lemma BlockScopeMerge(unchecked: bool, stmts: seq<Stmt>, stateVars: set<string>, st: ScanState)
    requires AliasesWellFormed(st.aliases, stateVars)
    ensures var r := StmtMods(Block(unchecked, stmts), stateVars, st);
            && (forall k :: k in st.aliases ==> k in r.aliases && r.aliases[k] == st.aliases[k])
            && (forall k :: k in r.aliases && k !in st.aliases ==> r.aliases[k] in stateVars)
  {
  }

  /** The names of a function's storage parameters. */
  function ParamNames(params: seq<StorageParam>): (r: set<string>)
    ensures forall i :: 0 <= i < |params| ==> params[i].paramName in r
    ensures forall n :: n in r ==> exists i :: 0 <= i < |params| && params[i].paramName == n
  {
    set i | 0 <= i < |params| :: params[i].paramName
  }

  /** State variables written by a function body, without the names of its storage
      parameters (those are resolved at call sites by the propagator). */
  function FindStateModifications(body: Option<Stmt>, stateVars: set<string>, storageParams: seq<StorageParam>)
    : (r: seq<string>)
    ensures forall x :: x in r ==> x !in ParamNames(storageParams)
    ensures forall x :: x in r ==> x in stateVars || x == StorageStructMarker
    ensures NoDups(r)
    ensures body.None? ==> r == []
  {
    match body
    case None => []
    case Some(b) =>
      var found := StmtMods(b, stateVars, ScanState([], map[])).modified;
      Without(found, ParamNames(storageParams))
  }

  // ---------------------------------------------------------------------------
  // Field-level walker: which storage paths a body writes.

  /** A recorded field path: rooted at the parameter marker, under the storage-struct
      marker, or rooted at a state variable. */
  predicate WellFormedField(f: string, stateVars: set<string>) {
    || RootedAt(f, ParamMarker)
    || StartsWith(f, StorageStructMarker + ".")
    || exists v :: v in stateVars && RootedAt(f, v)
  }

  /** The path recorded for a write to `target`, if any: the target's member path with
      its root replaced by "@param" for a storage parameter, by the resolved state
      variable for a state variable or alias, and by "@storage_struct" for a
      storage-struct alias. */
  function FieldWrite(target: Expr, stateVars: set<string>, params: set<string>,
                      aliases: map<string, string>): (r: Option<string>)
    requires AliasesWellFormed(aliases, stateVars)
    ensures r.Some? ==> IsAccessChain(target)
    ensures r.Some? ==> WellFormedField(r.value, stateVars)
    ensures IsAccessChain(target) && ExtractBaseVariable(target).value in params ==>
              r == Some(ParamMarker + ExtractMemberPath(target).value[|ExtractBaseVariable(target).value|..])
    ensures IsAccessChain(target) && ExtractBaseVariable(target).value !in params ==>
              (r.Some? <==> ResolveToStateVar(ExtractBaseVariable(target).value, stateVars, aliases).Some?)
    ensures IsAccessChain(target) ==>
              var base := ExtractBaseVariable(target).value;
              var full := ExtractMemberPath(target).value;
              var res := ResolveToStateVar(base, stateVars, aliases);
              base !in params && res.Some? ==>
                r == Some(if res.value == StorageStructMarker then StorageStructField(full)
                          else res.value + full[|base|..])
  {
    match ExtractMemberPath(target)
    case None => None
    case Some(full) =>
      var base := ExtractBaseVariable(target).value;
      PathRootAgree(target);
      if base in params then
        ReplaceFirstAtPrefix(full, base, ParamMarker);
        Some(ReplaceFirst(full, base, ParamMarker))
      else
        match ResolveToStateVar(base, stateVars, aliases)
        case None => None
        case Some(t) =>
          if t == StorageStructMarker then
            Some(StorageStructField(full))
          else
            ReplaceFirstAtPrefix(full, base, t);
            assert RootedAt(t + full[|base|..], t);
            Some(ReplaceFirst(full, base, t))
  }

  /** "@storage_struct" followed by the path from its first '.', or "@storage_struct."
      followed by the whole path when it has none. */
  function StorageStructField(full: string): (r: string)
    ensures StartsWith(r, StorageStructMarker + ".")
    ensures '.' !in full ==> r == StorageStructMarker + "." + full
    ensures forall i :: 0 <= i < |full| && full[i] == '.' && '.' !in full[..i] ==> r == StorageStructMarker + full[i..]
  {
    match FindFirst(full, ".")
    case Some(i) =>
      assert full[i..][0] == '.';
      FirstDotUnique(full, i);
      StorageStructMarker + full[i..]
    case None =>
      NoDotFound(full);
      StorageStructMarker + "." + full
  }

  /** The position `FindFirst` reports for "." is the only first '.'. */
  lemma FirstDotUnique(full: string, i: nat)
    requires FindFirst(full, ".") == Some(i)
    ensures i < |full| && full[i] == '.' && '.' !in full[..i]
    ensures forall j :: 0 <= j < |full| && full[j] == '.' && '.' !in full[..j] ==> j == i
  {
    DotOccurs(full);
  }

  /** When `FindFirst` finds no ".", the string has no '.'. */
  lemma NoDotFound(full: string)
    requires FindFirst(full, ".").None?
    ensures '.' !in full
  {
    DotOccurs(full);
  }

  /** The occurrences of "." are the positions of '.'. */
  lemma DotOccurs(full: string)
    ensures forall j :: 0 <= j < |full| ==> (full[j] == '.' <==> OccursAt(full, ".", j))
  {
    forall j | 0 <= j < |full| ensures full[j] == '.' <==> OccursAt(full, ".", j) {
      assert full[j..j + 1] == [full[j]];
    }
  }

  function RecordField(acc: seq<string>, target: Expr, stateVars: set<string>, params: set<string>,
                       aliases: map<string, string>): (r: seq<string>)
    requires AliasesWellFormed(aliases, stateVars)
    ensures acc <= r
    ensures forall f :: f in r ==> f in acc || WellFormedField(f, stateVars)
    ensures NoDups(acc) ==> NoDups(r)
  {
    match FieldWrite(target, stateVars, params, aliases)
    case Some(f) => Insert(acc, f)
    case None => acc
  }

  /** Field writes found in an expression; same shapes as the coarse walker, but the
      mutating members also include `add` and `remove`. */
  function ExprFields(e: Expr, stateVars: set<string>, params: set<string>,
                      aliases: map<string, string>, acc: seq<string>): (r: seq<string>)
    requires AliasesWellFormed(aliases, stateVars)
    ensures acc <= r
    ensures forall f :: f in r ==> f in acc || WellFormedField(f, stateVars)
    ensures NoDups(acc) ==> NoDups(r)
  {
    match e
    case Assign(_, lhs, rhs) =>
      ExprFields(rhs, stateVars, params, aliases, RecordField(acc, lhs, stateVars, params, aliases))
    case IncDec(_, x) => RecordField(acc, x, stateVars, params, aliases)
    case Delete(x) => RecordField(acc, x, stateVars, params, aliases)
    case Call(callee, args) =>
      var acc1 := if callee.Member? && callee.member in FieldMutators
                  then RecordField(acc, callee.base, stateVars, params, aliases) else acc;
      ExprFieldsSeq(args, stateVars, params, aliases, acc1)
    case _ => acc
  }

  function ExprFieldsSeq(es: seq<Expr>, stateVars: set<string>, params: set<string>,
                         aliases: map<string, string>, acc: seq<string>): (r: seq<string>)
    requires AliasesWellFormed(aliases, stateVars)
    ensures acc <= r
    ensures forall f :: f in r ==> f in acc || WellFormedField(f, stateVars)
    ensures NoDups(acc) ==> NoDups(r)
  {
    if |es| == 0 then acc
    else ExprFieldsSeq(es[1..], stateVars, params, aliases, ExprFields(es[0], stateVars, params, aliases, acc))
  }

  /** The field-level walker's state: paths found so far and the single alias map. */
  datatype FieldState = FieldState(fields: seq<string>, aliases: map<string, string>)

  predicate FieldsWithin(fields: seq<string>, prior: seq<string>, stateVars: set<string>) {
    forall f :: f in fields ==> f in prior || WellFormedField(f, stateVars)
  }

  /** The field-level statement walker. Unlike the coarse walker it keeps one alias map
      for the whole body: a block does not open a scope. */
  function StmtFields(s: Stmt, stateVars: set<string>, params: set<string>, st: FieldState)
    : (r: FieldState)
    requires AliasesWellFormed(st.aliases, stateVars)
    ensures AliasesWellFormed(r.aliases, stateVars)
    ensures st.fields <= r.fields
    ensures FieldsWithin(r.fields, st.fields, stateVars)
    ensures NoDups(st.fields) ==> NoDups(r.fields)
  {
    match s
    case ExprStmt(e) => FieldState(ExprFields(e, stateVars, params, st.aliases, st.fields), st.aliases)
    case Block(_, stmts) => StmtsFields(stmts, stateVars, params, st)
    case If(_, thenS, elseS) =>
      var r1 := StmtFields(thenS, stateVars, params, st);
      (match elseS
       case Some(e) => StmtFields(e, stateVars, params, r1)
       case None => r1)
    case While(_, body) => StmtFields(body, stateVars, params, st)
    case DoWhile(body, _) => StmtFields(body, stateVars, params, st)
    case For(init, _, update, body) =>
      var r1 := (match init case Some(i) => StmtFields(i, stateVars, params, st) case None => st);
      var r2 := (match update
                 case Some(u) => FieldState(ExprFields(u, stateVars, params, r1.aliases, r1.fields), r1.aliases)
                 case None => r1);
      (match body case Some(b) => StmtFields(b, stateVars, params, r2) case None => r2)
    case Return(Some(e)) => FieldState(ExprFields(e, stateVars, params, st.aliases, st.fields), st.aliases)
    case VarDef(local, Some(init)) =>
      var al := BindAlias(local, init, stateVars, st.aliases);
      FieldState(ExprFields(init, stateVars, params, al, st.fields), al)
    case _ => st
  }

  function StmtsFields(ss: seq<Stmt>, stateVars: set<string>, params: set<string>, st: FieldState)
    : (r: FieldState)
    requires AliasesWellFormed(st.aliases, stateVars)
    ensures AliasesWellFormed(r.aliases, stateVars)
    ensures st.fields <= r.fields
    ensures FieldsWithin(r.fields, st.fields, stateVars)
    ensures NoDups(st.fields) ==> NoDups(r.fields)
  {
    if |ss| == 0 then st
    else StmtsFields(ss[1..], stateVars, params, StmtFields(ss[0], stateVars, params, st))
  }

  /** Field paths written by a function body. */
  function FindFieldModifications(body: Option<Stmt>, stateVars: set<string>, storageParams: seq<StorageParam>)
    : (r: seq<string>)
    ensures forall f :: f in r ==> WellFormedField(f, stateVars)
    ensures NoDups(r)
  {
    match body
    case None => []
    case Some(b) => StmtFields(b, stateVars, ParamNames(storageParams), FieldState([], map[])).fields
  }

  // ---------------------------------------------------------------------------
  // Internal calls, events, errors, unchecked blocks, storage parameters.

  /** Names called directly (`f(...)`), found in call arguments and member-access bases. */
  function ExprCalls(e: Expr, acc: seq<string>): (r: seq<string>)
    ensures acc <= r
    ensures NoDups(acc) ==> NoDups(r)
  {
    match e
    case Call(callee, args) =>
      var acc1 := if callee.Var? then Insert(acc, callee.name) else acc;
      ExprCallsSeq(args, acc1)
    case Member(b, _) => ExprCalls(b, acc)
    case _ => acc
  }

  function ExprCallsSeq(es: seq<Expr>, acc: seq<string>): (r: seq<string>)
    ensures acc <= r
    ensures NoDups(acc) ==> NoDups(r)
  {
    if |es| == 0 then acc else ExprCallsSeq(es[1..], ExprCalls(es[0], acc))
  }

  function OptExprCalls(e: Option<Expr>, acc: seq<string>): (r: seq<string>)
    ensures acc <= r
    ensures NoDups(acc) ==> NoDups(r)
  {
    match e case Some(x) => ExprCalls(x, acc) case None => acc
  }

  /** The call walker: expression statements, blocks, `if` (condition and branches),
      `while` (condition and body), `for` (all four parts) and `return`. It has no arm
      for `do … while` or variable definitions. */
  function StmtCalls(s: Stmt, acc: seq<string>): (r: seq<string>)
    ensures acc <= r
    ensures NoDups(acc) ==> NoDups(r)
  {
    match s
    case ExprStmt(e) => ExprCalls(e, acc)
    case Block(_, stmts) => StmtsCalls(stmts, acc)
    case If(c, thenS, elseS) =>
      var a1 := StmtCalls(thenS, ExprCalls(c, acc));
      (match elseS case Some(e) => StmtCalls(e, a1) case None => a1)
    case While(c, body) => StmtCalls(body, ExprCalls(c, acc))
    case For(init, c, update, body) =>
      var a1 := (match init case Some(i) => StmtCalls(i, acc) case None => acc);
      var a2 := OptExprCalls(update, OptExprCalls(c, a1));
      (match body case Some(b) => StmtCalls(b, a2) case None => a2)
    case Return(Some(e)) => ExprCalls(e, acc)
    case _ => acc
  }

  function StmtsCalls(ss: seq<Stmt>, acc: seq<string>): (r: seq<string>)
    ensures acc <= r
    ensures NoDups(acc) ==> NoDups(r)
  {
    if |ss| == 0 then acc else StmtsCalls(ss[1..], StmtCalls(ss[0], acc))
  }

  /** Functions called from a body. */
  function FindFunctionCalls(body: Option<Stmt>): (r: seq<string>)
    ensures NoDups(r)
  {
    match body case Some(b) => StmtCalls(b, []) case None => []
  }

  /** Declared events emitted by `emit E(...)` statements, through blocks, branches,
      loop bodies and `for` initialisers. */
  function StmtEvents(s: Stmt, events: set<string>, acc: seq<string>): (r: seq<string>)
    ensures acc <= r
    ensures forall x :: x in r ==> x in acc || x in events
    ensures NoDups(acc) ==> NoDups(r)
  {
    match s
    case Emit(Call(Var(n), _)) => if n in events then Insert(acc, n) else acc
    case Block(_, stmts) => StmtsEvents(stmts, events, acc)
    case If(_, thenS, elseS) =>
      var a1 := StmtEvents(thenS, events, acc);
      (match elseS case Some(e) => StmtEvents(e, events, a1) case None => a1)
    case While(_, body) => StmtEvents(body, events, acc)
    case DoWhile(body, _) => StmtEvents(body, events, acc)
    case For(init, _, _, body) =>
      var a1 := (match init case Some(i) => StmtEvents(i, events, acc) case None => acc);
      (match body case Some(b) => StmtEvents(b, events, a1) case None => a1)
    case _ => acc
  }

  function StmtsEvents(ss: seq<Stmt>, events: set<string>, acc: seq<string>): (r: seq<string>)
    ensures acc <= r
    ensures forall x :: x in r ==> x in acc || x in events
    ensures NoDups(acc) ==> NoDups(r)
  {
    if |ss| == 0 then acc else StmtsEvents(ss[1..], events, StmtEvents(ss[0], events, acc))
  }

  /** Events a body emits; only declared events are kept. */
  function FindEventEmissions(body: Option<Stmt>, events: set<string>): (r: seq<string>)
    ensures forall x :: x in r ==> x in events
    ensures NoDups(r)
  {
    match body case Some(b) => StmtEvents(b, events, []) case None => []
  }

  /** The name of a custom error: its identifier path joined with '.'. */
  function ErrorName(path: seq<string>): string {
    Join(path, ".")
  }

  /** Custom errors named by `revert E(...)` statements, through blocks, branches, loop
      bodies and `for` initialisers; expressions are never inspected. */
  function StmtErrors(s: Stmt, acc: seq<string>): (r: seq<string>)
    ensures acc <= r
    ensures NoDups(acc) ==> NoDups(r)
  {
    match s
    case Revert(Some(path), _) => Insert(acc, ErrorName(path))
    case Block(_, stmts) => StmtsErrors(stmts, acc)
    case If(_, thenS, elseS) =>
      var a1 := StmtErrors(thenS, acc);
      (match elseS case Some(e) => StmtErrors(e, a1) case None => a1)
    case While(_, body) => StmtErrors(body, acc)
    case DoWhile(body, _) => StmtErrors(body, acc)
    case For(init, _, _, body) =>
      var a1 := (match init case Some(i) => StmtErrors(i, acc) case None => acc);
      (match body case Some(b) => StmtErrors(b, a1) case None => a1)
    case _ => acc
  }

  function StmtsErrors(ss: seq<Stmt>, acc: seq<string>): (r: seq<string>)
    ensures acc <= r
    ensures NoDups(acc) ==> NoDups(r)
  {
    if |ss| == 0 then acc else StmtsErrors(ss[1..], StmtErrors(ss[0], acc))
  }

  /** Errors a body reverts with, declared in this contract or not. */
  function FindErrorUsage(body: Option<Stmt>): (r: seq<string>)
    ensures NoDups(r)
  {
    match body case Some(b) => StmtErrors(b, []) case None => []
  }

  /** The error name keeps the identifier path: splitting it on '.' gives the path back. */
  lemma ErrorNameRoundTrip(path: seq<string>)
    requires |path| > 0
    requires forall i :: 0 <= i < |path| ==> '.' !in path[i]
    ensures Split(ErrorName(path), '.') == path
  {
    JoinSplitRoundTrip(path, '.');
  }

  /** Whether an `unchecked` block occurs, through blocks, branches, loop bodies and the
      body of a `for`. */
  function HasUnchecked(s: Stmt): (r: bool)
    ensures s.Block? && s.unchecked ==> r
    ensures s.Block? && !s.unchecked ==> (r <==> exists i :: 0 <= i < |s.stmts| && HasUnchecked(s.stmts[i]))
    ensures s.If? ==> (r <==> HasUnchecked(s.thenS) || (s.elseS.Some? && HasUnchecked(s.elseS.value)))
    ensures s.While? ==> (r <==> HasUnchecked(s.body))
    ensures s.DoWhile? ==> (r <==> HasUnchecked(s.doBody))
    ensures s.For? ==> (r <==> s.forBody.Some? && HasUnchecked(s.forBody.value))
    ensures !(s.Block? || s.If? || s.While? || s.DoWhile? || s.For?) ==> !r
  {
    match s
    case Block(u, stmts) => u || AnyUnchecked(stmts)
    case If(_, thenS, elseS) =>
      HasUnchecked(thenS) || (match elseS case Some(e) => HasUnchecked(e) case None => false)
    case While(_, body) => HasUnchecked(body)
    case DoWhile(body, _) => HasUnchecked(body)
    case For(_, _, _, Some(body)) => HasUnchecked(body)
    case _ => false
  }

  function AnyUnchecked(ss: seq<Stmt>): (r: bool)
    ensures r <==> exists i :: 0 <= i < |ss| && HasUnchecked(ss[i])
  {
    if |ss| == 0 then false
    else
      assert forall i :: 0 < i < |ss| ==> ss[i] == ss[1..][i - 1];
      HasUnchecked(ss[0]) || AnyUnchecked(ss[1..])
  }

  /** Whether a function body has an `unchecked` block anywhere the walker looks. */
  function HasUncheckedBlocks(body: Option<Stmt>): (r: bool)
    ensures body.None? ==> !r
  {
    match body case Some(b) => HasUnchecked(b) case None => false
  }

  /** Parameters declared `storage` and named, with their positions. */
  function ExtractStorageParams(params: seq<Option<Param>>): (r: seq<StorageParam>)
    ensures forall k :: 0 <= k < |r| ==> IsStorageParamAt(params, r[k].paramIndex, r[k].paramName)
    ensures forall i, n :: IsStorageParamAt(params, i, n) ==> StorageParam(i, n) in r
    ensures forall k, l :: 0 <= k < l < |r| ==> r[k].paramIndex < r[l].paramIndex
  {
    StorageParamsFrom(params, 0)
  }

  /** Position `i` holds a named parameter with the `storage` location called `n`. */
  predicate IsStorageParamAt(params: seq<Option<Param>>, i: nat, n: string) {
    && i < |params|
    && params[i].Some?
    && params[i].value.storage == Some(Storage)
    && params[i].value.paramName == Some(n)
  }

  function StorageParamsFrom(params: seq<Option<Param>>, from: nat): (r: seq<StorageParam>)
    requires from <= |params|
    ensures forall k :: 0 <= k < |r| ==> from <= r[k].paramIndex && IsStorageParamAt(params, r[k].paramIndex, r[k].paramName)
    ensures forall i, n :: from <= i && IsStorageParamAt(params, i, n) ==> StorageParam(i, n) in r
    ensures forall k, l :: 0 <= k < l < |r| ==> r[k].paramIndex < r[l].paramIndex
    decreases |params| - from
  {
    if from == |params| then []
    else
      var rest := StorageParamsFrom(params, from + 1);
      var p := params[from];
      if p.Some? && p.value.storage == Some(Storage) && p.value.paramName.Some? then
        [StorageParam(from, p.value.paramName.value)] + rest
      else rest
  }
}
