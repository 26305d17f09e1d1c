/** Calls from one contract into another through a state variable of contract or
    interface type: `token.transfer(...)` where `token` is declared `IERC20 token`
    (src/analyzer.rs). */
module ExternalCalls {
  import opened Wrappers
  import opened Strings
  import opened Ast
  import opened Collections
  import opened Records

  /** The type text of a state variable's declared type: an elementary type by name, a
      user-defined type by its identifier, anything else "unknown". */
  function ExtractTypeName(ty: Expr): (r: string)
    ensures ty.Var? ==> r == ty.name
    ensures !ty.Var? && !ty.TypeExpr? ==> r == "unknown"
  {
    match ty
    case TypeExpr(t) => TypeExprToString(t)
    case Var(n) => n
    case _ => "unknown"
  }

  function TypeExprToString(t: TypeName): (r: string)
    ensures t.Uint? ==> r == "uint" + NatToString(t.bits)
    ensures t.Int? ==> r == "int" + NatToString(t.bits)
    ensures t.Bytes? ==> r == "bytes" + NatToString(t.width)
    ensures t.AddressPayable? || t.Mapping? || t.DynamicBytes? || t.OtherType? ==> r == "unknown"
  {
    match t
    case Address => "address"
    case Bool => "bool"
    case StringType => "string"
    case Uint(n) => "uint" + NatToString(n)
    case Int(n) => "int" + NatToString(n)
    case Bytes(n) => "bytes" + NatToString(n)
    case _ => "unknown"
  }

  /** Part `i` declares a state variable `n`. */
  predicate DeclaresAt(parts: seq<ContractPart>, i: nat, n: string) {
    i < |parts| && parts[i].VariablePart? && parts[i].varName == Some(n)
  }

  /** State variable name to type text; a later declaration with the same name wins. */
  function VarTypes(parts: seq<ContractPart>): (r: map<string, string>)
    ensures forall n :: n in r <==> exists i: nat :: DeclaresAt(parts, i, n)
    ensures forall i: nat, n :: LastDeclaration(parts, i, n) ==> n in r && r[n] == ExtractTypeName(parts[i].varType)
  {
    if |parts| == 0 then map[]
    else
      var k := |parts| - 1;
      var init := parts[..k];
      var m := VarTypes(init);
      InitDeclares(parts, init);
      var last := parts[k];
      if last.VariablePart? && last.varName.Some? then
        var n0 := last.varName.value;
        var r := m[n0 := ExtractTypeName(last.varType)];
        assert DeclaresAt(parts, k, n0);
        forall i: nat, n | LastDeclaration(parts, i, n) ensures n in r && r[n] == ExtractTypeName(parts[i].varType) {
          if i < k {
            assert n != n0 by { assert !DeclaresAt(parts, k, n); }
            assert LastDeclaration(init, i, n);
          }
        }
        r
      else
        assert forall n :: !DeclaresAt(parts, k, n);
        forall i: nat, n | LastDeclaration(parts, i, n) ensures n in m && m[n] == ExtractTypeName(parts[i].varType) {
          assert LastDeclaration(init, i, n);
        }
        m
  }

  /** Part `i` is the last declaration of `n`. */
  predicate LastDeclaration(parts: seq<ContractPart>, i: nat, n: string) {
    DeclaresAt(parts, i, n) && forall j: nat :: i < j < |parts| ==> !DeclaresAt(parts, j, n)
  }

  lemma InitDeclares(parts: seq<ContractPart>, init: seq<ContractPart>)
    requires |parts| > 0 && init == parts[..|parts| - 1]
    ensures forall i: nat, n :: i < |init| ==> (DeclaresAt(init, i, n) <==> DeclaresAt(parts, i, n))
    ensures forall i: nat, n :: DeclaresAt(init, i, n) ==> i < |init|
  {
  }

  /** Rust `char::is_uppercase`, restricted to ASCII. */
  predicate IsUpper(c: char) {
    'A' <= c <= 'Z'
  }

  /** An interface-style type name: `I` followed by an upper-case letter. */
  predicate InterfaceForm(t: string) {
    |t| > 1 && t[0] == 'I' && IsUpper(t[1])
  }

  /** The contract a type names: for an interface-style name, the contract named by the
      rest of it when there is one; otherwise the contract of exactly that name; else
      none. */
  function ResolveContractFromType(t: string, contracts: set<string>): (r: Option<string>)
    ensures r.Some? ==> r.value in contracts
    ensures r.Some? ==> r.value == t || (InterfaceForm(t) && r.value == t[1..])
    ensures InterfaceForm(t) && t[1..] in contracts ==> r == Some(t[1..])
    ensures r.None? <==> t !in contracts && !(InterfaceForm(t) && t[1..] in contracts)
  {
    if InterfaceForm(t) && t[1..] in contracts then Some(t[1..])
    else if t in contracts then Some(t)
    else None
  }

  /** An interface `IFoo` resolves to its implementation `Foo` when both exist. */
  lemma InterfaceResolvesToImplementation(name: string, contracts: set<string>)
    requires |name| > 0 && IsUpper(name[0])
    requires name in contracts
    ensures ResolveContractFromType("I" + name, contracts) == Some(name)
  {
    assert ("I" + name)[1..] == name;
  }

  /** Names of the known contracts. */
  function ContractNames(contracts: seq<ContractInfo>): (r: set<string>)
    ensures forall i :: 0 <= i < |contracts| ==> contracts[i].name in r
    ensures forall n :: n in r ==> exists i :: 0 <= i < |contracts| && contracts[i].name == n
  {
    set i | 0 <= i < |contracts| :: contracts[i].name
  }

  /** The first contract with the given name. */
  function FindContract(contracts: seq<ContractInfo>, name: string): (r: Option<nat>)
    ensures r.Some? ==> r.value < |contracts| && contracts[r.value].name == name
    ensures r.Some? ==> forall j :: 0 <= j < r.value ==> contracts[j].name != name
    ensures r.None? ==> forall j :: 0 <= j < |contracts| ==> contracts[j].name != name
  {
    if |contracts| == 0 then None
    else if contracts[0].name == name then Some(0)
    else match FindContract(contracts[1..], name)
      case Some(k) => Some(k + 1)
      case None => None
  }

  /** `c` is the first contract named `name`. */
  predicate FirstContractNamed(contracts: seq<ContractInfo>, name: string, c: int) {
    0 <= c < |contracts| && contracts[c].name == name && forall j :: 0 <= j < c ==> contracts[j].name != name
  }

  /** `f` is the first function named `name`. */
  predicate FirstFunctionNamed(fns: seq<FunctionInfo>, name: string, f: int) {
    0 <= f < |fns| && fns[f].name == name && forall j :: 0 <= j < f ==> fns[j].name != name
  }

  /** Mutability of the called function: that of the first function of that name in the
      first contract of the target's name, or "unknown". */
  function CalleeMutability(contracts: seq<ContractInfo>, target: Option<string>, fname: string): (r: string)
    ensures target.None? ==> r == "unknown"
    ensures r != "unknown" ==> exists c, f :: (0 <= c < |contracts| && 0 <= f < |contracts[c].functions|
              && contracts[c].functions[f].name == fname && contracts[c].functions[f].stateMutability == r)
    ensures target.Some? && (forall c :: 0 <= c < |contracts| ==> contracts[c].name != target.value) ==> r == "unknown"
    ensures forall c :: target.Some? && FirstContractNamed(contracts, target.value, c) ==>
              && (forall f :: FirstFunctionNamed(contracts[c].functions, fname, f) ==>
                    r == contracts[c].functions[f].stateMutability)
              && ((forall f :: 0 <= f < |contracts[c].functions| ==> contracts[c].functions[f].name != fname) ==>
                    r == "unknown")
  {
    match target
    case None => "unknown"
    case Some(t) =>
      match FindContract(contracts, t)
      case None => "unknown"
      case Some(c) =>
        match FindFunction(contracts[c].functions, fname)
        case None => "unknown"
        case Some(f) => contracts[c].functions[f].stateMutability
  }

  /** What the walkers know about the calling function. */
  datatype CallContext = CallContext(
    contractName: string,
    functionName: string,
    varTypes: map<string, string>,
    contracts: seq<ContractInfo>,
    line: nat)

  /** A recorded call: it comes from the calling function, goes through a state variable
      whose type is recorded with it, resolves its target from that type, and takes the
      caller's line. */
  predicate RecordedFrom(c: ExternalCall, ctx: CallContext) {
    && c.sourceContract == ctx.contractName
    && c.sourceFunction == ctx.functionName
    && c.targetVariable in ctx.varTypes
    && c.targetType == ctx.varTypes[c.targetVariable]
    && c.targetContract == ResolveContractFromType(c.targetType, ContractNames(ctx.contracts))
    && c.stateMutability == CalleeMutability(ctx.contracts, c.targetContract, c.targetFunction)
    && c.line == ctx.line
  }

  /** Calls added to `acc` are all recorded from the context. */
  predicate AddedFrom(acc: seq<ExternalCall>, r: seq<ExternalCall>, ctx: CallContext) {
    acc <= r && forall k :: |acc| <= k < |r| ==> RecordedFrom(r[k], ctx)
  }

  /** The call `v.f(...)`, when `v` is a typed state variable. */
  function CallThrough(v: string, f: string, ctx: CallContext): (r: Option<ExternalCall>)
    ensures r.Some? <==> v in ctx.varTypes
    ensures r.Some? ==> RecordedFrom(r.value, ctx) && r.value.targetVariable == v && r.value.targetFunction == f
  {
    if v !in ctx.varTypes then None
    else
      var t := ctx.varTypes[v];
      var target := ResolveContractFromType(t, ContractNames(ctx.contracts));
      Some(ExternalCall(ctx.contractName, ctx.functionName, v, t, f, target,
                        CalleeMutability(ctx.contracts, target, f), ctx.line))
  }

  /** Expression walker: a call whose callee is `v.f` records a call through `v`, then
      its arguments are searched; a member access searches its base. */
  function ExprExternal(e: Expr, ctx: CallContext, acc: seq<ExternalCall>): (r: seq<ExternalCall>)
    ensures AddedFrom(acc, r, ctx)
  {
    match e
    case Call(callee, args) =>
      var acc1 :=
        if callee.Member? && callee.base.Var? then
          (match CallThrough(callee.base.name, callee.member, ctx)
           case Some(c) => acc + [c]
           case None => acc)
        else acc;
      ExprsExternal(args, ctx, acc1)
    case Member(b, _) => ExprExternal(b, ctx, acc)
    case _ => acc
  }

  function ExprsExternal(es: seq<Expr>, ctx: CallContext, acc: seq<ExternalCall>): (r: seq<ExternalCall>)
    ensures AddedFrom(acc, r, ctx)
  {
    if |es| == 0 then acc else ExprsExternal(es[1..], ctx, ExprExternal(es[0], ctx, acc))
  }

  /** Statement walker: expression statements, blocks, both branches of an `if` (not its
      condition), loop bodies, and the initialiser and body of a `for`. */
  function StmtExternal(s: Stmt, ctx: CallContext, acc: seq<ExternalCall>): (r: seq<ExternalCall>)
    ensures AddedFrom(acc, r, ctx)
  {
    match s
    case ExprStmt(e) => ExprExternal(e, ctx, acc)
    case Block(_, stmts) => StmtsExternal(stmts, ctx, acc)
    case If(_, thenS, elseS) =>
      var a1 := StmtExternal(thenS, ctx, acc);
      (match elseS case Some(e) => StmtExternal(e, ctx, a1) case None => a1)
    case While(_, body) => StmtExternal(body, ctx, acc)
    case DoWhile(body, _) => StmtExternal(body, ctx, acc)
    case For(init, _, _, body) =>
      var a1 := (match init case Some(i) => StmtExternal(i, ctx, acc) case None => acc);
      (match body case Some(b) => StmtExternal(b, ctx, a1) case None => a1)
    case _ => acc
  }

  function StmtsExternal(ss: seq<Stmt>, ctx: CallContext, acc: seq<ExternalCall>): (r: seq<ExternalCall>)
    ensures AddedFrom(acc, r, ctx)
  {
    if |ss| == 0 then acc else StmtsExternal(ss[1..], ctx, StmtExternal(ss[0], ctx, acc))
  }

  /** A single external call statement is found and recorded. */
  lemma SingleCallRecorded(v: string, f: string, args: seq<Expr>, ctx: CallContext)
    requires v in ctx.varTypes
    requires forall i :: 0 <= i < |args| ==> args[i].NumberLit?
    ensures StmtExternal(ExprStmt(Call(Member(Var(v), f), args)), ctx, []) == [CallThrough(v, f, ctx).value]
  {
    var c := CallThrough(v, f, ctx).value;
    ArgsNoCalls(args, ctx, [c]);
    assert [] + [c] == [c];
    assert ExprExternal(Call(Member(Var(v), f), args), ctx, []) == ExprsExternal(args, ctx, [c]);
  }

  lemma {:induction false} ArgsNoCalls(args: seq<Expr>, ctx: CallContext, acc: seq<ExternalCall>)
    requires forall i :: 0 <= i < |args| ==> args[i].NumberLit?
    ensures ExprsExternal(args, ctx, acc) == acc
  {
    if |args| > 0 {
      ArgsNoCalls(args[1..], ctx, acc);
    }
  }

  /** The result of the detection: all calls in discovery order, and the contract with
      each function's own calls attached. */
  datatype Detection = Detection(contract: ContractInfo, calls: seq<ExternalCall>)

  /** Calls found in the bodies of `fns[from..]`, each under its function's name and line.
      A function whose name repeats is scanned once per occurrence. */
  function ScanFunctions(fns: seq<FunctionInfo>, from: nat, bodies: map<string, FunctionDefinition>,
                         contractName: string, varTypes: map<string, string>, contracts: seq<ContractInfo>,
                         acc: seq<ExternalCall>): (r: seq<ExternalCall>)
    requires from <= |fns|
    ensures acc <= r
    ensures forall k :: |acc| <= k < |r| ==> exists j :: (from <= j < |fns| &&
              RecordedFrom(r[k], CallContext(contractName, fns[j].name, varTypes, contracts, fns[j].line)))
    decreases |fns| - from
  {
    if from == |fns| then acc
    else
      var f := fns[from];
      var acc1 :=
        if f.name in bodies && bodies[f.name].fnBody.Some? then
          StmtExternal(bodies[f.name].fnBody.value, CallContext(contractName, f.name, varTypes, contracts, f.line), acc)
        else acc;
      var r := ScanFunctions(fns, from + 1, bodies, contractName, varTypes, contracts, acc1);
      forall k | |acc| <= k < |r| ensures exists j :: (from <= j < |fns| &&
          RecordedFrom(r[k], CallContext(contractName, fns[j].name, varTypes, contracts, fns[j].line))) {
        if k < |acc1| {
          assert RecordedFrom(r[k], CallContext(contractName, fns[from].name, varTypes, contracts, fns[from].line));
        }
      }
      r
  }

  /** The calls of a list whose source function is `name`, in order. */
  function CallsOf(calls: seq<ExternalCall>, name: string): (r: seq<ExternalCall>)
    ensures forall c :: c in r <==> c in calls && c.sourceFunction == name
    ensures |r| <= |calls|
  {
    if |calls| == 0 then []
    else if calls[0].sourceFunction == name then [calls[0]] + CallsOf(calls[1..], name)
    else CallsOf(calls[1..], name)
  }

  /** Detection for one contract: state-variable types from its declarations, function
      bodies by name (modifiers excluded), every function scanned in order. A function
      that makes calls gets exactly the calls recorded under its name; the others keep
      their list. */
  function DetectExternalCalls(info: ContractInfo, parts: seq<ContractPart>, contracts: seq<ContractInfo>)
    : (r: Detection)
    ensures forall k :: 0 <= k < |r.calls| ==> r.calls[k].sourceContract == info.name
    ensures |r.contract.functions| == |info.functions|
    ensures forall i :: 0 <= i < |info.functions| ==>
              && r.contract.functions[i] == info.functions[i].(externalCalls := r.contract.functions[i].externalCalls)
              && (CallsOf(r.calls, info.functions[i].name) != [] ==>
                    r.contract.functions[i].externalCalls == CallsOf(r.calls, info.functions[i].name))
              && (CallsOf(r.calls, info.functions[i].name) == [] ==>
                    r.contract.functions[i].externalCalls == info.functions[i].externalCalls)
    ensures r.contract == info.(functions := r.contract.functions)
  {
    var varTypes := VarTypes(parts);
    var bodies := DefinitionsByName(parts, false);
    var calls := ScanFunctions(info.functions, 0, bodies, info.name, varTypes, contracts, []);
    forall k | 0 <= k < |calls| ensures calls[k].sourceContract == info.name {
      var j :| 0 <= j < |info.functions| &&
        RecordedFrom(calls[k], CallContext(info.name, info.functions[j].name, varTypes, contracts, info.functions[j].line));
    }
    var fns := seq(|info.functions|, i requires 0 <= i < |info.functions| =>
      var own := CallsOf(calls, info.functions[i].name);
      if own != [] then info.functions[i].(externalCalls := own) else info.functions[i]);
    Detection(info.(functions := fns), calls)
  }
}
