/** Naming of the storage an expression refers to: the root variable of an access chain,
    the dotted path of the chain, and the resolution of a local name to a state variable
    through the alias map of storage references. */
module Paths {
  import opened Wrappers
  import opened Strings
  import opened Ast

  /** Target recorded for a local bound to a namespaced-storage accessor result. */
  const StorageStructMarker: string := "@storage_struct"

  /** Prefix that replaces the root of a path written through a storage parameter. */
  const ParamMarker: string := "@param"

  /** The variable at the root of a chain of member accesses and subscripts. The first
      ensures and the lemmas `ChainShape` and `ChainRoot` characterise the result; the
      per-constructor clauses only expose the recursion to callers that unfold one level. */
  function ExtractBaseVariable(e: Expr): (r: Option<string>)
    ensures r.Some? <==> IsAccessChain(e)
    ensures e.Var? ==> r == Some(e.name)
    ensures e.Member? ==> r == ExtractBaseVariable(e.base)
    ensures e.Index? ==> r == ExtractBaseVariable(e.indexed)
  {
    match e
    case Var(n) => Some(n)
    case Member(b, _) => ExtractBaseVariable(b)
    case Index(b, _) => ExtractBaseVariable(b)
    case _ => None
  }

  /** The dotted path of a chain of member accesses; subscripts are transparent. */
  function ExtractMemberPath(e: Expr): (r: Option<string>)
    ensures r.Some? <==> IsAccessChain(e)
    ensures r.Some? ==> RootedAt(r.value, ExtractBaseVariable(e).value)
  {
    match e
    case Var(n) => Some(n)
    case Member(b, m) =>
      (match ExtractMemberPath(b)
       case Some(p) =>
         var base := ExtractBaseVariable(b).value;
         assert (p + "." + m)[..|base|] == p[..|base|];
         assert |p| > |base| ==> (p + "." + m)[|base|] == p[|base|];
         Some(p + "." + m)
       case None => None)
    case Index(b, _) => ExtractMemberPath(b)
    case _ => None
  }

  /** A variable under any number of member accesses and subscripts. */
  predicate IsAccessChain(e: Expr) {
    match e
    case Var(_) => true
    case Member(b, _) => IsAccessChain(b)
    case Index(b, _) => IsAccessChain(b)
    case _ => false
  }

  /** `path` is `root` alone or `root` followed by a '.'-separated tail. */
  predicate RootedAt(path: string, root: string) {
    StartsWith(path, root) && (|path| == |root| || path[|root|] == '.')
  }

  /** Path and root agree: the path starts with the root variable, followed by nothing
      or by a '.', and when the root has no '.' of its own it is the path's first
      segment. */
  lemma PathRootAgree(e: Expr)
    ensures ExtractMemberPath(e).Some? <==> ExtractBaseVariable(e).Some?
    ensures ExtractMemberPath(e).Some? ==>
              RootedAt(ExtractMemberPath(e).value, ExtractBaseVariable(e).value)
    ensures ExtractMemberPath(e).Some? && '.' !in ExtractBaseVariable(e).value ==>
              BeforeChar(ExtractMemberPath(e).value, '.') == ExtractBaseVariable(e).value
  {
    if ExtractMemberPath(e).Some? && '.' !in ExtractBaseVariable(e).value {
      BeforeCharRooted(ExtractMemberPath(e).value, ExtractBaseVariable(e).value);
    }
  }

  /** A path rooted at a dot-free name has that name as its first segment. */
  lemma BeforeCharRooted(path: string, root: string)
    requires RootedAt(path, root) && '.' !in root
    ensures BeforeChar(path, '.') == root
  {
    if |path| == |root| {
      assert path == root;
      BeforeCharAbsent(root, '.');
    } else {
      assert path == root + ['.'] + path[|root| + 1..];
      BeforeCharAround(root, '.', path[|root| + 1..]);
    }
  }

  /** Resolution of a name: a state variable stands for itself; otherwise the alias map
      gives its target (possibly the storage-struct marker); otherwise nothing. */
  function ResolveToStateVar(name: string, stateVars: set<string>, aliases: map<string, string>)
    : (r: Option<string>)
    ensures name in stateVars ==> r == Some(name)
    ensures name !in stateVars && name in aliases ==> r == Some(aliases[name])
    ensures name !in stateVars && name !in aliases ==> r == None
  {
    if name in stateVars then Some(name)
    else if name in aliases then Some(aliases[name])
    else None
  }

  /** Every alias points at a state variable or at the storage-struct marker. */
  predicate AliasesWellFormed(aliases: map<string, string>, stateVars: set<string>) {
    forall k :: k in aliases ==> aliases[k] in stateVars || aliases[k] == StorageStructMarker
  }

  /** One step outward along an access chain: a member access or a subscript. */
  datatype Access = Field(field: string) | Subscript(key: Option<Expr>)

  /** `e` under the given steps, innermost first. */
  function Under(e: Expr, steps: seq<Access>): Expr
    decreases |steps|
  {
    if |steps| == 0 then e
    else
      var inner := match steps[0] case Field(m) => Member(e, m) case Subscript(k) => Index(e, k);
      Under(inner, steps[1..])
  }

  /** The ".m" segments the member steps add to a path; subscripts add nothing. */
  function FieldSuffix(steps: seq<Access>): string
    decreases |steps|
  {
    if |steps| == 0 then ""
    else (match steps[0] case Field(m) => "." + m case Subscript(_) => "") + FieldSuffix(steps[1..])
  }

  /** A variable under any steps is an access chain rooted at that variable, and its
      path is the variable followed by the member names in order. */
  lemma {:induction false} ChainRoot(e: Expr, steps: seq<Access>)
    requires IsAccessChain(e)
    ensures IsAccessChain(Under(e, steps))
    ensures ExtractBaseVariable(Under(e, steps)) == ExtractBaseVariable(e)
    ensures ExtractMemberPath(Under(e, steps)) == Some(ExtractMemberPath(e).value + FieldSuffix(steps))
    decreases |steps|
  {
    if |steps| > 0 {
      var inner := match steps[0] case Field(m) => Member(e, m) case Subscript(k) => Index(e, k);
      ChainRoot(inner, steps[1..]);
      var head := match steps[0] case Field(m) => "." + m case Subscript(_) => "";
      assert ExtractMemberPath(inner).value == ExtractMemberPath(e).value + head;
      assert ExtractMemberPath(e).value + head + FieldSuffix(steps[1..])
          == ExtractMemberPath(e).value + (head + FieldSuffix(steps[1..]));
    } else {
      assert ExtractMemberPath(e).value + "" == ExtractMemberPath(e).value;
    }
  }

  /** Adding one step last wraps the whole chain. */
  lemma {:induction false} UnderSnoc(e: Expr, steps: seq<Access>, a: Access)
    ensures Under(e, steps + [a]) == (match a case Field(m) => Member(Under(e, steps), m)
                                             case Subscript(k) => Index(Under(e, steps), k))
    decreases |steps|
  {
    if |steps| > 0 {
      var inner := match steps[0] case Field(m) => Member(e, m) case Subscript(k) => Index(e, k);
      assert (steps + [a])[1..] == steps[1..] + [a];
      UnderSnoc(inner, steps[1..], a);
    }
  }

  /** Every access chain is its root variable under some steps, so the root that
      `ExtractBaseVariable` returns is the identifier the chain is built on. */
  lemma {:induction false} ChainShape(e: Expr) returns (steps: seq<Access>)
    requires IsAccessChain(e)
    ensures e == Under(Var(ExtractBaseVariable(e).value), steps)
  {
    match e
    case Var(n) => steps := [];
    case Member(b, m) =>
      var inner := ChainShape(b);
      UnderSnoc(Var(ExtractBaseVariable(b).value), inner, Field(m));
      steps := inner + [Field(m)];
    case Index(b, k) =>
      var inner := ChainShape(b);
      UnderSnoc(Var(ExtractBaseVariable(b).value), inner, Subscript(k));
      steps := inner + [Subscript(k)];
  }
}
