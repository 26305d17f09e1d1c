/** The fragment of the Solidity syntax tree that the analyzer inspects. Every shape the
    walkers match on has its own constructor; everything else is `OtherExpr`, `OtherStmt`
    or `OtherPart`, which every walker treats as opaque. Source locations are dropped. */
module Ast {
  import opened Wrappers

  /** `=` and the ten compound assignments. */
  datatype AssignOp =
    | Plain | AddAssign | SubAssign | MulAssign | DivAssign | ModAssign
    | OrAssign | AndAssign | XorAssign | ShlAssign | ShrAssign

  datatype IncDecOp = PreInc | PostInc | PreDec | PostDec

  datatype BinOp =
    | Add | Sub | Mul | Div | Mod | Pow
    | BitOr | BitAnd | BitXor | Shl | Shr
    | Eq | Ne | Lt | Le | Gt | Ge
    | And | Or

  datatype UnOp = UnaryPlus | Negate | Not | BitNot

  /** Elementary type names as the parser distinguishes them. `OtherType` carries the
      parser's debug rendering of any other type. */
  datatype TypeName =
    | Address | AddressPayable | Bool | StringType
    | Bytes(width: nat) | Uint(bits: nat) | Int(bits: nat)
    | Mapping(key: Expr, value: Expr)
    | DynamicBytes
    | OtherType(debug: string)

  datatype Expr =
    | Var(name: string)
    | Member(base: Expr, member: string)
    | Index(indexed: Expr, index: Option<Expr>)
    | Call(callee: Expr, args: seq<Expr>)
    | Assign(op: AssignOp, lhs: Expr, rhs: Expr)
    | IncDec(incOp: IncDecOp, operand: Expr)
    | Delete(target: Expr)
    | Binary(binOp: BinOp, left: Expr, right: Expr)
    | Unary(unOp: UnOp, arg: Expr)
    | Paren(inner: Expr)
    | Ternary(cond: Expr, ifTrue: Expr, ifFalse: Expr)
    | NumberLit(digits: string)
    | TypeExpr(ty: TypeName)
    | OtherExpr(debug: string)

  datatype Stmt =
    | ExprStmt(expr: Expr)
    | Block(unchecked: bool, stmts: seq<Stmt>)
    | If(cond: Expr, thenS: Stmt, elseS: Option<Stmt>)
    | While(whileCond: Expr, body: Stmt)
    | DoWhile(doBody: Stmt, doCond: Expr)
    | For(init: Option<Stmt>, forCond: Option<Expr>, update: Option<Expr>, forBody: Option<Stmt>)
    | VarDef(declName: Option<string>, initExpr: Option<Expr>)
    | Return(value: Option<Expr>)
    | Revert(errorPath: Option<seq<string>>, revertArgs: seq<Expr>)
    | Emit(event: Expr)
    | OtherStmt

  datatype StorageLocation = Memory | Storage | Calldata

  datatype Param = Param(ty: Expr, storage: Option<StorageLocation>, paramName: Option<string>)

  datatype Visibility = Public | Private | Internal | External

  datatype Mutability = Pure | View | Payable | Constant

  datatype FunctionAttribute =
    | VisibilityAttr(vis: Visibility)
    | MutabilityAttr(mut: Mutability)
    | ModifierAttr(path: seq<string>)
    | OtherFunctionAttr

  datatype VariableAttribute =
    | VarVisibility(vis: Visibility)
    | OtherVariableAttr

  /** A function or modifier definition; a missing name is the constructor. */
  datatype FunctionDefinition = FunctionDefinition(
    fnName: Option<string>,
    isModifier: bool,
    params: seq<Option<Param>>,
    attributes: seq<FunctionAttribute>,
    fnBody: Option<Stmt>)

  datatype ContractPart =
    | FunctionPart(def: FunctionDefinition)
    | VariablePart(varName: Option<string>, varType: Expr)
    | OtherPart

  /** The name the analyzer gives a definition: its identifier, or "constructor". */
  function DefinitionName(f: FunctionDefinition): (r: string)
    ensures f.fnName.Some? ==> r == f.fnName.value
    ensures f.fnName.None? ==> r == "constructor"
  {
    f.fnName.GetOr("constructor")
  }

  /** Part `i` defines a function (or, with `modifiers`, a modifier) of name `n`. */
  predicate DefinesAt(parts: seq<ContractPart>, i: nat, modifiers: bool, n: string) {
    && i < |parts|
    && parts[i].FunctionPart?
    && parts[i].def.isModifier == modifiers
    && DefinitionName(parts[i].def) == n
  }

  /** Function (or modifier) definitions by name; a later definition with the same name
      replaces an earlier one, as when inserting into a hash map in order. */
  function DefinitionsByName(parts: seq<ContractPart>, modifiers: bool): (r: map<string, FunctionDefinition>)
    ensures forall n :: n in r <==> exists i: nat :: DefinesAt(parts, i, modifiers, n)
    ensures forall i: nat, n :: LastDefinition(parts, i, modifiers, n) ==> n in r && r[n] == parts[i].def
  {
    if |parts| == 0 then map[]
    else
      var k := |parts| - 1;
      var init := parts[..k];
      var m := DefinitionsByName(init, modifiers);
      var last := parts[k];
      InitDefines(parts, init, modifiers);
      if last.FunctionPart? && last.def.isModifier == modifiers then
        var n0 := DefinitionName(last.def);
        var r := m[n0 := last.def];
        assert DefinesAt(parts, k, modifiers, n0);
        forall i: nat, n | LastDefinition(parts, i, modifiers, n) ensures n in r && r[n] == parts[i].def {
          if i < k {
            assert n != n0 by { assert !DefinesAt(parts, k, modifiers, n); }
            assert LastDefinition(init, i, modifiers, n);
          }
        }
        r
      else
        assert forall n :: !DefinesAt(parts, k, modifiers, n);
        forall i: nat, n | LastDefinition(parts, i, modifiers, n) ensures n in m && m[n] == parts[i].def {
          assert LastDefinition(init, i, modifiers, n);
        }
        m
  }

  /** Part `i` is the last definition of name `n`. */
  predicate LastDefinition(parts: seq<ContractPart>, i: nat, modifiers: bool, n: string) {
    DefinesAt(parts, i, modifiers, n) && forall j: nat :: i < j < |parts| ==> !DefinesAt(parts, j, modifiers, n)
  }

  /** A prefix defines a name at a position exactly when the whole list does. */
  lemma InitDefines(parts: seq<ContractPart>, init: seq<ContractPart>, modifiers: bool)
    requires |parts| > 0 && init == parts[..|parts| - 1]
    ensures forall i: nat, n :: i < |init| ==> (DefinesAt(init, i, modifiers, n) <==> DefinesAt(parts, i, modifiers, n))
    ensures forall i: nat, n :: DefinesAt(init, i, modifiers, n) ==> i < |init|
  {
  }
}
