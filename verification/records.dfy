/** The per-contract records the analyzer fills in: functions with the facts extracted
    from their bodies, state variables with their modification chains, events, errors,
    modifiers, and the external calls between contracts. Lists keep the analyzer's
    order; fields the analyzer never reads are omitted. */
module Records {
  import opened Wrappers

  /** A parameter declared with the `storage` location, by position. */
  datatype StorageParam = StorageParam(paramIndex: nat, paramName: string)

  /** A call `variable.function(...)` on a state variable of contract or interface type. */
  datatype ExternalCall = ExternalCall(
    sourceContract: string,
    sourceFunction: string,
    targetVariable: string,
    targetType: string,
    targetFunction: string,
    targetContract: Option<string>,
    stateMutability: string,
    line: nat)

  datatype FunctionInfo = FunctionInfo(
    name: string,
    visibility: string,
    stateMutability: string,
    parameters: seq<string>,
    returnTypes: seq<string>,
    line: nat,
    modifiesStates: seq<string>,
    modifiesStateFields: seq<string>,
    readsStates: seq<string>,
    callsFunctions: seq<string>,
    externalCalls: seq<ExternalCall>,
    storageParams: seq<StorageParam>,
    usesModifiers: seq<string>,
    emitsEvents: seq<string>,
    usesErrors: seq<string>,
    hasUnchecked: bool)

  /** One caller in a reverse call chain. */
  datatype Caller = Caller(functionName: string, visibility: string)

  /** A function that writes a state variable directly, and the callers that reach it. */
  datatype ModificationChain = ModificationChain(
    directModifier: string,
    directModifierVisibility: string,
    callChain: seq<Caller>)

  datatype StateVariable = StateVariable(
    name: string,
    varType: string,
    visibility: string,
    isConstant: bool,
    isImmutable: bool,
    line: nat,
    modificationChains: seq<ModificationChain>)

  datatype EventDef = EventDef(name: string, line: nat, emittedIn: seq<string>)

  /** A custom error; its users are gathered in a hash set, so they carry no order. */
  datatype ErrorDef = ErrorDef(name: string, line: nat, usedIn: set<string>, isInherited: bool)

  datatype ModifierDef = ModifierDef(name: string, line: nat, usedIn: seq<string>)

  datatype StructField = StructField(name: string, memberType: string)

  /** The namespaced storage struct of an upgradeable contract, when one was detected. */
  datatype UpgradeableStorage = UpgradeableStorage(structFields: seq<StructField>, line: nat)

  datatype ContractInfo = ContractInfo(
    name: string,
    stateVariables: seq<StateVariable>,
    events: seq<EventDef>,
    functions: seq<FunctionInfo>,
    modifiers: seq<ModifierDef>,
    errors: seq<ErrorDef>,
    upgradeableStorage: Option<UpgradeableStorage>)

  /** Names of the functions of a list, as a set. */
  function FunctionNames(fns: seq<FunctionInfo>): (r: set<string>)
    ensures forall i :: 0 <= i < |fns| ==> fns[i].name in r
    ensures forall n :: n in r ==> exists i :: 0 <= i < |fns| && fns[i].name == n
  {
    set i | 0 <= i < |fns| :: fns[i].name
  }

  /** The first function with the given name (Rust `iter().find`). */
  function FindFunction(fns: seq<FunctionInfo>, name: string): (r: Option<nat>)
    ensures r.Some? ==> r.value < |fns| && fns[r.value].name == name
    ensures r.Some? ==> forall j :: 0 <= j < r.value ==> fns[j].name != name
    ensures r.None? ==> forall j :: 0 <= j < |fns| ==> fns[j].name != name
  {
    if |fns| == 0 then None
    else if fns[0].name == name then Some(0)
    else match FindFunction(fns[1..], name)
      case Some(k) => Some(k + 1)
      case None => None
  }

  /** Index of the LAST function with the given name (the index map is built by
      inserting every function in order). */
  function FuncIndex(fns: seq<FunctionInfo>, name: string): (r: Option<nat>)
    ensures r.Some? ==> r.value < |fns| && fns[r.value].name == name
    ensures r.Some? ==> forall j :: r.value < j < |fns| ==> fns[j].name != name
    ensures r.None? ==> forall j :: 0 <= j < |fns| ==> fns[j].name != name
  {
    if |fns| == 0 then None
    else if fns[|fns| - 1].name == name then Some(|fns| - 1)
    else FuncIndex(fns[..|fns| - 1], name)
  }
}
