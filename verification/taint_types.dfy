/** The vocabulary of the taint engine (src/dataflow.rs): where untrusted data enters a
    function, the operations it must not reach unchecked, and the flows found between
    the two. */
module TaintTypes {
  import opened Wrappers

  datatype TaintSource =
    | FunctionParameter(functionName: string, paramIndex: nat, paramName: string)
    | MsgSender
    | MsgValue
    | MsgData
    | ExternalCallReturn(contractVar: string, calledFunction: string)
    | TaintedArrayAccess(baseVar: string)

  datatype TaintSink =
    | StateModification(varName: string, fieldPath: Option<string>)
    | ExternalCallSink(targetVar: string, calledFunction: string)
    | ValueTransfer(transferTarget: string)
    | DelegateCall(delegateTarget: string)
    | SelfDestruct(destructTarget: string)
    | ArrayIndex(arrayVar: string)

  datatype Severity = Info | Low | Medium | High | Critical

  datatype TaintFlow = TaintFlow(
    source: TaintSource,
    sink: TaintSink,
    functionName: string,
    path: seq<string>,
    isValidated: bool,
    severity: Severity)

  datatype InfluenceType = Direct | Arithmetic | Conditional | IndexAccess

  /** The state variables one parameter reaches; the analyzer collects them from a hash
      set, so they carry no order. */
  datatype ParameterInfluence = ParameterInfluence(
    functionName: string,
    paramIndex: nat,
    paramName: string,
    influencedStateVars: set<string>,
    influenceType: InfluenceType)

  datatype UnvalidatedInput = UnvalidatedInput(
    source: TaintSource,
    sink: TaintSink,
    functionName: string,
    missingValidations: seq<string>)

  datatype DataFlowAnalysis = DataFlowAnalysis(
    taintFlows: seq<TaintFlow>,
    parameterInfluences: seq<ParameterInfluence>,
    unvalidatedInputs: seq<UnvalidatedInput>)

  /** The label a severity is reported under. */
  function SeverityName(s: Severity): string {
    match s
    case Info => "INFO"
    case Low => "LOW"
    case Medium => "MEDIUM"
    case High => "HIGH"
    case Critical => "CRITICAL"
  }
}
