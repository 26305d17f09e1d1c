/** What the parser front end (src/parser.rs) contributes to the records: the line number of
    a source location, the visibility and mutability words chosen from attribute lists, and
    the text rendering of type names and parameters. */
module Parser {
  import opened Wrappers
  import opened Strings
  import opened Ast

  /** A source location: a span of a file, or one of the locations without a file position
      (built-in, implicit or generated code). Offsets count characters of the content. */
  datatype Loc = FileLoc(file: nat, start: nat, end: nat) | NoFileLoc

  /** The 1-based line of a location: one more than the line feeds before its start;
      0 for a location without a file position. The source slices the content up to the
      start offset, so that offset lies within the content. */
  function LineNumber(content: string, loc: Loc): (r: nat)
    requires loc.FileLoc? ==> loc.start <= |content|
    ensures r == 0 <==> loc.NoFileLoc?
    ensures loc.FileLoc? ==> r == |Split(content[..loc.start], '\n')|
  {
    match loc
    case FileLoc(_, start, _) =>
      SplitCount(content[..start], '\n');
      CountChar(content[..start], '\n') + 1
    case NoFileLoc => 0
  }

  /** A later offset is never on an earlier line. */
  lemma LineNumberMonotone(content: string, file: nat, a: nat, b: nat, e: nat)
    requires a <= b <= |content|
    ensures LineNumber(content, FileLoc(file, a, e)) <= LineNumber(content, FileLoc(file, b, e))
  {
    assert content[..b] == content[..a] + content[a..b];
    assert multiset(content[..b]) == multiset(content[..a]) + multiset(content[a..b]);
  }

  /** An offset reached after the lines `lines` (joined by line feeds) lies on line
      `|lines|`: the first character of each line gets that line's number. */
  lemma LineNumberAfterLines(lines: seq<string>, rest: string, file: nat, e: nat)
    requires |lines| > 0
    requires forall i :: 0 <= i < |lines| ==> '\n' !in lines[i]
    ensures LineNumber(Join(lines, "\n") + rest, FileLoc(file, |Join(lines, "\n")|, e)) == |lines|
  {
    var text := Join(lines, "\n");
    assert (text + rest)[..|text|] == text;
    JoinSplitRoundTrip(lines, '\n');
  }

  // ---------------------------------------------------------------- visibility

  /** The Solidity keyword of a visibility. */
  function VisibilityName(v: Visibility): (r: string) {
    match v
    case Public => "public"
    case Private => "private"
    case Internal => "internal"
    case External => "external"
  }

  /** Reading a visibility keyword back. */
  function ParseVisibility(s: string): (r: Option<Visibility>)
    ensures r.Some? ==> VisibilityName(r.value) == s
  {
    if s == "public" then Some(Public)
    else if s == "private" then Some(Private)
    else if s == "internal" then Some(Internal)
    else if s == "external" then Some(External)
    else None
  }

  /** Distinct visibilities have distinct keywords. */
  lemma VisibilityNameRoundTrip(v: Visibility)
    ensures ParseVisibility(VisibilityName(v)) == Some(v)
  {
  }

  /** Attribute `i` is the first visibility attribute of a function. */
  ghost predicate FirstFunctionVisibility(attrs: seq<FunctionAttribute>, i: int) {
    0 <= i < |attrs| && attrs[i].VisibilityAttr? && forall j :: 0 <= j < i ==> !attrs[j].VisibilityAttr?
  }

  /** The visibility word of a function: that of its first visibility attribute, "public"
      when it has none. */
  function FuncVisibilityToString(attrs: seq<FunctionAttribute>): (r: string)
    ensures (forall i :: 0 <= i < |attrs| ==> !attrs[i].VisibilityAttr?) ==> r == "public"
    ensures forall i :: FirstFunctionVisibility(attrs, i) ==> r == VisibilityName(attrs[i].vis)
    ensures ParseVisibility(r).Some?
  {
    if |attrs| == 0 then "public"
    else if attrs[0].VisibilityAttr? then VisibilityName(attrs[0].vis)
    else
      var r := FuncVisibilityToString(attrs[1..]);
      assert forall i :: FirstFunctionVisibility(attrs, i) ==> FirstFunctionVisibility(attrs[1..], i - 1);
      r
  }

  /** Attribute `i` is the first visibility attribute of a state variable. */
  ghost predicate FirstVariableVisibility(attrs: seq<VariableAttribute>, i: int) {
    0 <= i < |attrs| && attrs[i].VarVisibility? && forall j :: 0 <= j < i ==> !attrs[j].VarVisibility?
  }

  /** The visibility word of a state variable: that of its first visibility attribute,
      "internal" when it has none. */
  function VisibilityToString(attrs: seq<VariableAttribute>): (r: string)
    ensures (forall i :: 0 <= i < |attrs| ==> !attrs[i].VarVisibility?) ==> r == "internal"
    ensures forall i :: FirstVariableVisibility(attrs, i) ==> r == VisibilityName(attrs[i].vis)
    ensures ParseVisibility(r).Some?
  {
    if |attrs| == 0 then "internal"
    else if attrs[0].VarVisibility? then VisibilityName(attrs[0].vis)
    else
      var r := VisibilityToString(attrs[1..]);
      assert forall i :: FirstVariableVisibility(attrs, i) ==> FirstVariableVisibility(attrs[1..], i - 1);
      r
  }

  // ---------------------------------------------------------------- mutability

  /** The mutability word of a mutability attribute; `constant` is the old spelling of
      `view`. */
  function MutabilityName(m: Mutability): (r: string)
    ensures r == "view" <==> m.View? || m.Constant?
  {
    match m
    case Pure => "pure"
    case View => "view"
    case Payable => "payable"
    case Constant => "view"
  }

  /** Attribute `i` is the first mutability attribute of a function. */
  ghost predicate FirstMutability(attrs: seq<FunctionAttribute>, i: int) {
    0 <= i < |attrs| && attrs[i].MutabilityAttr? && forall j :: 0 <= j < i ==> !attrs[j].MutabilityAttr?
  }

  /** The state mutability of a function: that of its first mutability attribute,
      "nonpayable" when it has none. */
  function FuncMutabilityToString(attrs: seq<FunctionAttribute>): (r: string)
    ensures (forall i :: 0 <= i < |attrs| ==> !attrs[i].MutabilityAttr?) ==> r == "nonpayable"
    ensures forall i :: FirstMutability(attrs, i) ==> r == MutabilityName(attrs[i].mut)
    ensures r in {"pure", "view", "payable", "nonpayable"}
  {
    if |attrs| == 0 then "nonpayable"
    else if attrs[0].MutabilityAttr? then MutabilityName(attrs[0].mut)
    else
      var r := FuncMutabilityToString(attrs[1..]);
      assert forall i :: FirstMutability(attrs, i) ==> FirstMutability(attrs[1..], i - 1);
      r
  }

  /** `constant` and `view` make the same function mutability, whatever follows. */
  lemma ConstantMeansView(pre: seq<FunctionAttribute>, post: seq<FunctionAttribute>)
    requires forall j :: 0 <= j < |pre| ==> !pre[j].MutabilityAttr?
    ensures FuncMutabilityToString(pre + [MutabilityAttr(Constant)] + post) == "view"
    ensures FuncMutabilityToString(pre + [MutabilityAttr(View)] + post) == "view"
  {
    assert FirstMutability(pre + [MutabilityAttr(Constant)] + post, |pre|);
    assert FirstMutability(pre + [MutabilityAttr(View)] + post, |pre|);
  }

  // ---------------------------------------------------------------- type names

  /** The text of an array length: a number literal's digits or a constant's name,
      nothing for any other expression. */
  function ExprToString(e: Expr): (r: string)
    ensures e.NumberLit? ==> r == e.digits
    ensures e.Var? ==> r == e.name
    ensures !e.NumberLit? && !e.Var? ==> r == ""
  {
    match e
    case NumberLit(digits) => digits
    case Var(name) => name
    case _ => ""
  }

  /** The text of a type expression: elementary types by their keyword, user types by
      name, `T[]` and `T[n]` for arrays, `Base.Member` for qualified names. Any other
      expression shape renders as its debug text, which is kept only for `OtherExpr`. */
  function TypeToString(ty: Expr): string
    decreases ty, 1
  {
    match ty
    case TypeExpr(t) => BaseTypeToString(t)
    case Var(name) => name
    case Index(base, None) => TypeToString(base) + "[]"
    case Index(base, Some(len)) => TypeToString(base) + "[" + ExprToString(len) + "]"
    case Member(base, member) => TypeToString(base) + "." + member
    case OtherExpr(debug) => debug
    case _ => ""
  }

  /** The text of an elementary type name; a mapping renders as `mapping(K => V)`. */
  function BaseTypeToString(t: TypeName): string
    decreases t, 0
  {
    match t
    case Address => "address"
    case AddressPayable => "address payable"
    case Bool => "bool"
    case StringType => "string"
    case Bytes(n) => "bytes" + NatToString(n)
    case Uint(n) => "uint" + NatToString(n)
    case Int(n) => "int" + NatToString(n)
    case Mapping(key, value) => "mapping(" + TypeToString(key) + " => " + TypeToString(value) + ")"
    case DynamicBytes => "bytes"
    case OtherType(debug) => debug
  }

  /** A type name with a keyword of its own (not a mapping, not a debug rendering). */
  predicate IsElementary(t: TypeName) {
    !t.Mapping? && !t.OtherType?
  }

  predicate AllDigits(s: string) {
    forall i :: 0 <= i < |s| ==> '0' <= s[i] <= '9'
  }

  /** Reading an elementary type keyword back. */
  function ParseElementary(s: string): (r: Option<TypeName>)
    ensures r.Some? ==> IsElementary(r.value)
  {
    if StartsWith(s, "uint") && |s| > 4 && AllDigits(s[4..]) then Some(Uint(DigitsValue(s[4..])))
    else if StartsWith(s, "int") && |s| > 3 && AllDigits(s[3..]) then Some(Int(DigitsValue(s[3..])))
    else if s == "bytes" then Some(DynamicBytes)
    else if StartsWith(s, "bytes") && |s| > 5 && AllDigits(s[5..]) then Some(Bytes(DigitsValue(s[5..])))
    else if s == "address" then Some(Address)
    else if s == "address payable" then Some(AddressPayable)
    else if s == "bool" then Some(Bool)
    else if s == "string" then Some(StringType)
    else None
  }

  /** Every elementary type is recovered from its rendering: no two elementary types,
      sized or not, render alike. */
  lemma ElementaryRoundTrip(t: TypeName)
    requires IsElementary(t)
    ensures ParseElementary(BaseTypeToString(t)) == Some(t)
  {
    match t
    case Uint(n) => UintRoundTrip(n);
    case Int(n) => IntRoundTrip(n);
    case Bytes(n) => BytesRoundTrip(n);
    case _ => KeywordRoundTrip(t);
  }

  lemma UintRoundTrip(n: nat)
    ensures ParseElementary("uint" + NatToString(n)) == Some(Uint(n))
  {
    SizedRoundTrip("uint", n);
  }

  lemma IntRoundTrip(n: nat)
    ensures ParseElementary("int" + NatToString(n)) == Some(Int(n))
  {
    SizedRoundTrip("int", n);
  }

  lemma BytesRoundTrip(n: nat)
    ensures ParseElementary("bytes" + NatToString(n)) == Some(Bytes(n))
  {
    SizedRoundTrip("bytes", n);
  }

  /** The unsized keywords. */
  lemma KeywordRoundTrip(t: TypeName)
    requires t in {Address, AddressPayable, Bool, StringType, DynamicBytes}
    ensures ParseElementary(BaseTypeToString(t)) == Some(t)
  {
  }

  /** A sized keyword: the digits after the prefix give the size back. */
  lemma SizedRoundTrip(prefix: string, n: nat)
    requires prefix in {"uint", "int", "bytes"}
    ensures var s := prefix + NatToString(n);
      && StartsWith(s, prefix) && |s| > |prefix| && AllDigits(s[|prefix|..])
      && DigitsValue(s[|prefix|..]) == n
      && (prefix != "uint" ==> !StartsWith(s, "uint"))
      && (prefix == "bytes" ==> !StartsWith(s, "int") && s != "bytes")
  {
    var s := prefix + NatToString(n);
    assert s[..|prefix|] == prefix && s[|prefix|..] == NatToString(n);
    assert s[0] == prefix[0];
    NatToStringRoundTrip(n);
  }

  /** The element type of a dynamic array type's text. */
  function ElementText(s: string): (r: Option<string>)
    ensures r.Some? ==> r.value + "[]" == s
  {
    if EndsWith(s, "[]") then Some(s[..|s| - 2]) else None
  }

  /** The element type is recovered from the text of a dynamic array type. */
  lemma ArrayRoundTrip(base: Expr)
    ensures ElementText(TypeToString(Index(base, None))) == Some(TypeToString(base))
  {
    var s := TypeToString(Index(base, None));
    assert s[..|s| - 2] == TypeToString(base);
  }

  /** The key type of a mapping's text: what stands between `mapping(` and ` =>`. */
  function MappingKeyText(s: string): (r: Option<string>)
  {
    if StartsWith(s, "mapping(") then
      var before := BeforeChar(s[8..], '=');
      if |before| > 0 && before[|before| - 1] == ' ' then Some(before[..|before| - 1]) else None
    else None
  }

  /** An elementary key type is recovered from the text of a mapping type, whatever the
      value type. */
  lemma MappingKeyRoundTrip(key: TypeName, value: Expr)
    requires IsElementary(key)
    ensures MappingKeyText(BaseTypeToString(Mapping(TypeExpr(key), value))) == Some(BaseTypeToString(key))
    ensures ParseElementary(MappingKeyText(BaseTypeToString(Mapping(TypeExpr(key), value))).value) == Some(key)
  {
    var k := BaseTypeToString(key);
    assert TypeToString(TypeExpr(key)) == k;
    NoEqualsSign(key);
    MappingKeyOfText(k, TypeToString(value));
    ElementaryRoundTrip(key);
  }

  /** A key text without `=` is what `MappingKeyText` finds. */
  lemma MappingKeyOfText(k: string, v: string)
    requires '=' !in k
    ensures MappingKeyText("mapping(" + k + " => " + v + ")") == Some(k)
  {
    var s := "mapping(" + k + " => " + v + ")";
    assert s[..8] == "mapping(";
    assert s[8..] == (k + " ") + ['='] + ("> " + v + ")");
    assert '=' !in k + " ";
    BeforeCharAround(k + " ", '=', "> " + v + ")");
    assert (k + " ")[..|k|] == k;
  }

  lemma NoEqualsSign(t: TypeName)
    requires IsElementary(t)
    ensures '=' !in BaseTypeToString(t)
  {
    match t
    case Bytes(n) =>
      assert BaseTypeToString(t) == "bytes" + NatToString(n);
    case Uint(n) =>
      assert BaseTypeToString(t) == "uint" + NatToString(n);
    case Int(n) =>
      assert BaseTypeToString(t) == "int" + NatToString(n);
    case _ =>
  }

  // ---------------------------------------------------------------- parameters

  /** A parameter as the records hold it: its type, then its name after one space when it
      has a non-empty one. */
  function ParamToString(p: Param): (r: string)
    ensures StartsWith(r, TypeToString(p.ty))
    ensures p.paramName.None? || p.paramName == Some("") ==> r == TypeToString(p.ty)
    ensures p.paramName.Some? && p.paramName.value != "" ==> r == TypeToString(p.ty) + " " + p.paramName.value
  {
    var name := p.paramName.GetOr("");
    if name == "" then TypeToString(p.ty) else TypeToString(p.ty) + " " + name
  }

  /** The parameter strings of a definition; a missing parameter is the empty string. */
  function ParamStrings(params: seq<Option<Param>>): (r: seq<string>)
    ensures |r| == |params|
    ensures forall i :: 0 <= i < |params| ==> r[i] == (if params[i].Some? then ParamToString(params[i].value) else "")
  {
    seq(|params|, i requires 0 <= i < |params| => if params[i].Some? then ParamToString(params[i].value) else "")
  }

  /** The name of a named parameter is the last whitespace-separated token of its string,
      which is how the data-flow analysis reads parameter names back, even when the type
      itself holds a space (`address payable to`). */
  lemma ParamNameRecovered(p: Param)
    requires p.paramName.Some? && p.paramName.value != ""
    requires forall ch :: ch in p.paramName.value ==> !IsSpace(ch)
    ensures LastToken(ParamToString(p)) == p.paramName.value
  {
    assert ParamToString(p) == TypeToString(p.ty) + " " + p.paramName.value;
    LastTokenAfterSpace(TypeToString(p.ty), p.paramName.value);
  }
}
