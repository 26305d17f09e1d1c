/** Upgradeable contracts keep their state in a namespaced storage struct reached through
    an accessor. After the per-function analysis, writes recorded under the storage-struct
    marker are renamed to the struct's fields, and each field becomes a virtual state
    variable with its own modification chains (src/analyzer.rs). */
module Upgradeable {
  import opened Wrappers
  import opened Strings
  import opened Paths
  import opened Collections
  import opened Records
  import opened Chains

  /** The prefix of field paths written through the storage struct. */
  const StorageStructPrefix: string := StorageStructMarker + "."

  /** A field path with the storage-struct prefix removed (once), other paths unchanged. */
  function ResolveField(f: string): (r: string)
    ensures StartsWith(f, StorageStructPrefix) ==> r == f[|StorageStructPrefix|..]
    ensures !StartsWith(f, StorageStructPrefix) ==> r == f
  {
    if StartsWith(f, StorageStructPrefix) then
      ReplaceFirstAtPrefix(f, StorageStructPrefix, "");
      ReplaceFirst(f, StorageStructPrefix, "")
    else f
  }

  /** The field a path starts with: the text before the first '[' and then before the
      first '.'. */
  function BaseField(f: string): (r: string)
    ensures StartsWith(f, r)
    ensures '[' !in r && '.' !in r
    ensures |r| < |f| ==> f[|r|] == '[' || f[|r|] == '.'
  {
    var a := BeforeChar(f, '[');
    var r := BeforeChar(a, '.');
    assert f[..|a|] == a;
    assert |r| <= |a| ==> f[..|r|] == a[..|r|];
    r
  }

  /** Bases of the rewritten fields that are non-empty and not yet listed, in field order
      (a base shared by two fields is listed twice, as the source collects before it
      extends). */
  function NewBases(fields: seq<string>, listed: seq<string>): (r: seq<string>)
    ensures forall x :: x in r ==> x != "" && x !in listed && exists f :: f in fields && BaseField(f) == x
    ensures forall f :: f in fields && BaseField(f) != "" && BaseField(f) !in listed ==> BaseField(f) in r
  {
    if |fields| == 0 then []
    else
      var b := BaseField(fields[0]);
      var rest := NewBases(fields[1..], listed);
      assert forall f :: f in fields[1..] ==> f in fields;
      assert forall f :: f in fields ==> f == fields[0] || f in fields[1..];
      if b != "" && b !in listed then [b] + rest else rest
  }

  /** The field paths of a function with the storage-struct prefix stripped. */
  function ResolveFields(fs: seq<string>): (r: seq<string>)
    ensures |r| == |fs|
    ensures forall k :: 0 <= k < |r| ==> r[k] == ResolveField(fs[k])
  {
    seq(|fs|, k requires 0 <= k < |fs| => ResolveField(fs[k]))
  }

  /** The write list of a function after the rewrite: the marker dropped, the new bases
      appended. */
  function ResolveStates(states: seq<string>, fields: seq<string>): (r: seq<string>)
    ensures Without(states, {StorageStructMarker}) <= r
    ensures (forall f :: f in fields ==> BaseField(f) != StorageStructMarker) ==> StorageStructMarker !in r
    ensures forall f :: f in fields && BaseField(f) != "" ==> BaseField(f) in r
    ensures forall x :: x in r ==>
              (x in states && x != StorageStructMarker) || exists f :: f in fields && BaseField(f) == x
  {
    var kept := Without(states, {StorageStructMarker});
    var added := NewBases(fields, kept);
    assert forall x :: x in kept + added ==> x in kept || x in added;
    kept + added
  }

  /** One function after the rewrite: marker prefixes stripped from its field paths, the
      marker dropped from its write list, and the new bases appended; nothing else
      changes. */
  function ResolveFunction(fn: FunctionInfo): (r: FunctionInfo)
    ensures r == fn.(modifiesStateFields := r.modifiesStateFields, modifiesStates := r.modifiesStates)
    ensures r.modifiesStateFields == ResolveFields(fn.modifiesStateFields)
    ensures r.modifiesStates == ResolveStates(fn.modifiesStates, r.modifiesStateFields)
  {
    var fields := ResolveFields(fn.modifiesStateFields);
    fn.(modifiesStateFields := fields, modifiesStates := ResolveStates(fn.modifiesStates, fields))
  }

  /** The rewrite of a contract: nothing changes without a storage struct; with one, every
      function is rewritten. */
  function ResolveStorageStructFields(info: ContractInfo): (r: ContractInfo)
    ensures info.upgradeableStorage.None? ==> r == info
    ensures r == info.(functions := r.functions)
    ensures |r.functions| == |info.functions|
    ensures forall i :: 0 <= i < |info.functions| ==>
              r.functions[i] == info.functions[i].(modifiesStates := r.functions[i].modifiesStates,
                                                   modifiesStateFields := r.functions[i].modifiesStateFields)
    ensures info.upgradeableStorage.Some? ==>
              forall i :: 0 <= i < |info.functions| ==> r.functions[i] == ResolveFunction(info.functions[i])
  {
    if info.upgradeableStorage.None? then info
    else
      info.(functions := seq(|info.functions|, i requires 0 <= i < |info.functions| => ResolveFunction(info.functions[i])))
  }

  /** '@' appears in a path at most as its first character. */
  predicate AtOnlyInFront(f: string) {
    forall j :: 0 < j < |f| ==> f[j] != '@'
  }

  /** The prefix is stripped once, so a path is clean afterwards when '@' appears in it
      only in front (identifiers never contain it). */
  lemma NoPrefixAfterRewrite(fn: FunctionInfo)
    requires forall f :: f in fn.modifiesStateFields ==> AtOnlyInFront(f)
    ensures forall f :: f in ResolveFunction(fn).modifiesStateFields ==> !StartsWith(f, StorageStructPrefix)
  {
    var fs := ResolveFunction(fn).modifiesStateFields;
    forall k | 0 <= k < |fs| ensures !StartsWith(fs[k], StorageStructPrefix) {
      FieldClean(fn.modifiesStateFields[k]);
    }
  }

  lemma FieldClean(g: string)
    requires AtOnlyInFront(g)
    ensures !StartsWith(ResolveField(g), StorageStructPrefix)
  {
    var f := ResolveField(g);
    var n := |StorageStructPrefix|;
    assert StorageStructPrefix[0] == '@';
    if StartsWith(g, StorageStructPrefix) && |f| > 0 {
      assert f == g[n..];
      assert f[0] == g[n];
    }
  }

  /** Stripping twice is what a path that names the marker twice would need: the
      rewrite does not reach a fixed point on such a path. */
  lemma DoublePrefixSurvives()
    ensures StartsWith(ResolveField(StorageStructPrefix + StorageStructPrefix + "x"), StorageStructPrefix)
  {
    var f := StorageStructPrefix + StorageStructPrefix + "x";
    assert StartsWith(f, StorageStructPrefix) by { assert f[..|StorageStructPrefix|] == StorageStructPrefix; }
    assert ResolveField(f) == StorageStructPrefix + "x" by { assert f[|StorageStructPrefix|..] == StorageStructPrefix + "x"; }
    assert (StorageStructPrefix + "x")[..|StorageStructPrefix|] == StorageStructPrefix;
  }

  /** A field path rooted at the parameter marker has the marker as its base, so the
      rewrite lists "@param" among the written state names. */
  lemma ParamBaseListed(fn: FunctionInfo)
    requires ParamMarker + ".x" in fn.modifiesStateFields
    ensures ParamMarker in ResolveFunction(fn).modifiesStates
  {
    var g := ParamMarker + ".x";
    assert !StartsWith(g, StorageStructPrefix) by { assert g[1] != StorageStructPrefix[1]; }
    BaseOfParamPath();
    var k :| 0 <= k < |fn.modifiesStateFields| && fn.modifiesStateFields[k] == g;
    assert ResolveFunction(fn).modifiesStateFields[k] == g;
  }

  lemma BaseOfParamPath()
    ensures BaseField(ParamMarker + ".x") == ParamMarker
  {
    var g := ParamMarker + ".x";
    BeforeCharAbsent(g, '[');
    BeforeCharAround(ParamMarker, '.', "x");
    assert g == ParamMarker + ['.'] + "x";
  }

  /** The suffix the analyzer gives a virtual variable's type. */
  const UpgradeableSuffix: string := " (upgradeable storage)"

  /** One virtual state variable per storage-struct field, appended in field order; each
      is private, neither constant nor immutable, on the struct's line, with the chains
      of the writers of the field's name. */
  function CreateVirtualStateVariables(info: ContractInfo, cg: CallGraph): (r: ContractInfo)
    ensures info.upgradeableStorage.None? ==> r == info
    ensures r == info.(stateVariables := r.stateVariables)
    ensures info.upgradeableStorage.Some? ==>
              var fields := info.upgradeableStorage.value.structFields;
              && |r.stateVariables| == |info.stateVariables| + |fields|
              && info.stateVariables <= r.stateVariables
              && forall k :: 0 <= k < |fields| ==>
                   var v := r.stateVariables[|info.stateVariables| + k];
                   && v.name == fields[k].name
                   && v.varType == fields[k].memberType + UpgradeableSuffix
                   && v.visibility == "private" && !v.isConstant && !v.isImmutable
                   && v.line == info.upgradeableStorage.value.line
                   && v.modificationChains == BuildModificationChains(fields[k].name, info.functions, cg)
  {
    match info.upgradeableStorage
    case None => info
    case Some(storage) =>
      var fields := storage.structFields;
      var virtuals := seq(|fields|, k requires 0 <= k < |fields| =>
        StateVariable(fields[k].name, fields[k].memberType + UpgradeableSuffix, "private", false, false,
                      storage.line, BuildModificationChains(fields[k].name, info.functions, cg)));
      info.(stateVariables := info.stateVariables + virtuals)
  }
}
