/** Exclusion of Solidity files from a scan (src/scanner.rs): the patterns read from an
    ignore file and the test of a path against them. A pattern with exactly one `*`
    splits into a prefix and a suffix; any other pattern is matched as a substring. */
module Scanner {
  import opened Wrappers
  import opened Strings

  /** `path` matches `pattern`. With exactly one `*`: a trailing `*` asks for the prefix
      anywhere in the path, a leading `*` for the suffix at its end, an inner `*` for
      both. Otherwise the pattern must occur in the path (or end it). */
  function MatchesPattern(path: string, pattern: string): (r: bool)
    ensures CountChar(pattern, '*') != 1 ==> (r <==> Contains(path, pattern))
  {
    var single := SingleStar(path, pattern);
    SplitCount(pattern, '*');
    if single.Some? then
      single.value
    else
      SuffixIsSubstring(path, pattern);
      Contains(path, pattern) || EndsWith(path, pattern)
  }

  /** The verdict for a pattern with exactly one `*`, none for any other pattern. */
  function SingleStar(path: string, pattern: string): (r: Option<bool>)
    ensures r.Some? <==> '*' in pattern && |Split(pattern, '*')| == 2
  {
    if '*' !in pattern then None
    else
      var parts := Split(pattern, '*');
      if |parts| != 2 then None
      else
        var prefix := parts[0];
        var suffix := parts[1];
        if suffix == "" then Some(Contains(path, prefix))
        else if prefix == "" then Some(EndsWith(path, suffix))
        else Some(Contains(path, prefix) && EndsWith(path, suffix))
  }

  lemma SuffixIsSubstring(s: string, p: string)
    ensures EndsWith(s, p) ==> Contains(s, p)
  {
    if EndsWith(s, p) {
      EndsWithImpliesContains(s, p);
    }
  }

  /** A trailing star, as in `lib/` followed by `*`: the prefix anywhere in the path. */
  lemma TrailingWildcard(path: string, prefix: string)
    requires '*' !in prefix
    ensures MatchesPattern(path, prefix + "*") <==> Contains(path, prefix)
  {
    assert prefix + "*" == prefix + ['*'] + "";
    SplitAround(prefix, '*', "");
  }

  /** `*Test.sol`: the suffix at the end of the path. */
  lemma LeadingWildcard(path: string, suffix: string)
    requires '*' !in suffix && suffix != ""
    ensures MatchesPattern(path, "*" + suffix) <==> EndsWith(path, suffix)
  {
    assert "*" + suffix == "" + ['*'] + suffix;
    SplitAround("", '*', suffix);
  }

  /** `Test*.sol`: the prefix anywhere and the suffix at the end. */
  lemma InnerWildcard(path: string, prefix: string, suffix: string)
    requires '*' !in prefix && '*' !in suffix && prefix != "" && suffix != ""
    ensures MatchesPattern(path, prefix + "*" + suffix) <==> Contains(path, prefix) && EndsWith(path, suffix)
  {
    assert prefix + "*" + suffix == prefix + ['*'] + suffix;
    SplitAround(prefix, '*', suffix);
  }

  /** A pattern with two stars is matched literally, stars included. */
  lemma TwoStarsLiteral(path: string)
    ensures MatchesPattern(path, "a*b*") <==> Contains(path, "a*b*")
  {
    assert multiset("a*b*")['*'] == 2;
  }

  /** The path is excluded when some pattern matches it. */
  function ShouldExclude(path: string, exclusions: seq<string>): (r: bool)
    ensures r <==> exists k :: 0 <= k < |exclusions| && MatchesPattern(path, exclusions[k])
  {
    if |exclusions| == 0 then false
    else if MatchesPattern(path, exclusions[0]) then true
    else
      var r := ShouldExclude(path, exclusions[1..]);
      assert forall k :: 1 <= k < |exclusions| ==> exclusions[k] == exclusions[1..][k - 1];
      r
  }

  /** A line of the ignore file that names a pattern: not blank and not a comment. */
  predicate IsPatternLine(t: string) {
    t != "" && t[0] != '#'
  }

  /** The patterns of an ignore file: its lines trimmed, without blank and `#` lines. */
  function LoadExclusions(content: string): (r: seq<string>)
    ensures forall k :: 0 <= k < |r| ==> IsPatternLine(r[k]) && !IsSpace(r[k][0]) && !IsSpace(r[k][|r[k]| - 1])
    ensures forall t :: t in r <==> t in TrimAll(Lines(content)) && IsPatternLine(t)
  {
    var trimmed := TrimAll(Lines(content));
    KeepPatternsSpec(trimmed);
    KeepPatterns(trimmed)
  }

  /** Each line with its surrounding whitespace removed. */
  function TrimAll(lines: seq<string>): (r: seq<string>)
    ensures |r| == |lines|
    ensures forall j :: 0 <= j < |lines| ==> r[j] == Trim(lines[j])
    ensures forall k :: 0 <= k < |r| && r[k] != "" ==> !IsSpace(r[k][0]) && !IsSpace(r[k][|r[k]| - 1])
  {
    seq(|lines|, j requires 0 <= j < |lines| => Trim(lines[j]))
  }

  /** The lines that name a pattern, in order. */
  function KeepPatterns(ts: seq<string>): (r: seq<string>)
    ensures forall k :: 0 <= k < |r| ==> IsPatternLine(r[k]) && r[k] in ts
  {
    if |ts| == 0 then []
    else (if IsPatternLine(ts[0]) then [ts[0]] else []) + KeepPatterns(ts[1..])
  }

  /** Every line that names a pattern is kept. */
  lemma {:induction false} KeepPatternsSpec(ts: seq<string>)
    ensures forall t :: t in KeepPatterns(ts) <==> t in ts && IsPatternLine(t)
    decreases |ts|
  {
    if |ts| > 0 {
      KeepPatternsSpec(ts[1..]);
      assert forall t :: t in ts <==> t == ts[0] || t in ts[1..];
    }
  }
}
