/** Text operations the analyzer performs on identifiers, dotted paths, parameter
    strings and ignore-file lines. Each is the Rust `str` method of the same purpose,
    restricted to what the analyzer relies on. */
module Strings {
  import opened Wrappers

  /** Rust `str::starts_with`. */
  predicate StartsWith(s: string, p: string) {
    |p| <= |s| && s[..|p|] == p
  }

  /** Rust `str::ends_with`. */
  predicate EndsWith(s: string, p: string) {
    |p| <= |s| && s[|s| - |p|..] == p
  }

  /** `sub` starts at position `i` of `s`. */
  ghost predicate OccursAt(s: string, sub: string, i: int) {
    0 <= i && i + |sub| <= |s| && s[i..i + |sub|] == sub
  }

  /** Rust `str::contains` with a string pattern. */
  predicate Contains(s: string, sub: string)
    decreases |s|
  {
    StartsWith(s, sub) || (|s| > 0 && Contains(s[1..], sub))
  }

  /** `Contains` agrees with the positional definition of a substring occurrence. */
  lemma ContainsIffOccurs(s: string, sub: string)
    ensures Contains(s, sub) <==> exists i :: OccursAt(s, sub, i)
  {
    ContainsIffFound(s, sub);
  }

  lemma {:induction false} ContainsIffFound(s: string, sub: string)
    ensures Contains(s, sub) <==> FindFirst(s, sub).Some?
    decreases |s|
  {
    if !StartsWith(s, sub) && |s| > 0 {
      ContainsIffFound(s[1..], sub);
    }
  }

  /** A string contains each of its suffixes. */
  lemma EndsWithImpliesContains(s: string, p: string)
    requires EndsWith(s, p)
    ensures Contains(s, p)
  {
    assert OccursAt(s, p, |s| - |p|);
    ContainsIffOccurs(s, p);
  }

  /** Index of the first occurrence of `sub` in `s` (Rust `str::find`). */
  function FindFirst(s: string, sub: string): (r: Option<nat>)
    ensures r.Some? ==> OccursAt(s, sub, r.value)
    ensures r.Some? ==> forall j :: 0 <= j < r.value ==> !OccursAt(s, sub, j)
    ensures r.None? ==> forall j :: !OccursAt(s, sub, j)
    decreases |s|
  {
    if StartsWith(s, sub) then
      assert s[0..0 + |sub|] == s[..|sub|];
      Some(0)
    else if |s| == 0 then
      None
    else
      var rest := FindFirst(s[1..], sub);
      ShiftOccurrence(s, sub);
      match rest
      case None => None
      case Some(k) => Some(k + 1)
  }

  /** An occurrence at `j + 1` in `s` is an occurrence at `j` in `s[1..]`, and back. */
  lemma ShiftOccurrence(s: string, sub: string)
    requires |s| > 0
    requires !StartsWith(s, sub)
    ensures forall j :: 0 < j ==> (OccursAt(s, sub, j) <==> OccursAt(s[1..], sub, j - 1))
    ensures !OccursAt(s, sub, 0)
  {
    forall j | 0 < j
      ensures OccursAt(s, sub, j) <==> OccursAt(s[1..], sub, j - 1)
    {
      if j + |sub| <= |s| {
        assert s[1..][j - 1..j - 1 + |sub|] == s[j..j + |sub|];
      }
    }
    if |sub| <= |s| {
      assert s[0..0 + |sub|] == s[..|sub|];
    }
  }

  /** Rust `str::replacen(pat, rep, 1)`: the first occurrence of `pat` is replaced. */
  function ReplaceFirst(s: string, pat: string, rep: string): (r: string)
  {
    match FindFirst(s, pat)
    case None => s
    case Some(i) => s[..i] + rep + s[i + |pat|..]
  }

  /** When `s` starts with `pat`, replacing the first occurrence swaps exactly that prefix. */
  lemma ReplaceFirstAtPrefix(s: string, pat: string, rep: string)
    requires StartsWith(s, pat)
    ensures ReplaceFirst(s, pat, rep) == rep + s[|pat|..]
  {
    assert s[0..0 + |pat|] == s[..|pat|];
  }

  /** Number of occurrences of the character `c` in `s`. */
  function CountChar(s: string, c: char): nat {
    multiset(s)[c]
  }

  /** The text before the first `c` (Rust `split(c).next()`), or all of `s` without one. */
  function BeforeChar(s: string, c: char): (r: string)
    ensures StartsWith(s, r)
    ensures c !in r
    ensures |r| < |s| ==> s[|r|] == c
    decreases |s|
  {
    if |s| == 0 || s[0] == c then ""
    else [s[0]] + BeforeChar(s[1..], c)
  }

  /** Rust `str::split(c)` with a character separator: the pieces between separators. */
  function Split(s: string, c: char): (r: seq<string>)
    ensures |r| >= 1
    ensures forall i :: 0 <= i < |r| ==> c !in r[i]
    decreases |s|
  {
    var head := BeforeChar(s, c);
    if |head| == |s| then
      assert s == head;
      [s]
    else
      [head] + Split(s[|head| + 1..], c)
  }

  /** `split` yields one piece more than there are separators. */
  lemma {:induction false} SplitCount(s: string, c: char)
    ensures |Split(s, c)| == CountChar(s, c) + 1
    decreases |s|
  {
    var head := BeforeChar(s, c);
    if |head| < |s| {
      var tail := s[|head| + 1..];
      SplitCount(tail, c);
      assert s == head + [c] + tail;
      assert multiset(s) == multiset(head) + multiset{c} + multiset(tail);
    } else {
      assert s == head;
    }
  }

  /** Rust `slice::join` on strings. */
  function Join(parts: seq<string>, sep: string): string {
    if |parts| == 0 then ""
    else if |parts| == 1 then parts[0]
    else parts[0] + sep + Join(parts[1..], sep)
  }

  /** Splitting on a character and joining with it again gives back the original text. */
  lemma {:induction false} SplitJoinRoundTrip(s: string, c: char)
    ensures Join(Split(s, c), [c]) == s
    decreases |s|
  {
    var head := BeforeChar(s, c);
    if |head| < |s| {
      var tail := s[|head| + 1..];
      var rest := Split(tail, c);
      SplitJoinRoundTrip(tail, c);
      assert Split(s, c) == [head] + rest;
      JoinCons(head, rest, [c]);
      assert s == head + [c] + tail;
    }
  }

  lemma JoinCons(h: string, rest: seq<string>, sep: string)
    requires |rest| > 0
    ensures Join([h] + rest, sep) == h + sep + Join(rest, sep)
  {
    assert ([h] + rest)[1..] == rest;
  }

  /** Joining pieces free of the separator and splitting again gives back the pieces. */
  lemma {:induction false} JoinSplitRoundTrip(parts: seq<string>, c: char)
    requires |parts| > 0
    requires forall i :: 0 <= i < |parts| ==> c !in parts[i]
    ensures Split(Join(parts, [c]), c) == parts
    decreases |parts|
  {
    if |parts| == 1 {
      BeforeCharAbsent(parts[0], c);
    } else {
      var rest := parts[1..];
      JoinSplitRoundTrip(rest, c);
      var joined := Join(rest, [c]);
      assert Join(parts, [c]) == parts[0] + [c] + joined;
      SplitAt(parts[0], c, joined);
      assert parts == [parts[0]] + rest;
    }
  }

  /** Splitting text that starts with a separator-free piece and a separator. */
  lemma SplitAt(a: string, c: char, b: string)
    requires c !in a
    ensures Split(a + [c] + b, c) == [a] + Split(b, c)
  {
    var s := a + [c] + b;
    BeforeCharAround(a, c, b);
    assert s[|a| + 1..] == b;
  }

  /** The text before the first separator is everything up to a separator placed after it. */
  lemma {:induction false} BeforeCharAround(a: string, c: char, b: string)
    requires c !in a
    ensures BeforeChar(a + [c] + b, c) == a
    decreases |a|
  {
    if |a| > 0 {
      assert (a + [c] + b)[1..] == a[1..] + [c] + b;
      BeforeCharAround(a[1..], c, b);
    }
  }

  /** With exactly one separator, `split` yields the text before it and the text after it. */
  lemma SplitAround(a: string, c: char, b: string)
    requires c !in a && c !in b
    ensures Split(a + [c] + b, c) == [a, b]
  {
    var s := a + [c] + b;
    BeforeCharAround(a, c, b);
    assert s[|a| + 1..] == b;
    BeforeCharAbsent(b, c);
  }

  lemma {:induction false} BeforeCharAbsent(s: string, c: char)
    requires c !in s
    ensures BeforeChar(s, c) == s
    decreases |s|
  {
    if |s| > 0 {
      assert c !in s[1..];
      BeforeCharAbsent(s[1..], c);
    }
  }

  /** Whitespace as Rust's `char::is_whitespace` sees it, for the ASCII range. */
  predicate IsSpace(ch: char) {
    ch == ' ' || ch == '\t' || ch == '\n' || ch == '\r' || ch == '\U{000B}' || ch == '\U{000C}'
  }

  /** Number of leading whitespace characters. */
  function LeadingSpaces(s: string): (n: nat)
    ensures n <= |s|
    ensures forall i :: 0 <= i < n ==> IsSpace(s[i])
    ensures n < |s| ==> !IsSpace(s[n])
    decreases |s|
  {
    if |s| > 0 && IsSpace(s[0]) then 1 + LeadingSpaces(s[1..]) else 0
  }

  /** Number of trailing whitespace characters. */
  function TrailingSpaces(s: string): (n: nat)
    ensures n <= |s|
    ensures forall i :: |s| - n <= i < |s| ==> IsSpace(s[i])
    ensures n < |s| ==> !IsSpace(s[|s| - n - 1])
    decreases |s|
  {
    if |s| > 0 && IsSpace(s[|s| - 1]) then 1 + TrailingSpaces(s[..|s| - 1]) else 0
  }

  /** Rust `str::trim_end`. */
  function TrimEnd(s: string): string {
    s[..|s| - TrailingSpaces(s)]
  }

  /** Rust `str::trim`: leading and trailing whitespace removed. */
  function Trim(s: string): (r: string)
    ensures |r| > 0 ==> !IsSpace(r[0]) && !IsSpace(r[|r| - 1])
    ensures exists i :: TrimWindow(s, r, i)
  {
    var lead := LeadingSpaces(s);
    var rest := s[lead..];
    var r := TrimEnd(rest);
    assert s[lead..lead + |r|] == r;
    assert TrimWindow(s, r, lead);
    r
  }

  /** `r` sits at position `i` of `s` with only whitespace before and after it. */
  ghost predicate TrimWindow(s: string, r: string, i: int) {
    && 0 <= i && i + |r| <= |s| && s[i..i + |r|] == r
    && (forall k :: 0 <= k < i ==> IsSpace(s[k]))
    && (forall k :: i + |r| <= k < |s| ==> IsSpace(s[k]))
  }

  /** Number of trailing non-whitespace characters. */
  function TrailingWord(s: string): (n: nat)
    ensures n <= |s|
    ensures forall i :: |s| - n <= i < |s| ==> !IsSpace(s[i])
    ensures n < |s| ==> IsSpace(s[|s| - n - 1])
    decreases |s|
  {
    if |s| > 0 && !IsSpace(s[|s| - 1]) then 1 + TrailingWord(s[..|s| - 1]) else 0
  }

  /** The last whitespace-separated token (Rust `split_whitespace().last()`), or `""`. */
  function LastToken(s: string): (r: string)
    ensures forall ch :: ch in r ==> !IsSpace(ch)
    ensures r == "" <==> forall i :: 0 <= i < |s| ==> IsSpace(s[i])
    ensures EndsWith(TrimEnd(s), r)
    ensures |r| < |TrimEnd(s)| ==> IsSpace(TrimEnd(s)[|TrimEnd(s)| - |r| - 1])
  {
    var t := TrimEnd(s);
    var n := TrailingWord(t);
    var r := t[|t| - n..];
    assert r == "" ==> |t| == 0;
    assert |t| == 0 ==> forall i :: 0 <= i < |s| ==> IsSpace(s[i]);
    assert |t| > 0 ==> !IsSpace(s[|t| - 1]);
    r
  }

  /** A word of non-space characters after a space is the last token. */
  lemma LastTokenAfterSpace(head: string, word: string)
    requires word != "" && forall ch :: ch in word ==> !IsSpace(ch)
    ensures LastToken(head + " " + word) == word
  {
    var s := head + " " + word;
    assert s[|s| - 1] == word[|word| - 1];
    assert s[|s| - |word|..] == word;
    assert s[|s| - |word| - 1] == ' ';
    SuffixNoSpace(s, word);
    NothingTrailing(s);
    var r := LastToken(s);
    SuffixNoSpace(s, r);
    SameTokenLength(s, |word|, |r|);
  }

  /** The characters of a space-free suffix are not spaces, position by position. */
  lemma SuffixNoSpace(s: string, w: string)
    requires EndsWith(s, w) && forall ch :: ch in w ==> !IsSpace(ch)
    ensures forall i :: |s| - |w| <= i < |s| ==> !IsSpace(s[i])
  {
    forall i | |s| - |w| <= i < |s| ensures !IsSpace(s[i]) {
      assert s[i] == w[i - (|s| - |w|)];
    }
  }

  /** A string that does not end in whitespace is its own `TrimEnd`. */
  lemma NothingTrailing(s: string)
    requires |s| > 0 && !IsSpace(s[|s| - 1])
    ensures TrimEnd(s) == s
  {
  }

  /** Two runs of non-space characters ending `s`, each preceded by a space or the start
      of `s`, have the same length. */
  lemma SameTokenLength(s: string, n: nat, m: nat)
    requires n < |s| && m <= |s|
    requires forall i :: |s| - n <= i < |s| ==> !IsSpace(s[i])
    requires forall i :: |s| - m <= i < |s| ==> !IsSpace(s[i])
    requires IsSpace(s[|s| - n - 1]) && (m < |s| ==> IsSpace(s[|s| - m - 1]))
    ensures n == m
  {
  }

  /** Drop one trailing carriage return, as Rust `str::lines` does. */
  function StripCR(line: string): string {
    if |line| > 0 && line[|line| - 1] == '\r' then line[..|line| - 1] else line
  }

  /** Rust `str::lines`: pieces between line feeds, no final empty piece, `\r` stripped. */
  function Lines(s: string): (r: seq<string>)
    ensures forall i :: 0 <= i < |r| ==> '\n' !in r[i]
  {
    var parts := Split(s, '\n');
    var kept := if parts[|parts| - 1] == "" then parts[..|parts| - 1] else parts;
    seq(|kept|, i requires 0 <= i < |kept| => StripCR(kept[i]))
  }

  /** ASCII lower-casing of one character. */
  function LowerChar(ch: char): char {
    if 'A' <= ch <= 'Z' then (ch as int + 32) as char else ch
  }

  /** Lower-casing of every ASCII letter (Rust `str::to_lowercase` on ASCII text). */
  function ToLower(s: string): (r: string)
    ensures |r| == |s|
    ensures forall i :: 0 <= i < |s| ==> r[i] == LowerChar(s[i])
  {
    seq(|s|, i requires 0 <= i < |s| => LowerChar(s[i]))
  }

  /** Rust `str::trim_start_matches(c)`: every leading `c` removed. */
  function TrimStartChar(s: string, c: char): (r: string)
    ensures EndsWith(s, r)
    ensures |r| > 0 ==> r[0] != c
    ensures forall i :: 0 <= i < |s| - |r| ==> s[i] == c
    decreases |s|
  {
    if |s| > 0 && s[0] == c then TrimStartChar(s[1..], c) else s
  }

  /** Rust `str::trim_end_matches(c)`: every trailing `c` removed. */
  function TrimEndChar(s: string, c: char): (r: string)
    ensures StartsWith(s, r)
    ensures |r| > 0 ==> r[|r| - 1] != c
    ensures forall i :: |r| <= i < |s| ==> s[i] == c
    decreases |s|
  {
    if |s| > 0 && s[|s| - 1] == c then TrimEndChar(s[..|s| - 1], c) else s
  }

  /** Decimal rendering of a natural number (Rust `format!("{}", n)`). */
  function NatToString(n: nat): (r: string)
    ensures |r| > 0
    ensures forall i :: 0 <= i < |r| ==> '0' <= r[i] <= '9'
    ensures r[0] == '0' ==> n == 0
    decreases n
  {
    if n < 10 then [DigitChar(n)]
    else NatToString(n / 10) + [DigitChar(n % 10)]
  }

  function DigitChar(d: nat): (ch: char)
    requires d < 10
    ensures '0' <= ch <= '9'
    ensures (ch == '0') == (d == 0)
  {
    ((d + '0' as int) as char)
  }

  /** Value of a string of decimal digits. */
  function DigitsValue(s: string): nat
    requires forall i :: 0 <= i < |s| ==> '0' <= s[i] <= '9'
  {
    if |s| == 0 then 0
    else 10 * DigitsValue(s[..|s| - 1]) + (s[|s| - 1] as int - '0' as int)
  }

  /** Reading the decimal rendering back yields the number. */
  lemma {:induction false} NatToStringRoundTrip(n: nat)
    ensures DigitsValue(NatToString(n)) == n
    decreases n
  {
    if n >= 10 {
      NatToStringRoundTrip(n / 10);
      var r := NatToString(n);
      assert r[..|r| - 1] == NatToString(n / 10);
    }
  }
}
