/** The string functions of the catalogue whose documentation fixes their
    behaviour exactly. Strings are sequences of code points, indices are
    zero based, and an end index is exclusive. */
module StringFunctions {
  import opened Types

  /** `t` occurs in `s` starting at index `i`. */
  predicate OccursAt(s: string, t: string, i: int) {
    0 <= i && i + |t| <= |s| && s[i..i + |t|] == t
  }

  // ---------------------------------------------------------------- strIndexOf

  /** `strIndexOf(s, t)`: the first index at which `t` occurs in `s`, or -1. */
  function IndexOf(s: string, t: string): (r: int)
    ensures r == -1 <==> forall i :: !OccursAt(s, t, i)
    ensures r != -1 ==> OccursAt(s, t, r) && forall i :: 0 <= i < r ==> !OccursAt(s, t, i)
  {
    IndexFrom(s, t, 0)
  }

  /** The first occurrence of `t` in `s` at or after `from`, or -1. */
  function IndexFrom(s: string, t: string, from: nat): (r: int)
    ensures r == -1 <==> forall i :: from <= i ==> !OccursAt(s, t, i)
    ensures r != -1 ==> from <= r && OccursAt(s, t, r)
    ensures r != -1 ==> forall i :: from <= i < r ==> !OccursAt(s, t, i)
    decreases |s| - from
  {
    if from + |t| > |s| then -1
    else if s[from..from + |t|] == t then assert OccursAt(s, t, from); from
    else IndexFrom(s, t, from + 1)
  }

  // ------------------------------------------------------------ strLastIndexOf

  /** `strLastIndexOf(s, t)`: the last index at which `t` occurs in `s`, or -1. */
  function LastIndexOf(s: string, t: string): (r: int)
    ensures r == -1 <==> forall i :: !OccursAt(s, t, i)
    ensures r != -1 ==> OccursAt(s, t, r) && forall i :: r < i ==> !OccursAt(s, t, i)
  {
    if |t| > |s| then -1 else LastIndexDownFrom(s, t, |s| - |t|)
  }

  /** The last occurrence of `t` in `s` at or before `from`, or -1. */
  function LastIndexDownFrom(s: string, t: string, from: int): (r: int)
    requires from + |t| <= |s|
    ensures r == -1 <==> forall i :: i <= from ==> !OccursAt(s, t, i)
    ensures r != -1 ==> 0 <= r <= from && OccursAt(s, t, r)
    ensures r != -1 ==> forall i :: r < i <= from ==> !OccursAt(s, t, i)
    decreases from + 1
  {
    if from < 0 then -1
    else if s[from..from + |t|] == t then assert OccursAt(s, t, from); from
    else LastIndexDownFrom(s, t, from - 1)
  }

  /** The two searches agree on whether `t` occurs, the first occurrence is not
      after the last one, and the empty string is found at both ends. */
  lemma IndexOfLastIndexOfAgree(s: string, t: string)
    ensures IndexOf(s, t) == -1 <==> LastIndexOf(s, t) == -1
    ensures IndexOf(s, t) <= LastIndexOf(s, t)
    ensures IndexOf(s, t) == LastIndexOf(s, t) ==> forall i :: OccursAt(s, t, i) ==> i == IndexOf(s, t)
    ensures IndexOf(s, "") == 0 && LastIndexOf(s, "") == |s|
  {
    assert OccursAt(s, "", 0);
    assert OccursAt(s, "", |s|);
  }

  // ------------------------------------------------- strStartsWith, strEndsWith

  /** `strStartsWith(s, p)`. */
  predicate StartsWith(s: string, p: string) {
    |p| <= |s| && s[..|p|] == p
  }

  /** `strEndsWith(s, x)`. */
  predicate EndsWith(s: string, x: string) {
    |x| <= |s| && s[|s| - |x|..] == x
  }

  /** `s` starts with `p` exactly when `s` is `p` followed by something, and
      exactly when the first occurrence of `p` in `s` is at index 0. */
  lemma StartsWithIff(s: string, p: string)
    ensures StartsWith(s, p) <==> exists rest :: s == p + rest
    ensures StartsWith(s, p) <==> IndexOf(s, p) == 0
  {
    if StartsWith(s, p) {
      assert s == p + s[|p|..];
      assert OccursAt(s, p, 0);
    }
    if IndexOf(s, p) == 0 {
      assert OccursAt(s, p, 0);
    }
  }

  /** `s` ends with `x` exactly when `s` is something followed by `x`, and
      exactly when `x` occurs in `s` at index `|s| - |x|`, where the last
      occurrence of `x` is then found. */
  lemma EndsWithIff(s: string, x: string)
    ensures EndsWith(s, x) <==> exists front :: s == front + x
    ensures EndsWith(s, x) <==> OccursAt(s, x, |s| - |x|)
    ensures EndsWith(s, x) ==> LastIndexOf(s, x) == |s| - |x|
  {
    if EndsWith(s, x) {
      assert s == s[..|s| - |x|] + x;
      assert OccursAt(s, x, |s| - |x|);
    }
    forall front | s == front + x
      ensures EndsWith(s, x)
    {
      assert s[|s| - |x|..] == x;
    }
  }

  // ------------------------------------------ strSubstring, strSubstringStart

  /** `strSubstring(s, begin, end)`: the characters from `begin` up to but not
      including `end`; no result when the indices do not satisfy
      0 <= begin <= end <= |s|. */
  function Substring(s: string, begin: int, end: int): (r: Option<string>)
    ensures r.Some? <==> 0 <= begin <= end <= |s|
    ensures r.Some? ==> |r.value| == end - begin
    ensures r.Some? ==> forall k :: 0 <= k < |r.value| ==> r.value[k] == s[begin + k]
  {
    if 0 <= begin <= end <= |s| then Some(s[begin..end]) else None
  }

  /** `strSubstringStart(s, begin)`: the characters from `begin` to the end;
      no result when `begin` is outside 0 <= begin <= |s|. */
  function SubstringStart(s: string, begin: int): (r: Option<string>)
    ensures r.Some? <==> 0 <= begin <= |s|
    ensures r.Some? ==> s[..begin] + r.value == s
  {
    if 0 <= begin <= |s| then
      assert s[..begin] + s[begin..] == s;
      Some(s[begin..])
    else None
  }

  /** The open-ended form is the bounded form with the string's length as end,
      and the two halves cut at one index put the string back together. */
  lemma SubstringStartIsSubstringToEnd(s: string, begin: int)
    ensures SubstringStart(s, begin) == Substring(s, begin, |s|)
    ensures 0 <= begin <= |s| ==> Substring(s, 0, begin).value + SubstringStart(s, begin).value == s
  {
    if 0 <= begin <= |s| {
      assert SubstringStart(s, begin) == Some(s[begin..]);
      assert Substring(s, begin, |s|) == Some(s[begin..|s|]);
      assert s[begin..|s|] == s[begin..];
      assert s[..begin] + s[begin..] == s;
    }
  }

  /** A substring occurs in its string at its begin index. */
  lemma SubstringOccurs(s: string, begin: int, end: int)
    requires Substring(s, begin, end).Some?
    ensures OccursAt(s, Substring(s, begin, end).value, begin)
    ensures IndexOf(s, Substring(s, begin, end).value) <= begin <= LastIndexOf(s, Substring(s, begin, end).value)
  {
    assert OccursAt(s, Substring(s, begin, end).value, begin);
  }

  // ----------------------------------------------------------------- strConcat

  /** `strConcat(s0, …, sn)`: the strings joined in order. */
  function Concat(xs: seq<string>): string {
    if |xs| == 0 then "" else xs[0] + Concat(xs[1..])
  }

  /** Sum of the lengths of a list of strings. */
  function TotalLength(xs: seq<string>): nat {
    if |xs| == 0 then 0 else |xs[|xs| - 1]| + TotalLength(xs[..|xs| - 1])
  }

  /** Joining distributes over splitting the list, joins two strings as `+`
      does, and keeps every character: the result is as long as all inputs
      together. */
  lemma {:induction false} ConcatAppend(xs: seq<string>, ys: seq<string>)
    ensures Concat(xs + ys) == Concat(xs) + Concat(ys)
    decreases |xs|
  {
    if |xs| == 0 {
      assert xs + ys == ys;
    } else {
      assert (xs + ys)[1..] == xs[1..] + ys;
      ConcatAppend(xs[1..], ys);
    }
  }

  lemma {:induction false} ConcatLength(xs: seq<string>)
    ensures |Concat(xs)| == TotalLength(xs)
    ensures |xs| == 2 ==> Concat(xs) == xs[0] + xs[1]
    decreases |xs|
  {
    if |xs| > 0 {
      var front := xs[..|xs| - 1];
      assert xs == front + [xs[|xs| - 1]];
      ConcatAppend(front, [xs[|xs| - 1]]);
      assert Concat([xs[|xs| - 1]]) == xs[|xs| - 1] + Concat([]);
      ConcatLength(front);
    }
    if |xs| == 2 {
      assert xs[1..][1..] == [];
    }
  }

  // ---------------------------------------------------------------- strLength

  /** `strLength(s)`: the number of code points. It is the last index at which
      the empty string occurs, the end index that takes the whole string, and
      the begin index that leaves nothing. */
  function Length(s: string): (n: nat)
    ensures LastIndexOf(s, "") == n
    ensures Substring(s, 0, n) == Some(s)
    ensures SubstringStart(s, n) == Some("")
  {
    assert OccursAt(s, "", |s|);
    assert s[0..|s|] == s;
    |s|
  }

  /** `strLength` of a `strConcat` result is the sum of the arguments' lengths. */
  lemma {:induction false} LengthOfConcat(xs: seq<string>)
    ensures Length(Concat(xs)) == TotalLength(xs)
  {
    ConcatLength(xs);
  }

  // ------------------------------------------------- strTrim, strDefaultIfBlank

  /** A blank character: space, tab, line feed, vertical tab, form feed or
      carriage return. */
  predicate IsBlankChar(c: char) {
    c == ' ' || c == '\t' || c == '\n' || c == '\U{B}' || c == '\U{C}' || c == '\r'
  }

  /** Empty or made of blank characters only. */
  predicate IsBlank(s: string) {
    forall i :: 0 <= i < |s| ==> IsBlankChar(s[i])
  }

  /** `s` without its leading blank characters. */
  function TrimStart(s: string): (r: string)
    ensures |r| <= |s| && r == s[|s| - |r|..]
    ensures IsBlank(s[..|s| - |r|])
    ensures r == [] || !IsBlankChar(r[0])
  {
    if |s| > 0 && IsBlankChar(s[0]) then
      var r := TrimStart(s[1..]);
      assert s[..|s| - |r|] == [s[0]] + s[1..][..|s| - 1 - |r|];
      r
    else s
  }

  /** `s` without its trailing blank characters. */
  function TrimEnd(s: string): (r: string)
    ensures |r| <= |s| && r == s[..|r|]
    ensures IsBlank(s[|r|..])
    ensures r == [] || !IsBlankChar(r[|r| - 1])
  {
    if |s| > 0 && IsBlankChar(s[|s| - 1]) then
      var r := TrimEnd(s[..|s| - 1]);
      assert s[|r|..] == s[..|s| - 1][|r|..] + [s[|s| - 1]];
      r
    else s
  }

  /** `strTrim(s)`: `s` with leading and trailing blank characters removed.
      The result is a contiguous part of `s`, everything cut off is blank, and
      the result neither starts nor ends with a blank character. */
  function Trim(s: string): (r: string)
    ensures exists a, b :: 0 <= a <= b <= |s| && r == s[a..b] && IsBlank(s[..a]) && IsBlank(s[b..])
    ensures r == [] || (!IsBlankChar(r[0]) && !IsBlankChar(r[|r| - 1]))
  {
    var t := TrimStart(s);
    var r := TrimEnd(t);
    var a := |s| - |t|;
    assert r == s[a..a + |r|];
    assert s[a + |r|..] == t[|r|..];
    r
  }

  /** Trimming twice trims no more than trimming once. */
  lemma TrimIdempotent(s: string)
    ensures Trim(Trim(s)) == Trim(s)
  {
    var r := Trim(s);
    assert TrimStart(r) == r;
    assert TrimEnd(r) == r;
  }

  /** Only an empty or blank string trims down to nothing. */
  lemma TrimEmptyIffBlank(s: string)
    ensures Trim(s) == "" <==> IsBlank(s)
  {
    var r := Trim(s);
    var a, b :| 0 <= a <= b <= |s| && r == s[a..b] && IsBlank(s[..a]) && IsBlank(s[b..]);
    if r == "" {
      forall i | 0 <= i < |s| ensures IsBlankChar(s[i]) {
        if i < a { assert s[i] == s[..a][i]; } else { assert s[i] == s[b..][i - b]; }
      }
    } else {
      assert !IsBlankChar(s[a..b][0]);
    }
  }

  /** `strDefaultIfBlank(s, d)`: `d` when `s` is empty or blank, `s` otherwise. */
  function DefaultIfBlank(s: string, d: string): (r: string)
    ensures r == s || r == d
    ensures r == d <== Trim(s) == ""
    ensures r == s <== Trim(s) != ""
  {
    TrimEmptyIffBlank(s);
    if IsBlank(s) then d else s
  }

  // -------------------------------------------------------------- parseBoolean

  /** `parseBoolean(s)`: false for the empty string, "f", "0.0" and "0";
      true for every other string. */
  function ParseBoolean(s: string): bool {
    !(s == "" || s == "f" || s == "0.0" || s == "0")
  }

  /** The false forms, character by character: the comparison is exact and
      case sensitive, so "F", "false", "FALSE", "0.00" and " 0" all parse as true. */
  lemma ParseBooleanFalseForms(s: string)
    ensures !ParseBoolean(s) <==>
      || |s| == 0
      || (|s| == 1 && (s[0] == 'f' || s[0] == '0'))
      || (|s| == 3 && s[0] == '0' && s[1] == '.' && s[2] == '0')
    ensures ParseBoolean("F") && ParseBoolean("false") && ParseBoolean("FALSE")
    ensures ParseBoolean("0.00") && ParseBoolean(" 0") && ParseBoolean("1") && ParseBoolean("t")
  {
    if |s| == 1 && (s[0] == 'f' || s[0] == '0') {
      assert s == [s[0]];
    }
    if |s| == 3 && s[0] == '0' && s[1] == '.' && s[2] == '0' {
      assert s == [s[0], s[1], s[2]];
    }
  }

  // ------------------------------------------------------------------------ in

  /** `in(x, c1, …, cn)`: whether the first string equals one of the rest. */
  function In(xs: seq<string>): bool {
    |xs| > 0 && AmongFrom(xs[0], xs, 1)
  }

  /** Whether `x` equals one of `xs[from..]`. */
  function AmongFrom(x: string, xs: seq<string>, from: nat): bool
    decreases |xs| - from
  {
    from < |xs| && (xs[from] == x || AmongFrom(x, xs, from + 1))
  }

  /** `in` holds exactly when some later argument equals the first one; with
      no candidates it is false. */
  lemma {:induction false} InIff(xs: seq<string>)
    ensures In(xs) <==> exists j :: 1 <= j < |xs| && xs[j] == xs[0]
    ensures |xs| <= 1 ==> !In(xs)
  {
    if |xs| > 0 {
      AmongFromIff(xs[0], xs, 1);
    }
  }

  lemma {:induction false} AmongFromIff(x: string, xs: seq<string>, from: nat)
    ensures AmongFrom(x, xs, from) <==> exists j :: from <= j < |xs| && xs[j] == x
    decreases |xs| - from
  {
    if from < |xs| {
      AmongFromIff(x, xs, from + 1);
    }
  }
}
