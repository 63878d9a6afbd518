/** The parts of JavaScript's value model and `String.prototype` that the helpers and
    validators rely on, stated over `seq<char>`. */
module Js {
  import opened Wrappers

  /** A JavaScript value as the Joi helpers receive it. */
  datatype JsValue = Undefined | Null | Text(s: string) | Number(n: real) | Boolean(b: bool) | Composite

  /** The characters `\s` and `String.prototype.trim` treat as white space (WhiteSpace and
      LineTerminator of ECMA-262). */
  predicate IsWhitespace(c: char) {
    ('\t' <= c <= '\r') || c == ' ' || c == '\U{00A0}' || c == '\U{1680}'
    || ('\U{2000}' <= c <= '\U{200A}') || c == '\U{2028}' || c == '\U{2029}'
    || c == '\U{202F}' || c == '\U{205F}' || c == '\U{3000}' || c == '\U{FEFF}'
  }

  predicate AllWhitespace(s: string) {
    forall i :: 0 <= i < |s| ==> IsWhitespace(s[i])
  }

  /** How many white space characters `s` starts with. */
  function LeadingCount(s: string): (n: nat)
    ensures n <= |s|
    ensures forall i :: 0 <= i < n ==> IsWhitespace(s[i])
    ensures n < |s| ==> !IsWhitespace(s[n])
    decreases |s|
  {
    if |s| > 0 && IsWhitespace(s[0]) then
      var m := LeadingCount(s[1..]);
      assert forall i :: 1 <= i < m + 1 ==> s[i] == s[1..][i - 1];
      m + 1
    else 0
  }

  /** `trimStart`: drops the leading white space and nothing else. */
  function TrimStart(s: string): (r: string)
    ensures |r| <= |s| && r == s[|s| - |r|..]
    ensures AllWhitespace(s[..|s| - |r|])
    ensures r == [] || !IsWhitespace(r[0])
    ensures |s| > 0 && IsWhitespace(s[0]) ==> |r| < |s|
  {
    var n := LeadingCount(s);
    assert forall i :: 0 <= i < n ==> s[..n][i] == s[i];
    s[n..]
  }

  /** `trimEnd`: drops the trailing white space and nothing else. */
  function TrimEnd(s: string): (r: string)
    ensures |r| <= |s| && r == s[..|r|]
    ensures AllWhitespace(s[|r|..])
    ensures r == [] || !IsWhitespace(r[|r| - 1])
  {
    if |s| > 0 && IsWhitespace(s[|s| - 1]) then
      var r := TrimEnd(s[..|s| - 1]);
      TrimEndStep(s, r);
      r
    else s
  }

  /** A trailing white-space character joins the trimmed suffix of the rest. */
  lemma TrimEndStep(s: string, r: string)
    requires |s| > 0 && IsWhitespace(s[|s| - 1])
    requires |r| <= |s[..|s| - 1]| && r == s[..|s| - 1][..|r|]
    requires AllWhitespace(s[..|s| - 1][|r|..])
    ensures r == s[..|r|]
    ensures AllWhitespace(s[|r|..])
  {
    forall i | |r| <= i < |s|
      ensures IsWhitespace(s[i])
    {
      if i < |s| - 1 {
        assert s[i] == s[..|s| - 1][|r|..][i - |r|];
      }
    }
  }

  /** A slice holds no character its string does not. */
  lemma NotInSlice(s: string, c: char, a: nat, b: nat)
    requires c !in s && a <= b <= |s|
    ensures c !in s[a..b]
  {
    forall k | 0 <= k < b - a
      ensures s[a..b][k] != c
    {
      assert s[a..b][k] == s[a + k];
    }
  }

  /** Trimming brings in no character the string did not hold. */
  lemma TrimKeeps(s: string, c: char)
    requires c !in s
    ensures c !in Trim(s)
  {
    var t := TrimStart(s);
    NotInSlice(s, c, |s| - |t|, |s|);
    assert c !in t;
    var r := TrimEnd(t);
    NotInSlice(t, c, 0, |r|);
    assert Trim(s) == r;
  }

  /** `trim`. */
  function Trim(s: string): (r: string)
    ensures |r| <= |s|
    ensures r == [] || (!IsWhitespace(r[0]) && !IsWhitespace(r[|r| - 1]))
  {
    var t := TrimStart(s);
    var r := TrimEnd(t);
    TrimParts(s, t, r);
    r
  }

  /** What `trim` keeps is the window of `s` that starts where `trimStart` stopped, with
      only white space before and after it. */
  lemma TrimWindow(s: string)
    ensures var i := |s| - |TrimStart(s)|;
      i + |Trim(s)| <= |s| && Trim(s) == s[i..i + |Trim(s)|]
      && AllWhitespace(s[..i]) && AllWhitespace(s[i + |Trim(s)|..])
  {
    var t := TrimStart(s);
    var i := |s| - |t|;
    var r := TrimEnd(t);
    assert Trim(s) == r;
    assert s[i..i + |r|] == t[..|r|];
    assert s[i + |r|..] == t[|r|..];
  }

  /** What `trim` keeps starts where `trimStart` stopped and ends where `trimEnd` stopped. */
  lemma TrimParts(s: string, t: string, r: string)
    requires t == [] || !IsWhitespace(t[0])
    requires |r| <= |t| && r == t[..|r|]
    requires r == [] || !IsWhitespace(r[|r| - 1])
    ensures r == [] || (!IsWhitespace(r[0]) && !IsWhitespace(r[|r| - 1]))
  {
    if r != [] {
      assert r[0] == t[0];
    }
  }

  lemma {:induction false} TrimStartOfPadded(a: string, m: string)
    requires AllWhitespace(a)
    requires m == [] || !IsWhitespace(m[0])
    ensures TrimStart(a + m) == m
  {
    if |a| > 0 {
      assert (a + m)[1..] == a[1..] + m;
      TrimStartOfPadded(a[1..], m);
    } else {
      assert a + m == m;
    }
  }

  lemma {:induction false} TrimEndOfPadded(m: string, b: string)
    requires AllWhitespace(b)
    requires m == [] || !IsWhitespace(m[|m| - 1])
    ensures TrimEnd(m + b) == m
  {
    if |b| > 0 {
      assert (m + b)[..|m + b| - 1] == m + b[..|b| - 1];
      TrimEndOfPadded(m, b[..|b| - 1]);
    } else {
      assert m + b == m;
    }
  }

  /** Trimming a string padded with white space on both sides gives back the core, whenever
      the core neither starts nor ends with white space. */
  lemma TrimOfPadded(a: string, m: string, b: string)
    requires AllWhitespace(a) && AllWhitespace(b)
    requires m == [] || (!IsWhitespace(m[0]) && !IsWhitespace(m[|m| - 1]))
    ensures Trim(a + m + b) == m
  {
    if m == [] {
      assert a + m + b == a + b;
      assert AllWhitespace(a + b);
      TrimStartOfPadded(a + b, []);
      assert a + b + [] == a + b;
    } else {
      assert a + m + b == a + (m + b);
      TrimStartOfPadded(a, m + b);
    }
    TrimEndOfPadded(m, b);
  }

  /** `toLowerCase` on one character (ASCII letters; other characters are kept). */
  function LowerChar(c: char): char {
    if 'A' <= c <= 'Z' then (c as int + 32) as char else c
  }

  /** `toUpperCase` on one character (ASCII letters; other characters are kept). */
  function UpperChar(c: char): char {
    if 'a' <= c <= 'z' then (c as int - 32) as char else c
  }

  function Lower(s: string): (r: string)
    ensures |r| == |s|
    ensures forall i :: 0 <= i < |s| ==> r[i] == LowerChar(s[i])
  {
    seq(|s|, i requires 0 <= i < |s| => LowerChar(s[i]))
  }

  /** Number of occurrences of `c` in `s`. */
  function Count(s: string, c: char): nat {
    if |s| == 0 then 0 else (if s[0] == c then 1 else 0) + Count(s[1..], c)
  }

  /** `indexOf` for one character. */
  function IndexOfChar(s: string, c: char): (r: Option<nat>)
    ensures r.Some? ==> r.value < |s| && s[r.value] == c && c !in s[..r.value]
    ensures r.None? ==> c !in s
  {
    if |s| == 0 then None
    else if s[0] == c then Some(0)
    else
      var k := IndexOfChar(s[1..], c);
      if k.None? then None
      else
        assert s[..k.value + 1] == [s[0]] + s[1..][..k.value];
        Some(k.value + 1)
  }

  /** `split(sep)` with a one-character separator: the pieces between separators. */
  function Split(s: string, sep: char): (r: seq<string>)
    ensures |r| >= 1
    ensures forall p :: p in r ==> sep !in p
    decreases |s|
  {
    match IndexOfChar(s, sep)
    case None => [s]
    case Some(i) => [s[..i]] + Split(s[i + 1..], sep)
  }

  /** `xs.join(sep)`. */
  function Join(xs: seq<string>, sep: string): string {
    if |xs| == 0 then ""
    else if |xs| == 1 then xs[0]
    else xs[0] + sep + Join(xs[1..], sep)
  }

  lemma {:induction false} CountConcat(a: string, b: string, c: char)
    ensures Count(a + b, c) == Count(a, c) + Count(b, c)
  {
    if |a| > 0 {
      assert (a + b)[1..] == a[1..] + b;
      CountConcat(a[1..], b, c);
    } else {
      assert a + b == b;
    }
  }

  lemma {:induction false} CountAbsent(s: string, c: char)
    requires c !in s
    ensures Count(s, c) == 0
  {
    if |s| > 0 {
      assert s[0] != c;
      assert forall x :: x in s[1..] ==> x in s;
      CountAbsent(s[1..], c);
    }
  }

  /** `split` gives one more piece than there are separators. */
  lemma {:induction false} SplitLength(s: string, sep: char)
    ensures |Split(s, sep)| == Count(s, sep) + 1
    decreases |s|
  {
    match IndexOfChar(s, sep)
    case None =>
      CountAbsent(s, sep);
    case Some(i) =>
      SplitLength(s[i + 1..], sep);
      assert s == s[..i] + ([sep] + s[i + 1..]);
      CountConcat(s[..i], [sep] + s[i + 1..], sep);
      CountConcat([sep], s[i + 1..], sep);
      CountAbsent(s[..i], sep);
  }

  /** Joining the pieces of a split with the separator gives back the string. */
  lemma {:induction false} JoinSplit(s: string, sep: char)
    ensures Join(Split(s, sep), [sep]) == s
    decreases |s|
  {
    match IndexOfChar(s, sep)
    case None =>
    case Some(i) =>
      JoinSplit(s[i + 1..], sep);
      var rest := Split(s[i + 1..], sep);
      assert Split(s, sep) == [s[..i]] + rest;
      JoinCons(s[..i], rest, [sep]);
      assert s == s[..i] + [sep] + s[i + 1..];
  }

  /** Joining a piece in front of at least one more. */
  lemma JoinCons(x: string, rest: seq<string>, sep: string)
    requires |rest| >= 1
    ensures Join([x] + rest, sep) == x + sep + Join(rest, sep)
  {
    assert ([x] + rest)[1..] == rest;
  }

  lemma {:induction false} JoinSnoc(xs: seq<string>, x: string, sep: string)
    requires |xs| >= 1
    ensures Join(xs + [x], sep) == Join(xs, sep) + sep + x
  {
    if |xs| == 1 {
      assert (xs + [x])[1..] == [x];
    } else {
      assert (xs + [x])[1..] == xs[1..] + [x];
      JoinSnoc(xs[1..], x, sep);
    }
  }

  /** `pat` occurs in `s` at position `i`. */
  predicate OccursAt(s: string, pat: string, i: int) {
    0 <= i && i + |pat| <= |s| && s[i..i + |pat|] == pat
  }

  function IndexFrom(s: string, pat: string, k: nat): (r: Option<nat>)
    requires k <= |s| + 1
    ensures r.Some? ==> k <= r.value && OccursAt(s, pat, r.value)
    ensures r.Some? ==> forall j :: k <= j < r.value ==> !OccursAt(s, pat, j)
    ensures r.None? ==> forall j :: k <= j <= |s| ==> !OccursAt(s, pat, j)
    decreases |s| + 1 - k
  {
    if k + |pat| > |s| then None
    else if s[k..k + |pat|] == pat then Some(k)
    else IndexFrom(s, pat, k + 1)
  }

  /** `indexOf(pat)`: the first position where `pat` occurs (0 for the empty pattern). */
  function IndexOf(s: string, pat: string): (r: Option<nat>)
    ensures r.Some? ==> OccursAt(s, pat, r.value)
    ensures r.Some? ==> forall j :: 0 <= j < r.value ==> !OccursAt(s, pat, j)
    ensures r.None? ==> forall j :: 0 <= j <= |s| ==> !OccursAt(s, pat, j)
  {
    IndexFrom(s, pat, 0)
  }

  /** `s.replace(pat, rep)` with a string pattern: only the first occurrence is replaced. */
  function ReplaceFirst(s: string, pat: string, rep: string): string {
    match IndexOf(s, pat)
    case None => s
    case Some(i) => s[..i] + rep + s[i + |pat|..]
  }
}
