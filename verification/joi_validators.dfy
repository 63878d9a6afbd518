/** The custom Joi validators of joiValidators.js: a single option and a comma-separated
    list of options. */
module JoiValidators {
  import opened Wrappers
  import opened Js

  /** The Joi error codes the custom validators and sanitizers raise. */
  datatype JoiError = StringBase | StringEmpty | AnyInvalid

  /** `validateOption(options)`: the value must be a non-empty string among the option
      values, and is then returned unchanged. */
  function ValidateOption(options: seq<string>, value: JsValue): (r: Result<string, JoiError>)
    ensures !value.Text? ==> r == Err(StringBase)
    ensures value == Text("") ==> r == Err(StringEmpty)
    ensures value.Text? && value.s != "" && value.s !in options ==> r == Err(AnyInvalid)
    ensures r.Ok? <==> value.Text? && value.s != "" && value.s in options
    ensures r.Ok? ==> value == Text(r.value)
  {
    match value
    case Text(s) =>
      if s == "" then Err(StringEmpty)
      else if s !in options then Err(AnyInvalid)
      else Ok(s)
    case _ => Err(StringBase)
  }

  predicate NoDuplicates(xs: seq<string>) {
    forall i, j :: 0 <= i < j < |xs| ==> xs[i] != xs[j]
  }

  /** The position of the first occurrence of `x` in `xs`. */
  function FirstIndex(xs: seq<string>, x: string): (i: nat)
    requires x in xs
    ensures i < |xs| && xs[i] == x
    ensures forall k :: 0 <= k < i ==> xs[k] != x
  {
    if xs[0] == x then 0
    else
      var j := FirstIndex(xs[1..], x);
      assert forall k :: 1 <= k < j + 1 ==> xs[k] == xs[1..][k - 1];
      j + 1
  }

  /** A position holding `x` with no `x` before it is the first occurrence. */
  lemma FirstIndexUnique(xs: seq<string>, x: string, i: nat)
    requires i < |xs| && xs[i] == x
    requires forall k :: 0 <= k < i ==> xs[k] != x
    ensures FirstIndex(xs, x) == i
  {
  }

  /** `[...new Set(xs)]`: every value once, at the place of its first occurrence. */
  function Dedup(xs: seq<string>): (r: seq<string>)
    ensures forall x :: x in r <==> x in xs
    ensures NoDuplicates(r)
    ensures |r| <= |xs|
  {
    if |xs| == 0 then []
    else
      var last := xs[|xs| - 1];
      var d := Dedup(xs[..|xs| - 1]);
      assert xs == xs[..|xs| - 1] + [last];
      if last in d then d else d + [last]
  }

  /** A value of the prefix has its first occurrence in the prefix. */
  lemma FirstIndexOfPrefix(xs: seq<string>, y: string)
    requires |xs| > 0 && y in xs[..|xs| - 1]
    ensures FirstIndex(xs, y) == FirstIndex(xs[..|xs| - 1], y) < |xs| - 1
  {
    var p := xs[..|xs| - 1];
    var k := FirstIndex(p, y);
    assert forall q :: 0 <= q < k ==> xs[q] == p[q];
    FirstIndexUnique(xs, y, k);
  }

  /** One more value is appended exactly when it is new. */
  lemma DedupSnoc(xs: seq<string>)
    requires |xs| > 0
    ensures var d := Dedup(xs[..|xs| - 1]);
      if xs[|xs| - 1] in d then Dedup(xs) == d else Dedup(xs) == d + [xs[|xs| - 1]]
  {
  }

  /** One pair of `r`, where `r` is `d` or `d` plus the new last value, and the pair's
      values in `d` come from the prefix in the order of their first occurrences. */
  lemma PairOrder(xs: seq<string>, d: seq<string>, r: seq<string>, i: nat, j: nat)
    requires |xs| > 0 && i < j < |r|
    requires r == d || (xs[|xs| - 1] !in xs[..|xs| - 1] && r == d + [xs[|xs| - 1]])
    requires i < |d| ==> d[i] in xs[..|xs| - 1]
    requires j < |d| ==> d[j] in xs[..|xs| - 1]
    requires j < |d| ==> FirstIndex(xs[..|xs| - 1], d[i]) < FirstIndex(xs[..|xs| - 1], d[j])
    ensures r[i] in xs && r[j] in xs && FirstIndex(xs, r[i]) < FirstIndex(xs, r[j])
  {
    var n := |xs|;
    var last := xs[n - 1];
    assert i < |d| && r[i] == d[i];
    FirstIndexOfPrefix(xs, d[i]);
    if j < |d| {
      assert r[j] == d[j];
      FirstIndexOfPrefix(xs, d[j]);
    } else {
      assert r == d + [last] && r[j] == last;
      assert forall q :: 0 <= q < n - 1 ==> xs[q] == xs[..n - 1][q];
      FirstIndexUnique(xs, last, n - 1);
    }
  }

  /** `Dedup` keeps the values in the order of their first occurrences. */
  lemma {:induction false} DedupOrder(xs: seq<string>)
    ensures forall i, j :: 0 <= i < j < |Dedup(xs)| ==>
      FirstIndex(xs, Dedup(xs)[i]) < FirstIndex(xs, Dedup(xs)[j])
  {
    if |xs| > 0 {
      var p := xs[..|xs| - 1];
      var d := Dedup(p);
      DedupOrder(p);
      DedupSnoc(xs);
      forall i, j | 0 <= i < j < |Dedup(xs)|
        ensures FirstIndex(xs, Dedup(xs)[i]) < FirstIndex(xs, Dedup(xs)[j])
      {
        if i < |d| {
          assert d[i] in d;
        }
        if j < |d| {
          assert d[j] in d;
        }
        PairOrder(xs, d, Dedup(xs), i, j);
      }
    }
  }

  /** The pieces of `value.split(',')`, each trimmed and lowercased. */
  function Pieces(s: string): (r: seq<string>)
    ensures |r| == |Split(s, ',')| == Count(s, ',') + 1
    ensures forall i :: 0 <= i < |r| ==> r[i] == Lower(Trim(Split(s, ',')[i]))
  {
    var parts := Split(s, ',');
    SplitLength(s, ',');
    seq(|parts|, i requires 0 <= i < |parts| => Lower(Trim(parts[i])))
  }

  predicate AllIn(vs: seq<string>, options: seq<string>) {
    forall v :: v in vs ==> v in options
  }

  /** The `for ... of` loop over the de-duplicated values: it stops at the first value
      that is not an option. */
  method EveryValueAllowed(values: seq<string>, options: seq<string>) returns (ok: bool)
    ensures ok <==> AllIn(values, options)
  {
    var i := 0;
    while i < |values|
      invariant 0 <= i <= |values|
      invariant forall k :: 0 <= k < i ==> values[k] in options
    {
      if values[i] !in options {
        assert values[i] in values;
        return false;
      }
      i := i + 1;
    }
    assert AllIn(values, options) by {
      forall v | v in values
        ensures v in options
      {
        var k :| 0 <= k < |values| && values[k] == v;
      }
    }
    return true;
  }

  /** `validateCommaSeparatedValues(options)`: a non-string fails with string.base; otherwise
      the trimmed, lowercased, de-duplicated pieces are checked one by one and the first one
      that is not an option fails with any.invalid. */
  method ValidateCommaSeparatedValues(options: seq<string>, value: JsValue)
    returns (r: Result<seq<string>, JoiError>)
    ensures !value.Text? ==> r == Err(StringBase)
    ensures value.Text? && AllIn(Dedup(Pieces(value.s)), options) ==> r == Ok(Dedup(Pieces(value.s)))
    ensures value.Text? && !AllIn(Dedup(Pieces(value.s)), options) ==> r == Err(AnyInvalid)
  {
    if !value.Text? {
      return Err(StringBase);
    }
    var values := Dedup(Pieces(value.s));
    var ok := EveryValueAllowed(values, options);
    if !ok {
      return Err(AnyInvalid);
    }
    return Ok(values);
  }

  /** What an accepted list holds: options only, each once, and exactly the values the
      pieces of the input lowercase and trim to. */
  lemma AcceptedList(options: seq<string>, s: string)
    requires AllIn(Dedup(Pieces(s)), options)
    ensures forall v :: v in Dedup(Pieces(s)) ==> v in options
    ensures NoDuplicates(Dedup(Pieces(s)))
    ensures forall i :: 0 <= i < |Split(s, ',')| ==> Lower(Trim(Split(s, ',')[i])) in Dedup(Pieces(s))
    ensures 1 <= |Dedup(Pieces(s))| <= Count(s, ',') + 1
  {
    var ps := Pieces(s);
    assert ps[0] in Dedup(ps);
    forall i | 0 <= i < |Split(s, ',')|
      ensures Lower(Trim(Split(s, ',')[i])) in Dedup(ps)
    {
      assert ps[i] in ps;
    }
  }
}
