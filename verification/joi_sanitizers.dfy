/** The Joi sanitizers of joiSanitizers.js: stripping empty fields and the unused discount
    field from a request object, collapsing white space, and splitting a comma list. */
module JoiSanitizers {
  import opened Wrappers
  import opened Js
  import opened JoiValidators

  /** A plain request object whose keys the sanitizers delete in place. */
  class JsObject {
    var fields: map<string, JsValue>

    constructor (fields: map<string, JsValue>)
      ensures this.fields == fields
    {
      this.fields := fields;
    }
  }

  /** `undefined`, `null` or `''`. */
  predicate IsEmptyValue(v: JsValue) {
    v.Undefined? || v.Null? || v == Text("")
  }

  /** The object `stripEmptyFields` leaves: exactly the keys whose value is not empty, each
      with its value. */
  function NonEmptyFields(m: map<string, JsValue>): (r: map<string, JsValue>)
    ensures forall k :: k in r <==> k in m && !IsEmptyValue(m[k])
    ensures forall k :: k in r ==> r[k] == m[k]
  {
    map k | k in m && !IsEmptyValue(m[k]) :: m[k]
  }

  /** No empty value survives, and stripping again changes nothing. */
  lemma NonEmptyFieldsIdempotent(m: map<string, JsValue>)
    ensures forall k :: k in NonEmptyFields(m) ==> !IsEmptyValue(NonEmptyFields(m)[k])
    ensures NonEmptyFields(NonEmptyFields(m)) == NonEmptyFields(m)
  {
  }

  /** `stripEmptyFields`: the `for ... in` loop deleting each empty key. */
  method StripEmptyFields(obj: JsObject)
    modifies obj
    ensures obj.fields == NonEmptyFields(old(obj.fields))
  {
    ghost var orig := obj.fields;
    var keys := obj.fields.Keys;
    while keys != {}
      invariant keys <= orig.Keys
      invariant forall k :: k in obj.fields <==> k in orig && (k in keys || !IsEmptyValue(orig[k]))
      invariant forall k :: k in obj.fields ==> obj.fields[k] == orig[k]
      decreases keys
    {
      var k :| k in keys;
      if IsEmptyValue(obj.fields[k]) {
        obj.fields := obj.fields - {k};
      }
      keys := keys - {k};
    }
  }

  /** The object `stripDiscountValue` leaves: without `percentageDiscount` for a flat
      discount, without `flatDiscount` for anything else. */
  function WithoutUnusedDiscount(m: map<string, JsValue>): (r: map<string, JsValue>)
    ensures "discountType" in m && m["discountType"] == Text("flat") ==>
      "percentageDiscount" !in r && ("flatDiscount" in m ==> "flatDiscount" in r)
    ensures !("discountType" in m && m["discountType"] == Text("flat")) ==> "flatDiscount" !in r
    ensures forall k :: k in r ==> k in m && r[k] == m[k]
    ensures forall k :: k in m && k != "percentageDiscount" && k != "flatDiscount" ==> k in r
  {
    if "discountType" in m && m["discountType"] == Text("flat") then m - {"percentageDiscount"}
    else m - {"flatDiscount"}
  }

  /** `stripDiscountValue`. */
  method StripDiscountValue(obj: JsObject)
    modifies obj
    ensures obj.fields == WithoutUnusedDiscount(old(obj.fields))
  {
    if "discountType" in obj.fields && obj.fields["discountType"] == Text("flat") {
      obj.fields := obj.fields - {"percentageDiscount"};
    } else {
      obj.fields := obj.fields - {"flatDiscount"};
    }
  }

  /** After stripping, at most one of the two discount fields is left, and stripping again
      changes nothing. */
  lemma WithoutUnusedDiscountFacts(m: map<string, JsValue>)
    ensures !("percentageDiscount" in WithoutUnusedDiscount(m) && "flatDiscount" in WithoutUnusedDiscount(m))
    ensures WithoutUnusedDiscount(WithoutUnusedDiscount(m)) == WithoutUnusedDiscount(m)
  {
  }

  predicate NoAdjacentWhitespace(s: string) {
    forall i :: 0 <= i < |s| - 1 ==> !(IsWhitespace(s[i]) && IsWhitespace(s[i + 1]))
  }

  /** Every white space character is a plain space. */
  predicate OnlySpaces(s: string) {
    forall i :: 0 <= i < |s| && IsWhitespace(s[i]) ==> s[i] == ' '
  }

  /** The characters of `s` that are not white space, in order. */
  function NonWhitespace(s: string): string {
    if |s| == 0 then ""
    else if IsWhitespace(s[0]) then NonWhitespace(s[1..])
    else [s[0]] + NonWhitespace(s[1..])
  }

  /** `s.replace(/\s+/g, ' ')`: every maximal run of white space becomes one space. */
  function CollapseWhitespace(s: string): (r: string)
    ensures r == [] <==> s == []
    ensures |s| > 0 && IsWhitespace(s[0]) ==> r[0] == ' '
    ensures |s| > 0 && !IsWhitespace(s[0]) ==> r[0] == s[0]
    decreases |s|
  {
    if |s| == 0 then ""
    else if IsWhitespace(s[0]) then
      [' '] + CollapseWhitespace(TrimStart(s))
    else
      [s[0]] + CollapseWhitespace(s[1..])
  }

  /** A character put in front of a collapsed string keeps it collapsed, when it is not
      white space or is a space before a character that is not. */
  lemma PrependKeepsCollapsed(c: char, t: string)
    requires NoAdjacentWhitespace(t) && OnlySpaces(t)
    requires IsWhitespace(c) ==> c == ' ' && (t == [] || !IsWhitespace(t[0]))
    ensures NoAdjacentWhitespace([c] + t) && OnlySpaces([c] + t)
  {
    var u := [c] + t;
    forall i | 0 <= i < |u| - 1
      ensures !(IsWhitespace(u[i]) && IsWhitespace(u[i + 1]))
    {
      if i > 0 {
        assert u[i] == t[i - 1] && u[i + 1] == t[i];
      }
    }
    forall i | 0 <= i < |u| && IsWhitespace(u[i])
      ensures u[i] == ' '
    {
      if i > 0 {
        assert u[i] == t[i - 1];
      }
    }
  }

  /** The collapse has no two adjacent white space characters, and its only white space is
      the plain space. */
  lemma {:induction false} CollapseShape(s: string)
    ensures NoAdjacentWhitespace(CollapseWhitespace(s)) && OnlySpaces(CollapseWhitespace(s))
    decreases |s|
  {
    if |s| > 0 {
      if IsWhitespace(s[0]) {
        var rest := TrimStart(s);
        CollapseShape(rest);
        PrependKeepsCollapsed(' ', CollapseWhitespace(rest));
      } else {
        CollapseShape(s[1..]);
        PrependKeepsCollapsed(s[0], CollapseWhitespace(s[1..]));
      }
    }
  }

  /** The rest of a collapsed string is collapsed. */
  lemma CollapsedTail(s: string)
    requires |s| > 0 && NoAdjacentWhitespace(s) && OnlySpaces(s)
    ensures NoAdjacentWhitespace(s[1..]) && OnlySpaces(s[1..])
  {
    var t := s[1..];
    forall i | 0 <= i < |t| - 1
      ensures !(IsWhitespace(t[i]) && IsWhitespace(t[i + 1]))
    {
      assert t[i] == s[i + 1] && t[i + 1] == s[i + 2];
    }
    forall i | 0 <= i < |t| && IsWhitespace(t[i])
      ensures t[i] == ' '
    {
      assert t[i] == s[i + 1];
    }
  }

  /** A collapsed string that starts with white space starts with one space, and the rest
      does not start with white space. */
  lemma CollapsedHead(s: string)
    requires |s| > 0 && NoAdjacentWhitespace(s) && OnlySpaces(s) && IsWhitespace(s[0])
    ensures s[0] == ' ' && TrimStart(s) == s[1..]
  {
    assert |s| == 1 || !IsWhitespace(s[1]);
    assert [s[0]] + s[1..] == s;
    assert AllWhitespace([s[0]]);
    TrimStartOfPadded([s[0]], s[1..]);
  }

  /** The last step of `CollapseFixed`: the first character survives the collapse. */
  lemma CollapseFixedStep(s: string)
    requires |s| > 0 && CollapseWhitespace(s[1..]) == s[1..]
    requires IsWhitespace(s[0]) ==> s[0] == ' ' && TrimStart(s) == s[1..]
    ensures CollapseWhitespace(s) == s
  {
    assert s == [s[0]] + s[1..];
  }

  /** A string that is already collapsed is its own collapse. */
  lemma {:induction false} CollapseFixed(s: string)
    requires NoAdjacentWhitespace(s) && OnlySpaces(s)
    ensures CollapseWhitespace(s) == s
    decreases |s|
  {
    if |s| > 0 {
      CollapsedTail(s);
      CollapseFixed(s[1..]);
      if IsWhitespace(s[0]) {
        CollapsedHead(s);
      }
      CollapseFixedStep(s);
    }
  }

  /** Collapsing is idempotent. */
  lemma CollapseIdempotent(s: string)
    ensures CollapseWhitespace(CollapseWhitespace(s)) == CollapseWhitespace(s)
  {
    CollapseShape(s);
    CollapseFixed(CollapseWhitespace(s));
  }

  lemma {:induction false} NonWhitespaceOfWhitespace(a: string, b: string)
    requires AllWhitespace(a)
    ensures NonWhitespace(a + b) == NonWhitespace(b)
    decreases |a|
  {
    if |a| > 0 {
      assert (a + b)[1..] == a[1..] + b;
      NonWhitespaceOfWhitespace(a[1..], b);
    } else {
      assert a + b == b;
    }
  }

  /** Collapsing keeps every character that is not white space, in order. */
  lemma {:induction false} CollapseKeepsContent(s: string)
    ensures NonWhitespace(CollapseWhitespace(s)) == NonWhitespace(s)
    decreases |s|
  {
    if |s| > 0 {
      if IsWhitespace(s[0]) {
        var rest := TrimStart(s);
        var i := |s| - |rest|;
        assert s == s[..i] + rest;
        NonWhitespaceOfWhitespace(s[..i], rest);
        CollapseKeepsContent(rest);
        var t := CollapseWhitespace(rest);
        assert ([' '] + t)[1..] == t;
      } else {
        CollapseKeepsContent(s[1..]);
        assert ([s[0]] + CollapseWhitespace(s[1..]))[1..] == CollapseWhitespace(s[1..]);
      }
    }
  }

  /** `removeExtraInnerSpaces`. */
  function RemoveExtraInnerSpaces(value: JsValue): (r: Result<string, JoiError>)
    ensures !value.Text? ==> r == Err(StringBase)
    ensures value == Text("") ==> r == Err(StringEmpty)
    ensures r.Ok? ==> value.Text? && r.value == CollapseWhitespace(value.s) && r.value != ""
    ensures r.Ok? <==> value.Text? && value.s != ""
  {
    match value
    case Text(s) => if s == "" then Err(StringEmpty) else Ok(CollapseWhitespace(s))
    case _ => Err(StringBase)
  }

  /** The trimmed pieces of `value.split(',')`. */
  function TrimmedPieces(s: string): (r: seq<string>)
    ensures |r| == |Split(s, ',')| == Count(s, ',') + 1
    ensures forall i :: 0 <= i < |r| ==> r[i] == Trim(Split(s, ',')[i])
  {
    var parts := Split(s, ',');
    SplitLength(s, ',');
    seq(|parts|, i requires 0 <= i < |parts| => Trim(parts[i]))
  }

  /** `sanitizeCommaSeparatedValues`. */
  function SanitizeCommaSeparatedValues(value: JsValue): (r: Result<seq<string>, JoiError>)
    ensures !value.Text? ==> r == Err(StringBase)
    ensures value.Text? ==> r.Ok? && r.value == TrimmedPieces(value.s)
  {
    match value
    case Text(s) => Ok(TrimmedPieces(s))
    case _ => Err(StringBase)
  }

  /** A sanitized list has one piece more than the input has commas; no piece holds a comma
      or starts or ends with white space; and lowercasing the pieces gives what the
      comma-list validator checks. */
  lemma SanitizedPieces(s: string)
    ensures |TrimmedPieces(s)| == Count(s, ',') + 1
    ensures forall p :: p in TrimmedPieces(s) ==> ',' !in p
    ensures forall p :: p in TrimmedPieces(s) ==>
      p == [] || (!IsWhitespace(p[0]) && !IsWhitespace(p[|p| - 1]))
    ensures forall i :: 0 <= i < |TrimmedPieces(s)| ==> Lower(TrimmedPieces(s)[i]) == Pieces(s)[i]
  {
    var parts := Split(s, ',');
    var ps := TrimmedPieces(s);
    forall p | p in ps
      ensures ',' !in p && (p == [] || (!IsWhitespace(p[0]) && !IsWhitespace(p[|p| - 1])))
    {
      var i :| 0 <= i < |ps| && ps[i] == p;
      var q := parts[i];
      assert q in parts;
      TrimKeeps(q, ',');
      assert p == Trim(q);
    }
    var pc := Pieces(s);
    forall i | 0 <= i < |ps|
      ensures Lower(ps[i]) == pc[i]
    {
      assert ps[i] == Trim(parts[i]);
    }
  }
}
