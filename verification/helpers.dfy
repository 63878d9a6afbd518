/** The string helpers of helperFunctions.js. */
module Helpers {
  import opened Js

  /** `formatOptions`: the option values as an English list, "a, b and c". */
  function FormatOptions(options: seq<string>): (r: string)
    ensures |options| == 0 ==> r == ""
    ensures |options| == 1 ==> r == options[0]
    ensures |options| == 2 ==> r == options[0] + " and " + options[1]
  {
    if |options| == 0 then ""
    else if |options| == 1 then options[0]
    else if |options| == 2 then options[0] + " and " + options[1]
    else
      var last := options[|options| - 1];
      Join(options[..|options| - 1], ", ") + " and " + last
  }

  /** For two or more options the result is every option but the last joined with ", ",
      then " and " and the last one, in the original order; the two-option case is the
      same rule. */
  lemma FormatOptionsJoins(options: seq<string>)
    requires |options| >= 2
    ensures FormatOptions(options)
      == Join(options[..|options| - 1], ", ") + " and " + options[|options| - 1]
  {
    if |options| == 2 {
      assert options[..1] == [options[0]];
    }
  }

  /** Appending one more option puts the former last option behind a comma. */
  lemma FormatOptionsSnoc(options: seq<string>, x: string)
    requires |options| >= 2
    ensures FormatOptions(options + [x])
      == Join(options[..|options| - 1], ", ") + ", " + options[|options| - 1] + " and " + x
  {
    var all := options + [x];
    FormatOptionsJoins(all);
    assert all[..|all| - 1] == options;
    assert options == options[..|options| - 1] + [options[|options| - 1]];
    JoinSnoc(options[..|options| - 1], options[|options| - 1], ", ");
  }

  lemma FormatOptionsExample()
    ensures FormatOptions(["user", "admin"]) == "user and admin"
    ensures FormatOptions(["active", "inactive", "expired"]) == "active, inactive and expired"
  {
    var xs := ["active", "inactive", "expired"];
    assert xs[..2] == ["active", "inactive"];
    assert ["active", "inactive"][1..] == ["inactive"];
  }

  /** `lowercaseFirstLetter`: the empty (falsy) string is returned as is; otherwise only the
      first character is lowercased. */
  function LowercaseFirstLetter(s: string): (r: string)
    ensures |r| == |s|
    ensures |s| > 0 ==> r[0] == LowerChar(s[0]) && r[1..] == s[1..]
    ensures s == [] ==> r == s
  {
    if s == [] then s else [LowerChar(s[0])] + s[1..]
  }

  /** `capitalizeFirstLetter`: the empty (falsy) string is returned as is; otherwise only
      the first character is uppercased. */
  function CapitalizeFirstLetter(s: string): (r: string)
    ensures |r| == |s|
    ensures |s| > 0 ==> r[0] == UpperChar(s[0]) && r[1..] == s[1..]
    ensures s == [] ==> r == s
  {
    if s == [] then s else [UpperChar(s[0])] + s[1..]
  }

  /** Both case helpers are idempotent, and each undoes the other on the first letter. */
  lemma CaseHelpersRoundTrip(s: string)
    ensures LowercaseFirstLetter(LowercaseFirstLetter(s)) == LowercaseFirstLetter(s)
    ensures CapitalizeFirstLetter(CapitalizeFirstLetter(s)) == CapitalizeFirstLetter(s)
    ensures LowercaseFirstLetter(CapitalizeFirstLetter(s)) == LowercaseFirstLetter(s)
    ensures CapitalizeFirstLetter(LowercaseFirstLetter(s)) == CapitalizeFirstLetter(s)
  {
    if s != [] {
      var c := s[0];
      assert LowerChar(UpperChar(c)) == LowerChar(c);
      assert UpperChar(LowerChar(c)) == UpperChar(c);
    }
  }

  /** `isBoolean`. */
  function IsBoolean(s: string): (r: bool)
    ensures r ==> |Trim(s)| == 4 || |Trim(s)| == 5
  {
    var t := Lower(Trim(s));
    t == "true" || t == "false"
  }

  predicate IsBooleanWord(w: string) {
    Lower(w) == "true" || Lower(w) == "false"
  }

  /** A word that lowercases to "true" or "false" starts and ends with a letter. */
  lemma BooleanWordEdges(m: string)
    requires IsBooleanWord(m)
    ensures |m| > 0 && !IsWhitespace(m[0]) && !IsWhitespace(m[|m| - 1])
  {
    assert |Lower(m)| == |m|;
    assert Lower(m)[0] == LowerChar(m[0]);
    assert Lower(m)[|m| - 1] == LowerChar(m[|m| - 1]);
  }

  /** A padded boolean word is accepted. */
  lemma IsBooleanOfPadded(a: string, m: string, b: string)
    requires AllWhitespace(a) && AllWhitespace(b) && IsBooleanWord(m)
    ensures IsBoolean(a + m + b)
  {
    BooleanWordEdges(m);
    TrimOfPadded(a, m, b);
  }

  /** `s` is a boolean word with white space around it. */
  predicate PaddedBooleanWord(s: string) {
    exists i, j :: (0 <= i <= j <= |s| && AllWhitespace(s[..i]) && AllWhitespace(s[j..])
      && IsBooleanWord(s[i..j]))
  }

  /** An accepted string is a boolean word padded with white space. */
  lemma IsBooleanPadded(s: string)
    requires IsBoolean(s)
    ensures PaddedBooleanWord(s)
  {
    var t := Trim(s);
    TrimWindow(s);
    var i := |s| - |TrimStart(s)|;
    assert IsBooleanWord(t);
    PaddedWitness(s, i, i + |t|);
  }

  lemma PaddedWitness(s: string, i: nat, j: nat)
    requires i <= j <= |s| && AllWhitespace(s[..i]) && AllWhitespace(s[j..]) && IsBooleanWord(s[i..j])
    ensures PaddedBooleanWord(s)
  {
  }

  /** A boolean word padded with white space is accepted. */
  lemma PaddedIsBoolean(s: string)
    requires PaddedBooleanWord(s)
    ensures IsBoolean(s)
  {
    var i, j :| 0 <= i <= j <= |s| && AllWhitespace(s[..i]) && AllWhitespace(s[j..])
      && IsBooleanWord(s[i..j]);
    ThreeParts(s, i, j);
    IsBooleanOfPadded(s[..i], s[i..j], s[j..]);
  }

  /** Cutting a string at two points and joining the pieces gives it back. */
  lemma ThreeParts(s: string, i: nat, j: nat)
    requires i <= j <= |s|
    ensures s == s[..i] + s[i..j] + s[j..]
  {
    assert s[..j] == s[..i] + s[i..j];
    assert s == s[..j] + s[j..];
  }

  /** `isBoolean` holds exactly of the strings that are, apart from white space around
      them, "true" or "false" in any letter case. */
  lemma IsBooleanCharacterised(s: string)
    ensures IsBoolean(s) <==> PaddedBooleanWord(s)
  {
    if IsBoolean(s) {
      IsBooleanPadded(s);
    }
    if PaddedBooleanWord(s) {
      PaddedIsBoolean(s);
    }
  }
}
