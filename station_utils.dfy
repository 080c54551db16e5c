/**
 * Brand extraction from station names and brand slugs
 * (src/lib/station-utils.ts).
 */
module StationUtils {
  import opened Wrappers
  import opened Text

  /**
   * The brand prefixes, in the order they are tried. Each pattern of the
   * source is case-insensitive, so its alternatives collapse to one
   * lower-case spelling.
   */
  const BRAND_PATTERNS: seq<string> := [
    "oryx", "shell", "total", "bp", "mobil", "corridor", "yara", "bcf", "cds", "kdf",
    "amazone", "birgo", "comap", "cam holding", "2holding", "adf"]

  /** A character a pattern spells: a lower-case ASCII letter, a digit or a space. */
  predicate IsPatternChar(c: char) {
    IsAsciiLower(c) || IsDigit(c) || c == ' '
  }

  predicate IsPattern(p: string) {
    p != [] && forall j :: 0 <= j < |p| ==> IsPatternChar(p[j])
  }

  lemma BrandPatternsWellFormed()
    ensures forall i :: 0 <= i < |BRAND_PATTERNS| ==> IsPattern(BRAND_PATTERNS[i])
  {
  }

  /**
   * `/^(P)\s/i` matches `name`: it starts with `P` up to ASCII case and the
   * next character is whitespace.
   */
  predicate MatchesPattern(name: string, pattern: string) {
    |name| > |pattern| && FoldCase(name[..|pattern|]) == pattern && IsWhitespace(name[|pattern|])
  }

  /** The position of the first of `patterns` that matches `name`. */
  function FirstMatch(name: string, patterns: seq<string>): (r: Option<nat>)
    ensures r.Some? ==> r.value < |patterns| && MatchesPattern(name, patterns[r.value])
    ensures r.Some? ==> forall j :: 0 <= j < r.value ==> !MatchesPattern(name, patterns[j])
    ensures r.None? <==> forall j :: 0 <= j < |patterns| ==> !MatchesPattern(name, patterns[j])
  {
    if patterns == [] then None
    else if MatchesPattern(name, patterns[0]) then Some(0)
    else
      match FirstMatch(name, patterns[1..])
      case None => None
      case Some(i) => Some(i + 1)
  }

  /** `s.charAt(0).toUpperCase() + s.slice(1).toLowerCase()` */
  function Capitalize(s: string): (r: string)
    ensures |r| == |s|
  {
    if s == [] then [] else Upper(s[..1]) + Lower(s[1..])
  }

  /** `extractBrandFromName` */
  function ExtractBrandFromName(stationName: string, existingBrand: Option<string>): string {
    ExtractBrand(stationName, existingBrand, BRAND_PATTERNS)
  }

  /** `extractBrandFromName` over a given pattern list. */
  function ExtractBrand(stationName: string, existingBrand: Option<string>, patterns: seq<string>): string {
    if existingBrand.Some? && Trim(existingBrand.value) != "" then Trim(existingBrand.value)
    else
      var name := Trim(stationName);
      match FirstMatch(name, patterns)
      case Some(i) => Capitalize(name[..|patterns[i]|])
      case None => ""
  }

  /** The pattern spelling with its first character upper-cased. */
  function Spelling(pattern: string): string
    requires pattern != []
  {
    [UpperChar(pattern[0])] + pattern[1..]
  }

  /** What a pattern matched, capitalised, is the pattern's own spelling, whatever the case of the name. */
  lemma CapitalizedMatch(name: string, pattern: string)
    requires IsPattern(pattern) && MatchesPattern(name, pattern)
    ensures Capitalize(name[..|pattern|]) == Spelling(pattern)
  {
    var m := name[..|pattern|];
    forall j | 0 <= j < |m| ensures LowerChar(m[j]) == pattern[j] {
      assert FoldCase(m)[j] == pattern[j];
    }
    assert FoldCase(m)[0] == pattern[0];
    var r := Capitalize(m);
    assert r[0] == UpperChar(pattern[0]);
    forall j | 1 <= j < |m| ensures r[j] == pattern[j] {
      assert r[j] == Lower(m[1..])[j - 1];
    }
  }

  /** A non-blank existing brand wins, trimmed, whatever the name. */
  lemma ExistingBrandWins(stationName: string, brand: string)
    requires Trim(brand) != ""
    ensures ExtractBrandFromName(stationName, Some(brand)) == Trim(brand)
  {
  }

  /**
   * Otherwise the first pattern in list order that matches the trimmed name
   * gives the brand, spelt as the pattern with a capital; with none, "".
   */
  lemma ExtractedBrand(stationName: string, existingBrand: Option<string>)
    requires existingBrand.None? || Trim(existingBrand.value) == ""
    ensures var name := Trim(stationName);
      var r := ExtractBrandFromName(stationName, existingBrand);
      match FirstMatch(name, BRAND_PATTERNS)
      case Some(i) => r == Spelling(BRAND_PATTERNS[i]) &&
                      forall j :: 0 <= j < i ==> !MatchesPattern(name, BRAND_PATTERNS[j])
      case None => r == "" && forall j :: 0 <= j < |BRAND_PATTERNS| ==> !MatchesPattern(name, BRAND_PATTERNS[j])
  {
    BrandPatternsWellFormed();
    ExtractedBrandWith(stationName, existingBrand, BRAND_PATTERNS);
  }

  lemma ExtractedBrandWith(stationName: string, existingBrand: Option<string>, patterns: seq<string>)
    requires existingBrand.None? || Trim(existingBrand.value) == ""
    requires forall i :: 0 <= i < |patterns| ==> IsPattern(patterns[i])
    ensures var name := Trim(stationName);
      var r := ExtractBrand(stationName, existingBrand, patterns);
      match FirstMatch(name, patterns)
      case Some(i) => r == Spelling(patterns[i]) &&
                      forall j :: 0 <= j < i ==> !MatchesPattern(name, patterns[j])
      case None => r == "" && forall j :: 0 <= j < |patterns| ==> !MatchesPattern(name, patterns[j])
  {
    var name := Trim(stationName);
    var r := ExtractBrand(stationName, existingBrand, patterns);
    match FirstMatch(name, patterns)
    case Some(i) =>
      assert r == Capitalize(name[..|patterns[i]|]);
      CapitalizedMatch(name, patterns[i]);
    case None =>
      assert r == "";
  }

  /** A name without whitespace matches no pattern: a match needs whitespace after the prefix. */
  lemma NoWhitespaceNoMatch(name: string, patterns: seq<string>)
    requires forall j :: 0 <= j < |name| ==> !IsWhitespace(name[j])
    ensures FirstMatch(name, patterns) == None
  {
    forall j | 0 <= j < |patterns| ensures !MatchesPattern(name, patterns[j]) {
      if |name| > |patterns[j]| {
        assert !IsWhitespace(name[|patterns[j]|]);
      }
    }
  }

  /** Without a matching prefix and without an existing brand, there is no brand. */
  lemma NoMatchNoBrand(stationName: string)
    requires FirstMatch(Trim(stationName), BRAND_PATTERNS) == None
    ensures ExtractBrandFromName(stationName, None) == ""
  {
  }

  /** With no whitespace in the name, no prefix is followed by whitespace: no brand ("Shell" alone gives ""). */
  lemma SingleWordHasNoBrand(stationName: string)
    requires forall j :: 0 <= j < |stationName| ==> !IsWhitespace(stationName[j])
    ensures ExtractBrandFromName(stationName, None) == ""
  {
    TrimUntouched(stationName);
    NoWhitespaceNoMatch(stationName, BRAND_PATTERNS);
    NoMatchNoBrand(stationName);
  }

  /** `s.replace(/\s+/g, '-')`: each maximal run of whitespace becomes one dash. */
  function DashWhitespaceRuns(s: string): (r: string)
    ensures |r| <= |s|
    ensures forall j :: 0 <= j < |r| ==> !IsWhitespace(r[j])
    decreases |s|
  {
    if s == [] then []
    else if IsWhitespace(s[0]) then "-" + DashWhitespaceRuns(TrimStart(s))
    else [s[0]] + DashWhitespaceRuns(s[1..])
  }

  /** `getBrandSlug` */
  function BrandSlug(brand: string): string {
    DashWhitespaceRuns(Lower(brand))
  }

  lemma {:induction false} NoWhitespaceUnchanged(s: string)
    requires forall j :: 0 <= j < |s| ==> !IsWhitespace(s[j])
    ensures DashWhitespaceRuns(s) == s
  {
    if s != [] {
      NoWhitespaceUnchanged(s[1..]);
    }
  }

  /** A word, a run of whitespace, and the rest: the run becomes a single dash. */
  lemma {:induction false} RunBecomesOneDash(word: string, run: string, rest: string)
    requires forall j :: 0 <= j < |word| ==> !IsWhitespace(word[j])
    requires run != [] && IsBlank(run)
    requires rest == [] || !IsWhitespace(rest[0])
    ensures DashWhitespaceRuns(word + run + rest) == word + "-" + DashWhitespaceRuns(rest)
    decreases |word|
  {
    if word == [] {
      assert word + run + rest == run + rest;
      BlankPrefixTrimmed(run, rest);
    } else {
      var s := word + run + rest;
      assert s[0] == word[0] && !IsWhitespace(s[0]);
      assert s[1..] == word[1..] + run + rest;
      assert DashWhitespaceRuns(s) == [word[0]] + DashWhitespaceRuns(s[1..]);
      RunBecomesOneDash(word[1..], run, rest);
      assert [word[0]] + (word[1..] + "-" + DashWhitespaceRuns(rest)) == word + "-" + DashWhitespaceRuns(rest);
    }
  }

  lemma {:induction false} BlankPrefixTrimmed(run: string, rest: string)
    requires IsBlank(run)
    requires rest == [] || !IsWhitespace(rest[0])
    ensures TrimStart(run + rest) == rest
    decreases |run|
  {
    if run != [] {
      assert (run + rest)[1..] == run[1..] + rest;
      BlankPrefixTrimmed(run[1..], rest);
    } else {
      assert run + rest == rest;
    }
  }
}
