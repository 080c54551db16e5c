/**
 * The brand logo chosen for a brand name (src/components/icons/BrandIcons.tsx).
 * The drawings themselves are not modelled; a logo is one constructor.
 */
module BrandIcons {
  import opened Wrappers
  import opened Text
  import StationUtils

  datatype BrandIcon =
    | OryxIcon | ShellIcon | TotalIcon | BPIcon | MobilIcon | CorridorIcon
    | YaraIcon | BCFIcon | CDSIcon | KDFIcon | AmazoneIcon

  /** The lower-case keys of `getBrandIcon`'s `switch`, with the logo each selects. */
  function IconOfKey(key: string): Option<BrandIcon> {
    if key == "oryx" then Some(OryxIcon)
    else if key == "shell" then Some(ShellIcon)
    else if key == "total" then Some(TotalIcon)
    else if key == "bp" then Some(BPIcon)
    else if key == "mobil" then Some(MobilIcon)
    else if key == "corridor" then Some(CorridorIcon)
    else if key == "yara" || key == "yara service" then Some(YaraIcon)
    else if key == "bcf" then Some(BCFIcon)
    else if key == "cds" then Some(CDSIcon)
    else if key == "kdf" then Some(KDFIcon)
    else if key == "amazone" then Some(AmazoneIcon)
    else None
  }

  /** `getBrandIcon`: `None` is the `null` that makes callers draw the default pump. */
  function GetBrandIcon(brand: string): Option<BrandIcon> {
    IconOfKey(Trim(Lower(brand)))
  }

  /** The canonical key of each logo. */
  function KeyOf(icon: BrandIcon): (key: string)
    ensures key != [] && !IsWhitespace(key[0]) && !IsWhitespace(key[|key| - 1])
    ensures forall j :: 0 <= j < |key| ==> !IsUpperLetter(key[j])
  {
    match icon
    case OryxIcon => "oryx"
    case ShellIcon => "shell"
    case TotalIcon => "total"
    case BPIcon => "bp"
    case MobilIcon => "mobil"
    case CorridorIcon => "corridor"
    case YaraIcon => "yara"
    case BCFIcon => "bcf"
    case CDSIcon => "cds"
    case KDFIcon => "kdf"
    case AmazoneIcon => "amazone"
  }

  lemma LowerOfLowerCase(s: string)
    requires forall j :: 0 <= j < |s| ==> !IsUpperLetter(s[j])
    ensures Lower(s) == s
  {
  }

  /** Every logo is reachable: its key selects it. */
  lemma KeySelectsIcon(icon: BrandIcon)
    ensures GetBrandIcon(KeyOf(icon)) == Some(icon)
  {
    var key := KeyOf(icon);
    LowerOfLowerCase(key);
    TrimUntouched(key);
    assert Trim(Lower(key)) == key;
    KeyOfSelects(icon);
  }

  lemma KeyOfSelects(icon: BrandIcon)
    ensures IconOfKey(KeyOf(icon)) == Some(icon)
  {
    match icon
    case OryxIcon =>
    case ShellIcon =>
    case TotalIcon =>
    case BPIcon =>
    case MobilIcon =>
    case CorridorIcon =>
    case YaraIcon =>
    case BCFIcon =>
    case CDSIcon =>
    case KDFIcon =>
    case AmazoneIcon =>
  }

  /** The choice ignores letter case. */
  lemma IgnoresCase(brand: string)
    ensures GetBrandIcon(Lower(brand)) == GetBrandIcon(brand)
  {
    LowerIdempotent(brand);
  }

  /** The choice ignores surrounding whitespace. */
  lemma IgnoresSurroundingWhitespace(brand: string)
    ensures GetBrandIcon(Trim(brand)) == GetBrandIcon(brand)
  {
    LowerTrimCommute(brand);
    LowerTrimCommute(Trim(brand));
    TrimIdempotent(Lower(brand));
  }

  /** "Yara Service" is drawn with the Yara logo. */
  lemma YaraServiceIsYara(brand: string)
    requires Trim(Lower(brand)) == "yara service"
    ensures GetBrandIcon(brand) == Some(YaraIcon)
  {
    var key := "yara service";
    assert |key| == 12;
    assert key != "oryx" && key != "shell" && key != "total" && key != "bp" && key != "mobil";
    assert key != "corridor";
    assert IconOfKey(key) == Some(YaraIcon);
  }

  /**
   * The brand extracted from a station name has a logo exactly when it is one
   * of the first eleven prefixes; Birgo, Comap, Cam holding, 2holding and Adf
   * fall back to the default pump.
   */
  lemma ExtractedBrandHasIcon(i: nat)
    requires i < |StationUtils.BRAND_PATTERNS|
    ensures GetBrandIcon(StationUtils.Spelling(StationUtils.BRAND_PATTERNS[i])).Some? <==> i < 11
  {
    var p := StationUtils.BRAND_PATTERNS[i];
    StationUtils.BrandPatternsWellFormed();
    SpellingLowers(p);
    TrimUntouched(p);
    PatternIcons(i);
  }

  lemma PatternIcons(i: nat)
    requires i < |StationUtils.BRAND_PATTERNS|
    ensures IconOfKey(StationUtils.BRAND_PATTERNS[i]).Some? <==> i < 11
  {
  }

  /** Lower-casing the capitalised spelling of a pattern gives the pattern back. */
  lemma SpellingLowers(p: string)
    requires StationUtils.IsPattern(p)
    ensures Lower(StationUtils.Spelling(p)) == p
  {
    var s := StationUtils.Spelling(p);
    assert Lower(s)[0] == p[0];
    forall j | 1 <= j < |p| ensures Lower(s)[j] == p[j] {
      assert s[j] == p[j];
    }
  }
}
