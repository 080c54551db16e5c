/**
 * What a station card shows (src/components/StationCard.tsx): the waiting
 * text, the status line, the brand and its logo, the update footer, and
 * whether the card is a clickable box or a link.
 */
module StationCard {
  import opened Wrappers
  import opened Schema
  import StationUtils
  import BrandIcons

  // ---------------------------------------------------------------------
  // Numbers in a template literal

  function DigitChar(d: nat): char
    requires d < 10
  {
    "0123456789"[d]
  }

  predicate IsDigitChar(c: char) { '0' <= c <= '9' }

  function DigitValue(c: char): nat
    requires IsDigitChar(c)
  {
    (c as int - '0' as int) as nat
  }

  /** The decimal digits of a natural number, most significant first, without leading zeros. */
  function NatText(n: nat): (s: string)
    ensures s != [] && forall i :: 0 <= i < |s| ==> IsDigitChar(s[i])
    ensures n > 0 ==> s[0] != '0'
  {
    if n < 10 then [DigitChar(n)] else NatText(n / 10) + [DigitChar(n % 10)]
  }

  /** `${n}` for an integer. */
  function DecimalText(n: int): string {
    if n < 0 then "-" + NatText(-n) else NatText(n)
  }

  /** The number a run of decimal digits denotes. */
  function DigitsValue(s: string): nat
    requires forall i :: 0 <= i < |s| ==> IsDigitChar(s[i])
  {
    if s == [] then 0 else 10 * DigitsValue(s[..|s| - 1]) + DigitValue(s[|s| - 1])
  }

  /** Reading the digits of a number back gives the number. */
  lemma {:induction false} NatTextReadsBack(n: nat)
    ensures DigitsValue(NatText(n)) == n
  {
    if n >= 10 {
      NatTextReadsBack(n / 10);
      var s := NatText(n);
      assert s[..|s| - 1] == NatText(n / 10);
    }
  }

  // ---------------------------------------------------------------------
  // Texts

  /** JavaScript truthiness of a nullable number: present and not zero. */
  predicate Truthy(n: Option<int>) { n.Some? && n.value != 0 }

  /** `waitingTime`: `"min-max min"` only when the card has a row whose two bounds are both truthy. */
  function WaitingText(status: Option<StationStatus>): (r: Option<string>)
    ensures r.Some? <==> status.Some? && Truthy(status.value.waitingTimeMin) && Truthy(status.value.waitingTimeMax)
  {
    if status.Some? && Truthy(status.value.waitingTimeMin) && Truthy(status.value.waitingTimeMax) then
      Some(DecimalText(status.value.waitingTimeMin.value) + "-" + DecimalText(status.value.waitingTimeMax.value) + " min")
    else None
  }

  /**
   * For positive bounds the waiting text is the lower bound's digits, a
   * dash, the upper bound's digits and " min", and both numbers read back.
   */
  lemma WaitingTextReadsBack(status: StationStatus)
    requires status.waitingTimeMin.Some? && status.waitingTimeMin.value > 0
    requires status.waitingTimeMax.Some? && status.waitingTimeMax.value > 0
    ensures var t := WaitingText(Some(status)).value;
      exists k, m :: 0 < k < m < |t| && t[k] == '-' && t[m..] == " min" &&
        (forall i :: 0 <= i < k ==> IsDigitChar(t[i])) &&
        (forall i :: k < i < m ==> IsDigitChar(t[i])) &&
        DigitsValue(t[..k]) == status.waitingTimeMin.value &&
        DigitsValue(t[k + 1..m]) == status.waitingTimeMax.value
  {
    var lo := NatText(status.waitingTimeMin.value);
    var hi := NatText(status.waitingTimeMax.value);
    var t := WaitingText(Some(status)).value;
    assert t == lo + "-" + hi + " min";
    NatTextReadsBack(status.waitingTimeMin.value);
    NatTextReadsBack(status.waitingTimeMax.value);
    var k, m := |lo|, |lo| + 1 + |hi|;
    assert t[..k] == lo;
    assert t[k + 1..m] == hi;
    assert t[m..] == " min";
  }

  /** `availability`: the row's availability, none without a row. */
  function AvailabilityOf(status: Option<StationStatus>): (a: Option<Availability>)
    ensures a.Some? <==> status.Some?
  {
    if status.Some? then Some(status.value.availability) else None
  }

  /** The colour of the status text. */
  datatype Tone = Emerald | Orange | Red | Gray

  function ToneOf(a: Option<Availability>): (t: Tone)
    ensures t == Gray <==> a.None?
  {
    match a
    case Some(Available) => Emerald
    case Some(Limited) => Orange
    case Some(Out) => Red
    case None => Gray
  }

  /** The status line: its caption and its text. */
  datatype StatusLine = StatusLine(caption: string, text: string)

  function StatusLineOf(status: Option<StationStatus>): StatusLine {
    if AvailabilityOf(status) == Some(Out) then StatusLine("Statut:", "Carburant indisponible")
    else StatusLine("Attente:", WaitingText(status).GetOr("Non précisée"))
  }

  /**
   * An empty pump says so whatever its waiting times; any other card shows
   * the waiting text, or "Non précisée" when there is none.
   */
  lemma StatusLineCases(status: Option<StationStatus>)
    ensures status.Some? && status.value.availability == Out ==>
      StatusLineOf(status) == StatusLine("Statut:", "Carburant indisponible")
    ensures !(status.Some? && status.value.availability == Out) ==>
      StatusLineOf(status).caption == "Attente:" &&
      (WaitingText(status).Some? ==> StatusLineOf(status).text == WaitingText(status).value) &&
      (WaitingText(status).None? ==> StatusLineOf(status).text == "Non précisée")
  {
  }

  /** A zero lower bound (the shortest queue category) never shows a waiting time. */
  lemma ZeroMinimumHidden(status: StationStatus)
    requires status.waitingTimeMin == Some(0)
    ensures StatusLineOf(Some(status)).text in {"Carburant indisponible", "Non précisée"}
  {
  }

  // ---------------------------------------------------------------------
  // Brand and logo

  /** The logo slot: the brand's logo (empty when the brand has none), or the default pump. */
  datatype CardIcon = BrandLogo(logo: Option<BrandIcons.BrandIcon>) | DefaultPump

  function BrandOf(station: Station): string {
    StationUtils.ExtractBrandFromName(station.name, station.brand)
  }

  function IconOf(station: Station): (icon: CardIcon)
    ensures icon == DefaultPump <==> BrandOf(station) == ""
    ensures icon.BrandLogo? ==> icon.logo == BrandIcons.GetBrandIcon(BrandOf(station))
  {
    var brand := BrandOf(station);
    if brand != "" then BrandLogo(BrandIcons.GetBrandIcon(brand)) else DefaultPump
  }

  // ---------------------------------------------------------------------
  // The card

  /** What wraps the card: a clickable box runs the caller's handler, a link navigates. */
  datatype Wrapper = Clickable | LinkTo(href: string)

  function DefaultHref(station: Station): string { "/station/" + station.id }

  /** With a handler the card is clickable; otherwise it links to the given, non-empty `href`, or to the station's page. */
  function WrapperOf(station: Station, hasOnClick: bool, href: Option<string>): (w: Wrapper)
    ensures hasOnClick <==> w == Clickable
    ensures !hasOnClick && href.Some? && href.value != "" ==> w == LinkTo(href.value)
    ensures !hasOnClick && (href.None? || href.value == "") ==> w == LinkTo(DefaultHref(station))
  {
    if hasOnClick then Clickable
    else if href.Some? && href.value != "" then LinkTo(href.value)
    else LinkTo(DefaultHref(station))
  }

  /** The station's own page is `/station/` followed by its id. */
  lemma DefaultHrefShape(station: Station)
    ensures var h := DefaultHref(station);
      |h| == 9 + |station.id| && h[..9] == "/station/" && h[9..] == station.id
  {
  }

  /** The footer under the status line: when the row was written, and the distance if known. */
  datatype Footer = Footer(updatedAt: Millis, distance: Option<real>)

  datatype CardView = CardView(
    name: string,
    brand: Option<string>,
    icon: CardIcon,
    place: (string, string),
    availability: Option<Availability>,
    tone: Tone,
    line: StatusLine,
    footer: Option<Footer>,
    wrapper: Wrapper)

  /** `StationCard`: what the card shows for a station, its row, its distance and its wrapper props. */
  function Card(station: Station, status: Option<StationStatus>, distance: Option<real>,
                hasOnClick: bool, href: Option<string>): (v: CardView)
    ensures v.brand.Some? <==> BrandOf(station) != ""
    ensures v.brand.Some? ==> v.brand.value == BrandOf(station)
    ensures v.footer.Some? <==> status.Some?
    ensures v.footer.Some? ==> v.footer.value.updatedAt == status.value.updatedAt && v.footer.value.distance == distance
  {
    var brand := BrandOf(station);
    var a := AvailabilityOf(status);
    CardView(station.name, if brand != "" then Some(brand) else None, IconOf(station),
             (station.neighborhood, station.municipality), a, ToneOf(a), StatusLineOf(status),
             if status.Some? then Some(Footer(status.value.updatedAt, distance)) else None,
             WrapperOf(station, hasOnClick, href))
  }

  /** The card without a row shows no footer, an unknown availability in grey and "Non précisée". */
  lemma CardWithoutRow(station: Station, distance: Option<real>, hasOnClick: bool, href: Option<string>)
    ensures var v := Card(station, None, distance, hasOnClick, href);
      v.footer.None? && v.availability.None? && v.tone == Gray && v.line == StatusLine("Attente:", "Non précisée")
  {
  }
}
