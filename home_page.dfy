/**
 * The Home page's choices: the short/long texts, the preview slices, the
 * button labels with their defaults, the intro image's fallback and the
 * step badges.
 */
module HomePage {
  import opened Wrappers
  import opened Json
  import opened Text
  import opened ContentMode
  import opened Variants
  import opened ContentTypes

  /** The hero subtitle the mode selects. */
  function HeroSubtitle(d: Json, mode: Mode): (r: Option<Json>)
    ensures Truthy(Get(d, ["home", "hero", "subtitle" + Suffix(mode)])) ==>
      r == Get(d, ["home", "hero", "subtitle" + Suffix(mode)])
    ensures !Truthy(Get(d, ["home", "hero", "subtitle" + Suffix(mode)])) ==>
      r == Get(d, ["home", "hero", "subtitle"])
  {
    assert ["home", "hero"] + ["subtitle" + Suffix(mode)] == ["home", "hero", "subtitle" + Suffix(mode)];
    assert ["home", "hero"] + ["subtitle"] == ["home", "hero", "subtitle"];
    Variant(d, ["home", "hero"], "subtitle", mode)
  }

  /** The intro description the mode selects. */
  function IntroDescription(d: Json, mode: Mode): (r: Option<Json>)
    ensures Truthy(Get(d, ["home", "intro", "description" + Suffix(mode)])) ==>
      r == Get(d, ["home", "intro", "description" + Suffix(mode)])
    ensures !Truthy(Get(d, ["home", "intro", "description" + Suffix(mode)])) ==>
      r == Get(d, ["home", "intro", "description"])
  {
    assert ["home", "intro"] + ["description" + Suffix(mode)] == ["home", "intro", "description" + Suffix(mode)];
    assert ["home", "intro"] + ["description"] == ["home", "intro", "description"];
    Variant(d, ["home", "intro"], "description", mode)
  }

  /** A how-we-work step's description the mode selects. */
  function StepDescription(step: Json, mode: Mode): (r: Option<Json>)
    ensures Truthy(Get(step, ["description" + Suffix(mode)])) ==> r == Get(step, ["description" + Suffix(mode)])
    ensures !Truthy(Get(step, ["description" + Suffix(mode)])) ==> r == Get(step, ["description"])
  {
    assert [] + ["description" + Suffix(mode)] == ["description" + Suffix(mode)];
    assert [] + ["description"] == ["description"];
    Variant(step, [], "description", mode)
  }

  /** `xs.slice(0, n)`. */
  function Preview<T>(xs: seq<T>, n: nat): (r: seq<T>)
    ensures |r| == if |xs| < n then |xs| else n
    ensures r == xs[..|r|]
  {
    if |xs| < n then xs else xs[..n]
  }

  /** The featured destinations: the first three, in order. */
  function DestinationsPreview(destinations: seq<Destination>): (r: seq<Destination>)
    ensures |r| == if |destinations| < 3 then |destinations| else 3
    ensures forall i :: 0 <= i < |r| ==> r[i] == destinations[i]
  {
    Preview(destinations, 3)
  }

  /** The journal preview: the first two posts, in order; None when there is no journal and the page throws. */
  function JournalPreview(journal: Option<seq<JournalPost>>): (r: Option<seq<JournalPost>>)
    ensures r.None? <==> journal.None?
    ensures r.Some? ==> |r.value| == (if |journal.value| < 2 then |journal.value| else 2)
    ensures r.Some? ==> forall i :: 0 <= i < |r.value| ==> r.value[i] == journal.value[i]
  {
    if journal.None? then None else Some(Preview(journal.value, 2))
  }

  const PhilosophyDefault := "OUR PHILOSOPHY"
  const DestinationsDefault := "VIEW ALL DESTINATIONS"
  const JournalDefault := "READ THE JOURNAL"

  /** `home.buttons?.<key> || <fallback>`. */
  function ButtonLabel(d: Json, key: string, fallback: string): (r: Json)
    ensures Truthy(Get(d, ["home", "buttons", key])) ==> Some(r) == Get(d, ["home", "buttons", key])
    ensures !Truthy(Get(d, ["home", "buttons", key])) ==> r == JString(fallback)
  {
    var v := Get(d, ["home", "buttons", key]);
    if Truthy(v) then v.value else JString(fallback)
  }

  /** Without a `home.buttons` object every button shows its default label. */
  lemma ButtonsDefaultWithoutButtons(d: Json)
    requires Get(d, ["home", "buttons"]).None?
    ensures ButtonLabel(d, "philosophy", PhilosophyDefault) == JString(PhilosophyDefault)
    ensures ButtonLabel(d, "viewDestinations", DestinationsDefault) == JString(DestinationsDefault)
    ensures ButtonLabel(d, "readJournal", JournalDefault) == JString(JournalDefault)
  {
    assert ["home", "buttons"] + ["philosophy"] == ["home", "buttons", "philosophy"];
    assert ["home", "buttons"] + ["viewDestinations"] == ["home", "buttons", "viewDestinations"];
    assert ["home", "buttons"] + ["readJournal"] == ["home", "buttons", "readJournal"];
    GetExtend(d, ["home", "buttons"], "philosophy");
    GetExtend(d, ["home", "buttons"], "viewDestinations");
    GetExtend(d, ["home", "buttons"], "readJournal");
  }

  /** `home.intro.image || content.destinations[0].image`; None when that falls through to an empty destinations list and throws. */
  function IntroImage(d: Json, destinations: seq<Destination>): (r: Option<Json>)
    ensures r.None? <==> !Truthy(Get(d, ["home", "intro", "image"])) && destinations == []
    ensures Truthy(Get(d, ["home", "intro", "image"])) ==> r == Get(d, ["home", "intro", "image"])
    ensures !Truthy(Get(d, ["home", "intro", "image"])) && destinations != [] ==>
      r == Some(JString(destinations[0].image))
  {
    var v := Get(d, ["home", "intro", "image"]);
    if Truthy(v) then v
    else if destinations != [] then Some(JString(destinations[0].image))
    else None
  }

  /** The badge of the step at `index`: "0" followed by its 1-based number. */
  function StepBadge(index: nat): (b: string)
    ensures |b| >= 2 && b[0] == '0'
    ensures forall i :: 1 <= i < |b| ==> '0' <= b[i] <= '9'
  {
    "0" + Decimal(index + 1)
  }

  /** The badge reads back as the step's number; from the tenth step on it has three digits. */
  lemma StepBadgeNumber(index: nat)
    ensures DigitsValue(StepBadge(index)[1..]) == index + 1
    ensures index == 9 ==> StepBadge(index) == "010"
  {
    assert StepBadge(index)[1..] == Decimal(index + 1);
    DecimalRoundTrip(index + 1);
  }
}
