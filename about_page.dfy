/**
 * The About page's choices: nothing before the content is loaded, the
 * paragraph list and subtitle the display mode selects, and the hero
 * image's fallback.
 */
module AboutPage {
  import opened Wrappers
  import opened Json
  import opened ContentMode
  import opened Variants
  import ContentTypes

  /** `activeContent`: the paragraph list the mode selects; None when it is not an array and `.map` throws. */
  function Paragraphs(content: Json, mode: Mode): (r: Option<seq<Json>>)
    ensures r.Some? <==> Variant(content, ["about"], "content", mode).Some? &&
                         Variant(content, ["about"], "content", mode).value.JArray?
    ensures r.Some? ==> Variant(content, ["about"], "content", mode) == Some(JArray(r.value))
  {
    match Variant(content, ["about"], "content", mode)
    case Some(JArray(items)) => Some(items)
    case _ => None
  }

  /** The hero subtitle the mode selects. */
  function Subtitle(content: Json, mode: Mode): Option<Json> {
    Variant(content, ["about", "hero"], "subtitle", mode)
  }

  /** `about.hero.image` can be read: `about.hero` is neither missing nor null. */
  predicate HeroReadable(content: Json) {
    Get(content, ["about", "hero"]).Some? && Get(content, ["about", "hero"]).value != JNull
  }

  /** What the page renders: nothing, a thrown error, or the hero subtitle and the paragraphs. */
  datatype View = Blank | Crashed | Shown(subtitle: Option<Json>, paragraphs: seq<Json>)

  function AboutView(content: Option<Json>, mode: Mode): (v: View)
    ensures v.Blank? <==> content.None?
    ensures content.Some? ==> (v.Shown? <==> Paragraphs(content.value, mode).Some? && HeroReadable(content.value))
    ensures v.Shown? ==> v.paragraphs == Paragraphs(content.value, mode).value && v.subtitle == Subtitle(content.value, mode)
  {
    if content.None? then Blank
    else
      var d := content.value;
      match Paragraphs(d, mode)
      case None => Crashed
      case Some(ps) => if HeroReadable(d) then Shown(Subtitle(d, mode), ps) else Crashed
  }

  /** A present paragraph-list variant is shown even when it is empty; the plain list is then ignored. */
  lemma EmptyVariantHidesContent(content: Json, mode: Mode)
    requires Get(content, ["about", "content" + Suffix(mode)]) == Some(JArray([]))
    ensures Paragraphs(content, mode) == Some([])
  {
    ArrayVariantChosen(content, ["about"], "content", mode, []);
  }

  /** With no truthy variant, a plain `content` that is not an array makes the page throw. */
  lemma NonArrayContentCrashes(content: Json, mode: Mode)
    requires !Truthy(Get(content, ["about", "content" + Suffix(mode)]))
    requires Get(content, ["about", "content"]).Some? && !Get(content, ["about", "content"]).value.JArray?
    ensures AboutView(Some(content), mode) == Crashed
  {
  }

  /** `content.destinations[0]?.image || ""`. */
  function HeroFallback(destinations: seq<ContentTypes.Destination>): (image: string)
    ensures destinations == [] ==> image == ""
    ensures destinations != [] ==> image == destinations[0].image
  {
    if destinations != [] && destinations[0].image != "" then destinations[0].image else ""
  }
}
