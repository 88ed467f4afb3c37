/**
 * The Services editor: each input saves its text at a fixed path through
 * the shared save routine; the portfolio list is edited entry by entry; the
 * hero image slot stores the uploaded file's path.
 */
module ServicesEditor {
  import opened Wrappers
  import opened Json
  import Lists
  import SectionEditor
  import ImageUploader

  /** The inputs of the editor. */
  datatype Field =
    | HeroTitle | HeroSubtitle | HeroImage
    | IntroTitle | IntroDescription
    | DmcTitle | DmcDescription
    | CuratedTitle | CuratedDescription

  /** Where each input writes. */
  function FieldPath(f: Field): (p: Path)
    ensures |p| == 3 && p[0] == "services"
  {
    match f
    case HeroTitle => ["services", "hero", "title"]
    case HeroSubtitle => ["services", "hero", "subtitle"]
    case HeroImage => ["services", "hero", "image"]
    case IntroTitle => ["services", "intro", "title"]
    case IntroDescription => ["services", "intro", "description"]
    case DmcTitle => ["services", "dmc", "title"]
    case DmcDescription => ["services", "dmc", "description"]
    case CuratedTitle => ["services", "curated", "title"]
    case CuratedDescription => ["services", "curated", "description"]
  }

  /** No two inputs write to the same place, nor one inside another. */
  lemma FieldPathsDiverge(f: Field, g: Field)
    requires f != g
    ensures Diverges(FieldPath(f), FieldPath(g))
  {
    var p, q := FieldPath(f), FieldPath(g);
    if p[1] != q[1] {
      assert p[1] != q[1];
    } else {
      assert p[2] != q[2];
    }
  }

  /** Where the portfolio list lives. */
  const PortfolioPath: Path := ["services", "dmc", "portfolio"]

  /** The hero image slot. */
  const HeroSlot := ImageUploader.Requirements("Services Hero", 1920, 1080, 2000, ImageUploader.WebFormats)

  /** The hero slot takes 1920x1080 images of up to 2000 KB: exactly 2000 * 1024 bytes passes, one more byte does not. */
  lemma HeroSlotBound()
    ensures HeroSlot.width == 1920 && HeroSlot.height == 1080
    ensures ImageUploader.SizeAccepted(2000 * 1024, HeroSlot.maxSizeKB)
    ensures !ImageUploader.SizeAccepted(2000 * 1024 + 1, HeroSlot.maxSizeKB)
  {
  }

  /**
   * An input's change handler, and for `HeroImage` the upload callback:
   * `handleSave(FieldPath(f), text)`. The text lands at its path and the other
   * inputs' values are as before.
   */
  method Edit(content: Json, f: Field, text: string) returns (saved: seq<Json>)
    ensures |saved| <= 1
    ensures |saved| == 1 <==> IsObjectAt(content, Parent(FieldPath(f)))
    ensures |saved| == 1 ==> Get(saved[0], FieldPath(f)) == Some(JString(text))
    ensures |saved| == 1 ==> forall g :: g != f ==> Get(saved[0], FieldPath(g)) == Get(content, FieldPath(g))
    ensures |saved| == 1 ==> forall q :: Diverges(q, FieldPath(f)) ==> Get(saved[0], q) == Get(content, q)
  {
    saved := SectionEditor.HandleSave(content, FieldPath(f), JString(text));
    forall g | g != f
      ensures |saved| == 1 ==> Get(saved[0], FieldPath(g)) == Get(content, FieldPath(g))
    {
      FieldPathsDiverge(g, f);
    }
  }

  /** `content.services.dmc.portfolio`, when it is an array. */
  function Portfolio(content: Json): Option<seq<Json>> {
    SectionEditor.ArrayAt(content, PortfolioPath)
  }

  /** `updatePortfolio(index, value)`: copy the list, assign entry `index`, save the list. */
  method UpdatePortfolio(content: Json, index: int, value: string) returns (saved: seq<Json>)
    ensures Portfolio(content).None? ==> saved == []
    ensures Portfolio(content).Some? ==> |saved| == 1
    ensures Portfolio(content).Some? ==>
      Portfolio(saved[0]) == Some(Lists.Assigned(Portfolio(content).value, index, JString(value), JNull))
    ensures Portfolio(content).Some? && 0 <= index < |Portfolio(content).value| ==>
      var entries := Portfolio(content).value;
      var after := Portfolio(saved[0]).value;
      |after| == |entries| && after[index] == JString(value) &&
      forall j :: 0 <= j < |entries| && j != index ==> after[j] == entries[j]
    ensures |saved| == 1 ==> forall q :: Diverges(q, PortfolioPath) ==> Get(saved[0], q) == Get(content, q)
  {
    var current := Portfolio(content);
    if current.None? {
      return [];
    }
    var entries := SectionEditor.AssignIndex(current.value, index, JString(value));
    saved := SectionEditor.SaveArray(content, PortfolioPath, entries);
  }
}
