/**
 * The About editor: each input saves its text at a fixed path through the
 * shared save routine, and the two image slots store the uploaded file's
 * path. The main-content input stores a string where the page reads a list
 * of paragraphs; `EditMainContentAsParagraphs` is the corrected handler.
 */
module AboutEditor {
  import opened Wrappers
  import opened Json
  import opened Text
  import opened ContentMode
  import opened Variants
  import SectionEditor
  import ImageUploader
  import AboutPage

  /** The inputs of the editor. */
  datatype Field =
    | HeroTitle | HeroSubtitle | HeroImage
    | IntroTitle | IntroDescription
    | MainContent
    | FounderName | FounderRole | FounderBio | FounderImage

  /** Where each input writes. */
  function FieldPath(f: Field): (p: Path)
    ensures 2 <= |p| <= 3 && p[0] == "about"
    ensures |p| == 2 <==> f == MainContent
  {
    match f
    case HeroTitle => ["about", "hero", "title"]
    case HeroSubtitle => ["about", "hero", "subtitle"]
    case HeroImage => ["about", "hero", "image"]
    case IntroTitle => ["about", "intro", "title"]
    case IntroDescription => ["about", "intro", "description"]
    case MainContent => ["about", "content"]
    case FounderName => ["about", "founder", "name"]
    case FounderRole => ["about", "founder", "role"]
    case FounderBio => ["about", "founder", "bio"]
    case FounderImage => ["about", "founder", "image"]
  }

  /** No two inputs write to the same place, nor one inside another. */
  lemma FieldPathsDiverge(f: Field, g: Field)
    requires f != g
    ensures Diverges(FieldPath(f), FieldPath(g))
  {
    var p, q := FieldPath(f), FieldPath(g);
    if p[1] != q[1] {
      assert p[1] != q[1];
    } else {
      assert p[2] != q[2];
    }
  }

  /** The hero image slot. */
  const HeroSlot := ImageUploader.Requirements("About Hero", 1920, 1080, 2000, ImageUploader.WebFormats)

  /** The founder portrait slot. */
  const FounderSlot := ImageUploader.Requirements("Founder Image", 800, 1000, 1000, ImageUploader.WebFormats)

  /** The hero takes 1920x1080 images of up to 2000 KB, the portrait 800x1000 of up to 1000 KB. */
  lemma SlotBounds()
    ensures HeroSlot.width == 1920 && HeroSlot.height == 1080
    ensures ImageUploader.SizeAccepted(2000 * 1024, HeroSlot.maxSizeKB)
    ensures !ImageUploader.SizeAccepted(2000 * 1024 + 1, HeroSlot.maxSizeKB)
    ensures FounderSlot.width == 800 && FounderSlot.height == 1000
    ensures ImageUploader.SizeAccepted(1000 * 1024, FounderSlot.maxSizeKB)
    ensures !ImageUploader.SizeAccepted(1000 * 1024 + 1, FounderSlot.maxSizeKB)
  {
  }

  /**
   * An input's change handler, and for `HeroImage` and `FounderImage` the
   * upload callback: `handleSave(FieldPath(f), text)`. The text lands at its
   * path and the other inputs' values are as before.
   */
  method Edit(content: Json, f: Field, text: string) returns (saved: seq<Json>)
    ensures |saved| <= 1
    ensures |saved| == 1 <==> IsObjectAt(content, Parent(FieldPath(f)))
    ensures |saved| == 1 ==> Some(saved[0]) == Update(content, FieldPath(f), JString(text))
    ensures |saved| == 1 ==> Get(saved[0], FieldPath(f)) == Some(JString(text))
    ensures |saved| == 1 ==> forall g :: g != f ==> Get(saved[0], FieldPath(g)) == Get(content, FieldPath(g))
    ensures |saved| == 1 ==> forall q :: Diverges(q, FieldPath(f)) ==> Get(saved[0], q) == Get(content, q)
  {
    saved := SectionEditor.HandleSave(content, FieldPath(f), JString(text));
    forall g | g != f
      ensures |saved| == 1 ==> Get(saved[0], FieldPath(g)) == Get(content, FieldPath(g))
    {
      FieldPathsDiverge(g, f);
    }
  }

  /** The variant key the mode reads parts from the main-content key. */
  lemma VariantKeyDiverges(mode: Mode)
    ensures Diverges(["about", "content" + Suffix(mode)], FieldPath(MainContent))
  {
    var p: Path := ["about", "content" + Suffix(mode)];
    assert |p[1]| > |"content"|;
    assert p[1] != FieldPath(MainContent)[1];
  }

  /**
   * As written: after any main-content edit, the About page throws in every
   * mode whose variant list is absent (or otherwise falsy), because the page
   * maps over what is now a string.
   */
  lemma MainContentEditCrashesPage(content: Json, text: string, mode: Mode)
    requires Update(content, FieldPath(MainContent), JString(text)).Some?
    requires !Truthy(Get(content, ["about", "content" + Suffix(mode)]))
    ensures AboutPage.AboutView(Some(Update(content, FieldPath(MainContent), JString(text)).value), mode) == AboutPage.Crashed
  {
    var d := Update(content, FieldPath(MainContent), JString(text)).value;
    UpdateWrites(content, FieldPath(MainContent), JString(text), []);
    UpdateFrame(content, FieldPath(MainContent), JString(text));
    VariantKeyDiverges(mode);
    AboutPage.NonArrayContentCrashes(d, mode);
  }

  /** The paragraph list of a text: its blank-line separated pieces. */
  function ParagraphList(text: string): (r: Json)
    ensures r.JArray? && |r.items| == |Split(text, "\n\n")|
    ensures forall i :: 0 <= i < |r.items| ==> r.items[i] == JString(Split(text, "\n\n")[i])
  {
    var pieces := Split(text, "\n\n");
    JArray(seq(|pieces|, i requires 0 <= i < |pieces| => JString(pieces[i])))
  }

  /** The text the textarea shows for a paragraph list of strings. */
  function ParagraphText(items: seq<Json>): string
    requires forall i :: 0 <= i < |items| ==> items[i].JString?
  {
    Join(seq(|items|, i requires 0 <= i < |items| => items[i].str), "\n\n")
  }

  /** Corrected: the main-content input stores its text as the list of its paragraphs. */
  method EditMainContentAsParagraphs(content: Json, text: string) returns (saved: seq<Json>)
    ensures |saved| <= 1
    ensures |saved| == 1 <==> IsObjectAt(content, ["about"])
    ensures |saved| == 1 ==> Some(saved[0]) == Update(content, FieldPath(MainContent), ParagraphList(text))
    ensures |saved| == 1 ==> forall q :: Diverges(q, FieldPath(MainContent)) ==> Get(saved[0], q) == Get(content, q)
  {
    assert Parent(FieldPath(MainContent)) == ["about"];
    saved := SectionEditor.HandleSave(content, FieldPath(MainContent), ParagraphList(text));
  }

  /**
   * Corrected, the page shows the paragraphs of the text (absent a variant),
   * and the textarea shows the text again.
   */
  lemma ParagraphEditShowsParagraphs(content: Json, text: string, mode: Mode)
    requires Update(content, FieldPath(MainContent), ParagraphList(text)).Some?
    requires !Truthy(Get(content, ["about", "content" + Suffix(mode)]))
    ensures AboutPage.Paragraphs(Update(content, FieldPath(MainContent), ParagraphList(text)).value, mode)
            == Some(ParagraphList(text).items)
    ensures ParagraphText(ParagraphList(text).items) == text
  {
    var d := Update(content, FieldPath(MainContent), ParagraphList(text)).value;
    UpdateWrites(content, FieldPath(MainContent), ParagraphList(text), []);
    UpdateFrame(content, FieldPath(MainContent), ParagraphList(text));
    VariantKeyDiverges(mode);
    var items := ParagraphList(text).items;
    assert seq(|items|, i requires 0 <= i < |items| => items[i].str) == Split(text, "\n\n");
    JoinSplit(text, "\n\n");
  }
}
