/**
 * The Country (destination) editor: the selected region, its working copy,
 * and the save, add and delete handlers. Save and add write into the
 * destinations array the caller's document shares; delete gives the copy a
 * new, filtered array.
 */
module CountryEditor {
  import opened Wrappers
  import opened Text
  import opened ContentTypes
  import opened SharedContent
  import ImageUploader
  import Lists

  /** The upload slot for a destination's image, named after its region. */
  function DestinationSlot(region: string): (r: ImageUploader.Requirements)
    ensures r.width == 1200 && r.height == 800 && r.maxSizeKB == 1500
    ensures r.formats == ImageUploader.WebFormats
    ensures |r.name| == |"Destination: "| + |region| && r.name[|"Destination: "|..] == region
  {
    ImageUploader.Requirements("Destination: " + region, 1200, 800, 1500, ImageUploader.WebFormats)
  }

  /** The countries input as it reads the list: `countries.join(", ")`. */
  function JoinCountries(names: seq<string>): string {
    Join(names, ", ")
  }

  /** The countries input as it writes the list: `value.split(",").map(s => s.trim())`. */
  function SplitCountries(text: string): (names: seq<string>)
    ensures |names| >= 1
    ensures |names| == |Split(text, [','])|
  {
    var pieces := Split(text, [',']);
    seq(|pieces|, i requires 0 <= i < |pieces| => Trim(pieces[i]))
  }

  /** A country name the input shows and reads back unchanged. */
  predicate CleanName(name: string) {
    Trimmed(name) && ',' !in name
  }

  /** `trim` returns a piece of its argument, so it brings in no comma. */
  lemma TrimKeepsCommaOut(s: string)
    requires ',' !in s
    ensures ',' !in Trim(s)
  {
    var t := TrimStart(s);
    assert t == s[|s| - |t|..];
    assert forall k :: 0 <= k < |t| ==> t[k] == s[|s| - |t| + k];
    assert Trim(s) == t[..|Trim(s)|];
  }

  /** Splitting a joined list on "," leaves every name after the first behind one blank. */
  lemma {:induction false} SplitJoined(p: string, names: seq<string>)
    requires |names| >= 1 && ',' !in p
    requires forall i :: 0 <= i < |names| ==> ',' !in names[i]
    ensures Split(p + Join(names, ", "), [',']) ==
      [p + names[0]] + seq(|names| - 1, i requires 0 <= i < |names| - 1 => " " + names[i + 1])
    decreases |names|
  {
    if |names| == 1 {
      assert p + Join(names, ", ") == p + names[0];
      SplitWithoutSeparator(p + names[0], ',');
    } else {
      var rest := Join(names[1..], ", ");
      assert p + Join(names, ", ") == (p + names[0]) + [','] + (" " + rest);
      SplitAfterFreePrefix(p + names[0], ',', " " + rest);
      SplitJoined(" ", names[1..]);
      assert " " + rest == " " + Join(names[1..], ", ");
    }
  }

  /** Trimming the pieces of a joined list gives back the clean names. */
  lemma TrimPieces(pieces: seq<string>, names: seq<string>)
    requires |pieces| == |names| >= 1 && pieces[0] == names[0]
    requires forall i :: 1 <= i < |names| ==> pieces[i] == " " + names[i]
    requires forall i :: 0 <= i < |names| ==> CleanName(names[i])
    ensures seq(|pieces|, i requires 0 <= i < |pieces| => Trim(pieces[i])) == names
  {
    forall i | 0 <= i < |names|
      ensures Trim(pieces[i]) == names[i]
    {
      if i == 0 {
        TrimKeepsTrimmed(names[0]);
      } else {
        TrimAfterBlank(names[i]);
      }
    }
  }

  /** The list the input shows is read back unchanged, as long as it is not empty and its names are clean. */
  lemma CountriesRoundTrip(names: seq<string>)
    requires |names| >= 1
    requires forall i :: 0 <= i < |names| ==> CleanName(names[i])
    ensures SplitCountries(JoinCountries(names)) == names
  {
    var joined := JoinCountries(names);
    assert "" + Join(names, ", ") == joined;
    SplitJoined("", names);
    var pieces := Split(joined, [',']);
    assert pieces[0] == names[0];
    TrimPieces(pieces, names);
  }

  /** An empty list is read back as one empty name. */
  lemma EmptyCountriesReadBack()
    ensures SplitCountries(JoinCountries([])) == [""]
  {
    SplitWithoutSeparator("", ',');
  }

  /** Whatever the input writes is clean, so editing an unchanged field is idle. */
  lemma SplitCountriesClean(text: string)
    ensures forall i :: 0 <= i < |SplitCountries(text)| ==> CleanName(SplitCountries(text)[i])
    ensures SplitCountries(JoinCountries(SplitCountries(text))) == SplitCountries(text)
  {
    var pieces := Split(text, [',']);
    SplitPiecesFree(text, ',');
    forall i | 0 <= i < |pieces|
      ensures CleanName(Trim(pieces[i]))
    {
      assert forall j :: 0 <= j < |pieces[i]| ==> pieces[i][j] != ',';
      TrimIsTrimmed(pieces[i]);
      TrimKeepsCommaOut(pieces[i]);
    }
    CountriesRoundTrip(SplitCountries(text));
  }

  /** The slug `handleAdd` gives a destination added at time `now`. */
  function NewSlug(now: nat): (s: string)
    ensures |s| > |"new-destination-"| && s[..|"new-destination-"|] == "new-destination-"
  {
    "new-destination-" + Decimal(now)
  }

  /** Additions at different times get different slugs. */
  lemma NewSlugInjective(t1: nat, t2: nat)
    requires NewSlug(t1) == NewSlug(t2)
    ensures t1 == t2
  {
    var n := |"new-destination-"|;
    assert Decimal(t1) == NewSlug(t1)[n..] == NewSlug(t2)[n..] == Decimal(t2);
    DecimalRoundTrip(t1);
    DecimalRoundTrip(t2);
  }

  /** The placeholder destination `handleAdd` appends. */
  function NewDestination(now: nat): (d: Destination)
    ensures d.slug == NewSlug(now) && d.region == "New Destination"
    ensures d.countries == ["Country 1", "Country 2"]
    ensures d.image == "/assets/hero-background.jpg"
  {
    Destination("New Destination", NewSlug(now), "Short description here...",
      "Long description here...", "/assets/hero-background.jpg", ["Country 1", "Country 2"])
  }

  /** `content.destinations || []`. */
  function Destinations(content: Document): seq<Destination>
    reads content, content.destinations
  {
    if content.destinations == null then [] else content.destinations.items
  }

  /** The three text inputs of the form. */
  datatype TextField = Region | ShortDescription | LongDescription

  /** The region after typing `text` into `f`. */
  function WithText(d: Destination, f: TextField, text: string): (r: Destination)
    ensures f == Region ==> r == d.(region := text)
    ensures f == ShortDescription ==> r == d.(shortDescription := text)
    ensures f == LongDescription ==> r == d.(longDescription := text)
  {
    match f
    case Region => d.(region := text)
    case ShortDescription => d.(shortDescription := text)
    case LongDescription => d.(longDescription := text)
  }

  /** The editor's state: the selected slug ("" for none) and the region's working copy. */
  class Editor {
    var selected: string
    var regionData: Option<Destination>

    constructor ()
      ensures selected == "" && regionData == None
    {
      selected := "";
      regionData := None;
    }

    /** Choosing a region in the drop-down. */
    method Select(slug: string)
      modifies this
      ensures selected == slug && regionData == old(regionData)
    {
      selected := slug;
    }

    /**
     * The effect run when the selection or the document changes: the
     * selected region, if the document has it, becomes the working copy;
     * otherwise the working copy is kept.
     */
    method SyncSelection(content: Document)
      modifies this
      ensures selected == old(selected)
      ensures old(selected) != "" && Lists.FindByKey(Destinations(content), DestinationSlug, old(selected)).Some? ==>
        regionData == Lists.FindByKey(Destinations(content), DestinationSlug, old(selected))
      ensures old(selected) == "" || Lists.FindByKey(Destinations(content), DestinationSlug, old(selected)).None? ==>
        regionData == old(regionData)
    {
      if selected != "" {
        var region := Lists.FindByKey(Destinations(content), DestinationSlug, selected);
        if region.Some? {
          regionData := region;
        }
      }
    }

    /** Typing into one of the text inputs. */
    method EditText(f: TextField, text: string)
      requires regionData.Some?
      modifies this
      ensures selected == old(selected)
      ensures regionData == Some(WithText(old(regionData).value, f, text))
    {
      regionData := Some(WithText(regionData.value, f, text));
    }

    /** Typing into the countries input. */
    method EditCountries(text: string)
      requires regionData.Some?
      modifies this
      ensures selected == old(selected)
      ensures regionData == Some(old(regionData).value.(countries := SplitCountries(text)))
    {
      regionData := Some(regionData.value.(countries := SplitCountries(text)));
    }

    /** The image uploader's completion callback. */
    method SetImage(path: string)
      requires regionData.Some?
      modifies this
      ensures selected == old(selected)
      ensures regionData == Some(old(regionData).value.(image := path))
    {
      regionData := Some(regionData.value.(image := path));
    }

    /**
     * `handleSave()`: the working copy replaces the first destination with
     * the selected slug, in the array the caller's document shares. Nothing
     * is saved (null) without a selection, a working copy, a destinations
     * array (the handler throws) or a match.
     */
    method HandleSave(content: Document) returns (newContent: Document?)
      modifies if content.destinations != null then {content.destinations} else {}
      ensures newContent == null <==>
        selected == "" || regionData.None? || content.destinations == null ||
        Lists.IndexOfKey(old(content.destinations.items), DestinationSlug, selected) == -1
      ensures newContent == null && content.destinations != null ==>
        content.destinations.items == old(content.destinations.items)
      ensures newContent != null ==>
        fresh(newContent) && newContent.journal == content.journal &&
        newContent.destinations == content.destinations != null &&
        content.destinations.items ==
          old(content.destinations.items)[Lists.IndexOfKey(old(content.destinations.items), DestinationSlug, selected) := regionData.value]
    {
      if selected == "" || regionData.None? {
        return null;
      }
      newContent := content.ShallowCopy();
      if newContent.destinations == null {
        return null;
      }
      var index := Lists.IndexOfKey(newContent.destinations.items, DestinationSlug, selected);
      if index == -1 {
        return null;
      }
      newContent.destinations.items := newContent.destinations.items[index := regionData.value];
    }

    /**
     * `handleAdd()`: the placeholder destination is pushed onto the shared
     * array, or onto a new array on the copy when there is none, and is
     * then selected.
     */
    method HandleAdd(content: Document, now: nat) returns (newContent: Document)
      modifies this, if content.destinations != null then {content.destinations} else {}
      ensures fresh(newContent) && newContent.journal == content.journal
      ensures old(content.destinations) != null ==>
        newContent.destinations == content.destinations &&
        content.destinations.items == old(content.destinations.items) + [NewDestination(now)]
      ensures old(content.destinations) == null ==>
        content.destinations == null && newContent.destinations != null &&
        fresh(newContent.destinations) && newContent.destinations.items == [NewDestination(now)]
      ensures selected == NewSlug(now) && regionData == old(regionData)
    {
      newContent := content.ShallowCopy();
      if newContent.destinations == null {
        newContent.destinations := new DestinationList([]);
      }
      newContent.destinations.items := newContent.destinations.items + [NewDestination(now)];
      selected := NewSlug(now);
    }

    /**
     * `handleDelete()`, with `confirmed` the answer to the confirmation
     * dialog: the copy gets a new array without the selected slug, the
     * caller's array is left as it was, and the selection is cleared.
     * Without a destinations array the handler throws (null).
     */
    method HandleDelete(content: Document, confirmed: bool) returns (newContent: Document?)
      modifies this
      ensures newContent == null <==> old(selected) == "" || !confirmed || content.destinations == null
      ensures newContent == null ==> selected == old(selected) && regionData == old(regionData)
      ensures newContent != null ==>
        fresh(newContent) && newContent.journal == content.journal &&
        newContent.destinations != null && fresh(newContent.destinations) &&
        newContent.destinations.items == Lists.RemoveKey(content.destinations.items, DestinationSlug, old(selected)) &&
        selected == "" && regionData == None
    {
      if selected == "" || !confirmed || content.destinations == null {
        return null;
      }
      newContent := content.ShallowCopy();
      var kept := Lists.RemoveKey(content.destinations.items, DestinationSlug, selected);
      newContent.destinations := new DestinationList(kept);
      selected := "";
      regionData := None;
    }
  }
}
