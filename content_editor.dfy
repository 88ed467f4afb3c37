/**
 * The content editor page: a session flag guarded by a fixed password and
 * persisted in browser storage, the local working copy of the document, the
 * save that commits that copy only after the server accepts it, and the
 * nested-path edits of the Home tab. The browser storage entry, the server's
 * answer and the freshly loaded document are inputs.
 */
module ContentEditor {
  import opened Wrappers
  import opened Json
  import ImageUploader

  /** The one password the editor accepts. */
  const EditorPassword := "raou2024"

  /** What the page renders. */
  datatype View = LoginForm | Spinner | Editor

  /** The inputs of the Home tab. */
  datatype HomeField =
    | HeroTitle | HeroSubtitle | HeroImage
    | PrimaryCtaLabel | SecondaryCtaLabel
    | PhilosophyButton | ViewDestinationsButton | ReadJournalButton
    | ContactEmail | ContactPhone

  /** Where each input of the Home tab writes. */
  function HomeFieldPath(f: HomeField): (p: Path)
    ensures 3 <= |p| <= 4
  {
    match f
    case HeroTitle => ["home", "hero", "title"]
    case HeroSubtitle => ["home", "hero", "subtitle"]
    case HeroImage => ["home", "hero", "image"]
    case PrimaryCtaLabel => ["home", "hero", "primaryCta", "label"]
    case SecondaryCtaLabel => ["home", "hero", "secondaryCta", "label"]
    case PhilosophyButton => ["home", "buttons", "philosophy"]
    case ViewDestinationsButton => ["home", "buttons", "viewDestinations"]
    case ReadJournalButton => ["home", "buttons", "readJournal"]
    case ContactEmail => ["site", "companyInfo", "email"]
    case ContactPhone => ["site", "companyInfo", "phone"]
  }

  /** The Home hero image slot. */
  const HomeHeroSlot := ImageUploader.Requirements("Home Hero", 1920, 1080, 2000, ImageUploader.WebFormats)

  lemma HomeHeroSlotBound()
    ensures HomeHeroSlot.width == 1920 && HomeHeroSlot.height == 1080
    ensures ImageUploader.SizeAccepted(2000 * 1024, HomeHeroSlot.maxSizeKB)
    ensures !ImageUploader.SizeAccepted(2000 * 1024 + 1, HomeHeroSlot.maxSizeKB)
  {
  }

  /**
   * As written: a button-label input edits nothing while `home.buttons` is
   * missing, although the input shows a default label then.
   */
  lemma ButtonEditFailsWithoutButtons(d: Json, f: HomeField, text: string)
    requires f in {PhilosophyButton, ViewDestinationsButton, ReadJournalButton}
    requires Get(d, ["home", "buttons"]).None?
    ensures Update(d, HomeFieldPath(f), JString(text)).None?
  {
    assert Parent(HomeFieldPath(f)) == ["home", "buttons"];
    UpdateSucceedsIff(d, HomeFieldPath(f), JString(text));
  }

  /** The page's state. */
  class EditorPage {
    /** The local working copy (`null` until loaded). */
    var content: Option<Json>
    var loading: bool
    var saving: bool
    var isAuthenticated: bool
    /** The password field's text. */
    var password: string
    /** The browser storage entry `editor_authenticated`. */
    var stored: Option<string>
    /** How often the shared content was reloaded after a save. */
    var reloads: nat

    /** First render, before the effects: `stored` is whatever the browser kept. */
    constructor (stored: Option<string>)
      ensures content == None && loading && !saving && !isAuthenticated && password == ""
      ensures this.stored == stored && reloads == 0
    {
      content := None;
      loading := true;
      saving := false;
      isAuthenticated := false;
      password := "";
      this.stored := stored;
      reloads := 0;
    }

    /** The mount effect: a stored `"true"` restores the session. */
    method RestoreSession()
      modifies this
      ensures isAuthenticated == (old(isAuthenticated) || stored == Some("true"))
      ensures content == old(content) && loading == old(loading) && saving == old(saving)
      ensures password == old(password) && stored == old(stored) && reloads == old(reloads)
    {
      if stored == Some("true") {
        isAuthenticated := true;
      }
    }

    /** The effect on the shared content: once it is there, a copy becomes the working copy. */
    method ReceiveContent(initial: Option<Json>)
      modifies this
      ensures initial.Some? ==> content == initial && !loading
      ensures initial.None? ==> content == old(content) && loading == old(loading)
      ensures saving == old(saving) && isAuthenticated == old(isAuthenticated)
      ensures password == old(password) && stored == old(stored) && reloads == old(reloads)
    {
      if initial.Some? {
        content := initial;
        loading := false;
      }
    }

    method SetPassword(p: string)
      modifies this
      ensures password == p
      ensures content == old(content) && loading == old(loading) && saving == old(saving)
      ensures isAuthenticated == old(isAuthenticated) && stored == old(stored) && reloads == old(reloads)
    {
      password := p;
    }

    /** `handleLogin`: the right password opens the session and persists it; a wrong one changes nothing. */
    method HandleLogin() returns (granted: bool)
      modifies this
      ensures granted <==> old(password) == EditorPassword
      ensures granted ==> isAuthenticated && stored == Some("true")
      ensures !granted ==> isAuthenticated == old(isAuthenticated) && stored == old(stored)
      ensures content == old(content) && loading == old(loading) && saving == old(saving)
      ensures password == old(password) && reloads == old(reloads)
    {
      granted := password == EditorPassword;
      if granted {
        isAuthenticated := true;
        stored := Some("true");
      }
    }

    /** `handleLogout`: the session ends and the stored flag is removed. */
    method HandleLogout()
      modifies this
      ensures !isAuthenticated && stored == None
      ensures content == old(content) && loading == old(loading) && saving == old(saving)
      ensures password == old(password) && reloads == old(reloads)
    {
      isAuthenticated := false;
      stored := None;
    }

    /**
     * `handleSave(newContent)`: the document is posted; only an OK answer makes
     * it the working copy and reloads the shared content. `saving` is off
     * afterwards either way. Returns the document posted.
     */
    method HandleSave(newContent: Option<Json>, ok: bool) returns (posted: Option<Json>)
      modifies this
      ensures posted == newContent
      ensures ok ==> content == newContent && reloads == old(reloads) + 1
      ensures !ok ==> content == old(content) && reloads == old(reloads)
      ensures !saving
      ensures loading == old(loading) && isAuthenticated == old(isAuthenticated)
      ensures password == old(password) && stored == old(stored)
    {
      saving := true;
      posted := newContent;
      if ok {
        content := newContent;
        reloads := reloads + 1;
      }
      saving := false;
    }

    /** The "Save All Changes" button: `handleSave()` posts the working copy itself. */
    method SaveAll(ok: bool) returns (posted: Option<Json>)
      modifies this
      ensures posted == old(content) && content == old(content)
      ensures !saving
      ensures reloads == old(reloads) + (if ok then 1 else 0)
      ensures loading == old(loading) && isAuthenticated == old(isAuthenticated)
      ensures password == old(password) && stored == old(stored)
    {
      posted := HandleSave(content, ok);
    }

    /**
     * `updateNestedValue(path, value)`: nothing without a working copy; the
     * working copy is replaced by its updated copy, unless the walk throws.
     */
    method UpdateNestedValue(path: Path, value: Json)
      modifies this
      ensures old(content).None? ==> content == None
      ensures old(content).Some? && Update(old(content).value, path, value).None? ==> content == old(content)
      ensures old(content).Some? && Update(old(content).value, path, value).Some? ==>
        content == Update(old(content).value, path, value)
      ensures loading == old(loading) && saving == old(saving) && isAuthenticated == old(isAuthenticated)
      ensures password == old(password) && stored == old(stored) && reloads == old(reloads)
    {
      if content.None? {
        return;
      }
      var r := UpdateNested(content.value, path, value);
      if r.Some? {
        content := r;
      }
    }

    /** A Home-tab input's change handler (for the hero image, the upload callback). */
    method EditHomeField(f: HomeField, text: string)
      modifies this
      ensures old(content).Some? && Update(old(content).value, HomeFieldPath(f), JString(text)).Some? ==>
        content.Some? && Get(content.value, HomeFieldPath(f)) == Some(JString(text)) &&
        forall q :: Diverges(q, HomeFieldPath(f)) ==> Get(content.value, q) == Get(old(content).value, q)
      ensures old(content).None? || Update(old(content).value, HomeFieldPath(f), JString(text)).None? ==>
        content == old(content)
      ensures loading == old(loading) && saving == old(saving) && isAuthenticated == old(isAuthenticated)
      ensures password == old(password) && stored == old(stored) && reloads == old(reloads)
    {
      ghost var before := content;
      UpdateNestedValue(HomeFieldPath(f), JString(text));
      if before.Some? && Update(before.value, HomeFieldPath(f), JString(text)).Some? {
        UpdateWrites(before.value, HomeFieldPath(f), JString(text), []);
        UpdateFrame(before.value, HomeFieldPath(f), JString(text));
      }
    }

    /**
     * Corrected Home-tab edit: a missing object on the way (such as
     * `home.buttons`) is created, so a button label is stored.
     */
    method EditHomeFieldCreating(f: HomeField, text: string)
      modifies this
      ensures old(content).Some? && UpdateCreating(old(content).value, HomeFieldPath(f), JString(text)).Some? ==>
        content.Some? && Get(content.value, HomeFieldPath(f)) == Some(JString(text)) &&
        forall q :: Diverges(q, HomeFieldPath(f)) ==> Get(content.value, q) == Get(old(content).value, q)
      ensures old(content).None? || UpdateCreating(old(content).value, HomeFieldPath(f), JString(text)).None? ==>
        content == old(content)
      ensures loading == old(loading) && saving == old(saving) && isAuthenticated == old(isAuthenticated)
      ensures password == old(password) && stored == old(stored) && reloads == old(reloads)
    {
      if content.None? {
        return;
      }
      var path := HomeFieldPath(f);
      var r := UpdateCreating(content.value, path, JString(text));
      if r.Some? {
        assert Parent(path) + [LeafKey(path)] == path;
        SetAtCreatingWrites(content.value, Parent(path), LeafKey(path), JString(text));
        forall q | Diverges(q, path)
          ensures Get(r.value, q) == Get(content.value, q)
        {
          SetAtCreatingFrame(content.value, Parent(path), LeafKey(path), JString(text), q);
        }
        content := r;
      }
    }

    /** Login form until authenticated, whatever the content; then a spinner until the copy is there. */
    function CurrentView(): (v: View)
      reads this
      ensures !isAuthenticated ==> v == LoginForm
      ensures isAuthenticated && (loading || content.None?) ==> v == Spinner
      ensures v == Editor <==> isAuthenticated && !loading && content.Some?
    {
      if !isAuthenticated then LoginForm
      else if loading || content.None? then Spinner
      else Editor
    }
  }
}
