# Raou Lite editing and selection logic in Dafny

Raou Lite is a travel-agency site. The whole site is one JSON document,
and a password-guarded editor page changes that document. This project
models the parts that decide what the site does with the document:

- the editor's nested-path assignment, used by the Home tab and by the
  Global, Services and About editors;
- the keyed list edits: menu items, portfolio entries, journal posts by
  slug, and destinations by slug with their comma-separated countries;
- the image uploader's decision pipeline and its file names;
- the short/long display mode and the `x_short || x` / `x_long || x`
  fallbacks;
- the page-head (SEO) strings;
- the article page's lookup, paragraph split and `**bold**` stripping;
- the choices made by the About and Home pages.

The document is the `Json` datatype (`json.dfy`). The editors that deep-copy
it (`JSON.parse(JSON.stringify(...))`) work on values: a path update
returns a new document, and the old one is untouched by construction. The
Journal and Country editors only spread the top level (`{ ...content }`).
They are classes over shared objects (`shared_content.dfy`), so a write
into the shared posts or destinations array is visible through the
caller's document as well.

Browser and network effects are inputs:
- the server's answer to a save or an upload;
- the format check and the resized size of an image;
- the clock, the confirmation dialog and the stored session flag.

An editor's `onSave` calls come back as the list of documents saved (empty
or one).

## Model

| member | source | states |
|---|---|---|
| Json.UpdateNested | src/pages/ContentEditor.tsx:102-113 | the loop that walks `path[0..n-2]` and assigns the last key computes exactly `Update` |
| Json.UpdateSucceedsIff | src/pages/ContentEditor.tsx:108-112 | the assignment succeeds iff every proper prefix of the path reaches an object; otherwise the walk throws |
| Json.UpdateWrites | src/pages/ContentEditor.tsx:112 | after a successful update the path holds the new value, and so does everything below it |
| Json.UpdateFrame | src/pages/ContentEditor.tsx:105-112 | every path that diverges from the updated one reads the same before and after |
| Json.MissingButtonsFails | src/pages/ContentEditor.tsx:108-112 | with `home.buttons` absent, writing `["home","buttons",k]` fails |
| Json.Target | src/pages/ContentEditor.tsx:112 | the key written is the path itself, except for an empty path, which writes key `"undefined"` |
| Json.GetExtend | src/pages/ContentEditor.tsx:109 | one more step of the walk reads a key of the object reached so far |
| Json.SetAtSucceedsIff | src/pages/ContentEditor.tsx:108-112 | the walk over the parent keys succeeds iff it reaches an object |
| Json.SetAtFailsAt | src/pages/ContentEditor.tsx:109 | the walk fails when some step lands on a non-object |
| Json.SetAtWrites | src/pages/ContentEditor.tsx:112 | the assigned key holds the value after the walk |
| Json.SetAtBelow | src/pages/ContentEditor.tsx:112 | paths below the assigned key read inside the new value |
| Json.SetAtFrame | src/pages/ContentEditor.tsx:105-112 | diverging paths are unchanged by the walk-and-assign |
| Json.SetAtCreatingExtends | src/pages/ContentEditor.tsx:108-112 | the creating walk agrees with the plain one wherever the plain one succeeds |
| Json.SetAtCreatingFromEmpty | src/pages/ContentEditor.tsx:108-112 | starting from an empty object, the creating walk always succeeds |
| Json.SetAtCreatingWrites | src/pages/ContentEditor.tsx:112 | the creating walk stores the value at the path |
| Json.SetAtCreatingFrame | src/pages/ContentEditor.tsx:105-112 | the creating walk leaves diverging paths unchanged |
| Json.MissingButtonsCreated | src/pages/ContentEditor.tsx:243-258 | with `home.buttons` absent, the plain update fails but the creating update stores the label |
| ContentEditor.HomeFieldPath | src/pages/ContentEditor.tsx:194-280 | each Home-tab input writes a path of three or four keys |
| ContentEditor.HomeHeroSlotBound | src/pages/ContentEditor.tsx:209-215 | the home hero slot is 1920×1080, and 2000 KB is accepted while one byte more is not |
| ContentEditor.ButtonEditFailsWithoutButtons | src/pages/ContentEditor.tsx:243-258 | with `home.buttons` absent, a button-label edit changes nothing |
| ContentEditor.EditorPage.constructor | src/pages/ContentEditor.tsx:21-25 | no content, loading, not saving, not authenticated, empty password |
| ContentEditor.EditorPage.RestoreSession | src/pages/ContentEditor.tsx:30-35 | a stored `"true"` authenticates; nothing else changes |
| ContentEditor.EditorPage.ReceiveContent | src/pages/ContentEditor.tsx:37-42 | once content arrives it becomes the working copy and loading ends |
| ContentEditor.EditorPage.SetPassword | src/pages/ContentEditor.tsx:130 | only the password text changes |
| ContentEditor.EditorPage.HandleLogin | src/pages/ContentEditor.tsx:44-58 | access is granted iff the password is the fixed `"raou2024"` (line 28); then the flag is set and persisted, otherwise nothing changes |
| ContentEditor.EditorPage.HandleLogout | src/pages/ContentEditor.tsx:61-63 | the flag is cleared and the stored entry removed |
| ContentEditor.EditorPage.HandleSave | src/pages/ContentEditor.tsx:70-99 | the posted document becomes the working copy only on an OK answer; `saving` is false afterwards either way |
| ContentEditor.EditorPage.SaveAll | src/pages/ContentEditor.tsx:70-99 | the "Save All Changes" button (line 162) calls `handleSave()` without an argument, so the working copy itself is posted and stays the working copy |
| ContentEditor.EditorPage.UpdateNestedValue | src/pages/ContentEditor.tsx:102-114 | no-op without content; otherwise the working copy becomes `Update` of itself, unless the walk throws |
| ContentEditor.EditorPage.EditHomeField | src/pages/ContentEditor.tsx:194-280 | a Home-tab edit stores its text at its path and leaves diverging paths alone, or changes nothing when the walk throws |
| ContentEditor.EditorPage.EditHomeFieldCreating | src/pages/ContentEditor.tsx:243-258 | corrected edit: missing objects on the way are created, the text is stored and diverging paths are kept |
| ContentEditor.EditorPage.CurrentView | src/pages/ContentEditor.tsx:116-150 | login form whenever not authenticated; spinner while loading or without content; the editor otherwise |
| SectionEditor.HandleSave | src/components/admin/GlobalEditor.tsx:15-24 | `onSave` is called once iff the parent of the path is an object, with `Update(content, path, value)`; the value is at the path and diverging paths are unchanged |
| SectionEditor.AssignIndex | src/components/admin/GlobalEditor.tsx:28 | JavaScript index assignment on a copied array: replace in range, grow with holes past the end, ignore a negative index |
| SectionEditor.ArrayAt | src/components/admin/GlobalEditor.tsx:27 | the array stored at a path, when there is one |
| SectionEditor.SaveArray | src/components/admin/GlobalEditor.tsx:29 | saving an array where an array is stored always succeeds, stores the new array and keeps diverging paths |
| SectionEditor.GetParentIsObject | src/components/admin/GlobalEditor.tsx:18-21 | a path that reads a value has an object as its parent |
| GlobalEditor.WithField | src/components/admin/GlobalEditor.tsx:28 | `{ ...item, [field]: value }` sets the field and keeps every other field of an object item |
| GlobalEditor.UpdateMenuItem | src/components/admin/GlobalEditor.tsx:26-30 | the menu keeps its length when the index is in range; only field `f` of item `i` changes; the rest of the document is unchanged |
| GlobalEditor.AddMenuItem | src/components/admin/GlobalEditor.tsx:32-35 | the menu grows by one, the old items stay in front, and the new last item is exactly the object `{label: "New Link", path: "/"}` (reading back as that link); nothing outside the menu changes |
| GlobalEditor.RemoveMenuItem | src/components/admin/GlobalEditor.tsx:37-40 | exactly the item at `i` is removed, order kept; an out-of-range `i` keeps the list |
| ContentTypes.MenuItemToJson | src/types/content.types.ts:18-22 | a menu item is stored as an object with `label`, `path` and, when set, `hasDropdown` |
| ContentTypes.MenuItemFromJson | src/types/content.types.ts:18-22 | an object with a string `label` reads back as a menu item |
| ContentTypes.MenuItemRoundTrip | src/types/content.types.ts:18-22 | storing and reading back a menu item gives it back |
| ServicesEditor.FieldPath | src/components/admin/ServicesEditor.tsx:45-132 | every Services input writes a three-key path under `services` |
| ServicesEditor.FieldPathsDiverge | src/components/admin/ServicesEditor.tsx:45-132 | distinct inputs write diverging paths |
| ServicesEditor.HeroSlotBound | src/components/admin/ServicesEditor.tsx:60-66 | the hero slot is 1920×1080, and 2000 KB is accepted while one byte more is not |
| ServicesEditor.Edit | src/components/admin/ServicesEditor.tsx:15-24 | an edit stores its text at its path and leaves every other input's value and every diverging path unchanged |
| ServicesEditor.UpdatePortfolio | src/components/admin/ServicesEditor.tsx:26-30 | the portfolio at `["services","dmc","portfolio"]` keeps its length and changes only entry `i` |
| AboutEditor.FieldPath | src/components/admin/AboutEditor.tsx:39-124 | every About input writes under `about`; only the main content writes a two-key path |
| AboutEditor.FieldPathsDiverge | src/components/admin/AboutEditor.tsx:39-124 | distinct inputs write diverging paths |
| AboutEditor.SlotBounds | src/components/admin/AboutEditor.tsx:54-131 | hero slot (lines 54-60) 1920×1080 up to 2000 KB; founder slot (lines 125-131) 800×1000 up to 1000 KB, both bounds inclusive |
| AboutEditor.Edit | src/components/admin/AboutEditor.tsx:15-24 | an edit stores its text at its path and leaves other inputs and diverging paths unchanged |
| AboutEditor.VariantKeyDiverges | src/components/admin/AboutEditor.tsx:90 | the main-content edit never touches `content_short` or `content_long` |
| AboutEditor.MainContentEditCrashesPage | src/components/admin/AboutEditor.tsx:89-90 | as written: after a main-content edit, with no truthy variant, the About page throws |
| AboutEditor.ParagraphList | src/components/admin/AboutEditor.tsx:89-90 | the typed text as a list of paragraphs, one per `"\n\n"`-separated piece |
| AboutEditor.EditMainContentAsParagraphs | src/components/admin/AboutEditor.tsx:89-90 | corrected edit: stores the paragraph list at `["about","content"]`, changing nothing else |
| AboutEditor.ParagraphEditShowsParagraphs | src/pages/About.tsx:15-58 | after the corrected edit the page shows the pieces, and joining them gives back the typed text |
| JournalEditor.GeneratedSlugShape | src/components/admin/JournalEditor.tsx:65-66 | a generated slug holds only `a-z`, `0-9` and `-`, and never `--` |
| JournalEditor.GeneratedSlugKeepsAlphanumerics | src/components/admin/JournalEditor.tsx:66 | the letters and digits of the lower-cased title survive in order |
| JournalEditor.Prepared | src/components/admin/JournalEditor.tsx:59-68 | when no post has the current slug and the slug is empty, the saved post is the current post with its slug generated from its title; in every other case the current post unchanged |
| JournalEditor.UpsertReplacesFirstMatch | src/components/admin/JournalEditor.tsx:59-62 | a taken slug replaces the first post with that slug in place; the count stays |
| JournalEditor.UpsertAppendsNew | src/components/admin/JournalEditor.tsx:63-68 | a post whose slug is new is appended at the end after the old posts; the appended post has its slug generated from its title exactly when that slug was empty, and is the post itself otherwise |
| JournalEditor.GeneratedSlugMayRepeat | src/components/admin/JournalEditor.tsx:59-68 | a generated slug that is already taken is appended anyway, so two posts share it |
| JournalEditor.NewPost | src/components/admin/JournalEditor.tsx:36-44 | a new post has an empty slug, author `"Raou Editorial"` and the hero-background image |
| JournalEditor.Editor.constructor | src/components/admin/JournalEditor.tsx:17-26 | not editing; every field of the current post is empty |
| JournalEditor.Editor.HandleEdit | src/components/admin/JournalEditor.tsx:30-33 | editing the given post |
| JournalEditor.Editor.HandleCreate | src/components/admin/JournalEditor.tsx:35-46 | editing a new post dated today |
| JournalEditor.Editor.HandleCancel | src/components/admin/JournalEditor.tsx:153 | leaves editing mode and touches no document |
| JournalEditor.Editor.HandleSave | src/components/admin/JournalEditor.tsx:55-74 | the shared posts array becomes `Upsert` of its old contents (a missing journal is created on the copy); editing ends |
| JournalEditor.Editor.HandleDelete | src/components/admin/JournalEditor.tsx:48-53 | the shared journal gets a new array without the posts with that slug; no journal means the handler throws |
| SharedContent.Document.ShallowCopy | src/components/admin/JournalEditor.tsx:56 | `{ ...content }` is a new object sharing the journal and destinations |
| CountryEditor.DestinationSlot | src/components/admin/CountryEditor.tsx:134-140 | a destination's slot is named after its region, 1200×800, up to 1500 KB |
| CountryEditor.SplitCountries | src/components/admin/CountryEditor.tsx:147 | one trimmed name per comma-separated piece |
| CountryEditor.CountriesRoundTrip | src/components/admin/CountryEditor.tsx:146-147 | reading the `", "`-joined list back gives it unchanged when it is non-empty and its names are trimmed and comma-free |
| CountryEditor.EmptyCountriesReadBack | src/components/admin/CountryEditor.tsx:146-147 | an empty list is read back as `[""]` |
| CountryEditor.SplitCountriesClean | src/components/admin/CountryEditor.tsx:146-147 | whatever the input writes is clean, so showing and reading it back again changes nothing |
| CountryEditor.NewSlug | src/components/admin/CountryEditor.tsx:46 | the added slug is `new-destination-` followed by the timestamp |
| CountryEditor.NewSlugInjective | src/components/admin/CountryEditor.tsx:46 | additions at different times get different slugs |
| CountryEditor.NewDestination | src/components/admin/CountryEditor.tsx:47-54 | the placeholder destination's slug, region, image and countries |
| CountryEditor.WithText | src/components/admin/CountryEditor.tsx:110-125 | typing into a text input changes only that field of the working copy |
| CountryEditor.Editor.constructor | src/components/admin/CountryEditor.tsx:18-19 | nothing selected, no working copy |
| CountryEditor.Editor.Select | src/components/admin/CountryEditor.tsx:84 | the drop-down sets the selection only |
| CountryEditor.Editor.SyncSelection | src/components/admin/CountryEditor.tsx:21-30 | the first destination with the selected slug becomes the working copy; an unmatched or empty selection keeps it |
| CountryEditor.Editor.EditText | src/components/admin/CountryEditor.tsx:110-125 | the working copy gets the typed text in that field |
| CountryEditor.Editor.EditCountries | src/components/admin/CountryEditor.tsx:147 | the working copy's countries become the split of the typed text |
| CountryEditor.Editor.SetImage | src/components/admin/CountryEditor.tsx:133 | the working copy's image becomes the uploaded path |
| CountryEditor.Editor.HandleSave | src/components/admin/CountryEditor.tsx:32-43 | nothing is saved without a selection, a working copy, a destinations array or a match; otherwise the first match in the shared array is replaced and its length kept |
| CountryEditor.Editor.HandleAdd | src/components/admin/CountryEditor.tsx:45-63 | the placeholder is pushed onto the shared array (or a new one on the copy) and selected |
| CountryEditor.Editor.HandleDelete | src/components/admin/CountryEditor.tsx:65-77 | only when confirmed: the copy gets a new array without the selected slug; the selection and working copy are cleared |
| ImageUploader.Resolve | src/components/ImageUploader.tsx:27-31 | custom requirements win; otherwise the named entry; with neither there are none and nothing can be uploaded |
| ImageUploader.SizeRuleMatchesKilobytes | src/components/ImageUploader.tsx:60-61 | the integer byte bound rejects exactly the sizes whose kilobytes exceed the maximum |
| ImageUploader.Extension | src/components/ImageUploader.tsx:78 | the text after the last `.`, which contains no `.` |
| ImageUploader.ExtensionWithoutDot | src/components/ImageUploader.tsx:78 | a name without `.` is its own extension |
| ImageUploader.ExtensionAfterLastDot | src/components/ImageUploader.tsx:78 | the extension is what follows the last `.` |
| ImageUploader.NameStemHasNoSpace | src/components/ImageUploader.tsx:78 | the lower-cased slot name with white-space runs replaced holds no white space |
| ImageUploader.UploadFilename | src/components/ImageUploader.tsx:78 | the file name keeps the original's extension |
| ImageUploader.UploadFilenameInjective | src/components/ImageUploader.tsx:78 | uploads at different times get different file names |
| ImageUploader.Uploader.constructor | src/components/ImageUploader.tsx:22-23 | not processing, no preview |
| ImageUploader.Uploader.HandleFileSelect | src/components/ImageUploader.tsx:33-119 | the exact step sequence per outcome: no file does nothing; a bad format stops before resizing; too large stops before upload; the same file name is sent twice; success calls back once with the returned path; `processing` ends false every time |
| ContentMode.ModeForWidth | src/contexts/ContentModeContext.tsx:21 | short iff the width is at most 1024 |
| ContentMode.BreakpointEdges | src/contexts/ContentModeContext.tsx:21 | 1024 gives short, 1025 gives long |
| ContentMode.ModeMonotone | src/contexts/ContentModeContext.tsx:21 | a narrower window is never in a longer mode |
| ContentMode.ModeAfterResizesIsLast | src/contexts/ContentModeContext.tsx:17-22 | after resizes the mode depends only on the latest width |
| ContentMode.ResizeRepeatIsIdle | src/contexts/ContentModeContext.tsx:17-22 | repeating the last width changes nothing |
| ContentMode.ModeProvider.constructor | src/contexts/ContentModeContext.tsx:14 | the initial mode is short |
| ContentMode.ModeProvider.Mount | src/contexts/ContentModeContext.tsx:24-27 | mounting recomputes the mode from the current width and starts listening |
| ContentMode.ModeProvider.HandleResize | src/contexts/ContentModeContext.tsx:17-22 | the mode becomes the breakpoint rule's mode for the width |
| ContentMode.ModeProvider.Unmount | src/contexts/ContentModeContext.tsx:28 | listening stops and the mode is kept |
| ContentMode.ModeProvider.SetMode | src/contexts/ContentModeContext.tsx:35 | the exposed setter sets the mode |
| ContentMode.ModeProvider.ToggleMode | src/contexts/ContentModeContext.tsx:32 | toggling never changes the mode |
| ContentMode.UseContentMode | src/contexts/ContentModeContext.tsx:41-47 | inside a provider the hook gives its mode; outside it raises the provider error |
| Variants.Or | src/pages/Home.tsx:56 | `a \|\| b` keeps a truthy `a` and otherwise gives `b` |
| Variants.StringVariantFallsBack | src/pages/About.tsx:45 | a missing or empty string variant falls back to the plain field |
| Variants.StringVariantChosen | src/pages/About.tsx:45 | a non-empty string variant is shown |
| Variants.ArrayVariantChosen | src/pages/About.tsx:15-17 | an array variant is chosen even when empty |
| Variants.SuffixesDiffer | src/pages/About.tsx:15-17 | the two modes read different keys |
| AboutPage.Paragraphs | src/pages/About.tsx:15-58 | the paragraph list is the selected variant when it is an array; otherwise `.map` throws |
| AboutPage.AboutView | src/pages/About.tsx:12-58 | nothing before the content is loaded; the subtitle and paragraphs when both can be read; a thrown error otherwise |
| AboutPage.EmptyVariantHidesContent | src/pages/About.tsx:15-17 | an empty variant array is shown, hiding the plain content |
| AboutPage.NonArrayContentCrashes | src/pages/About.tsx:16-54 | a non-array plain content without a truthy variant makes the page throw |
| AboutPage.HeroFallback | src/pages/About.tsx:36 | the first destination's image, or `""` without destinations |
| Seo.FullTitle | src/components/SEO.tsx:12-13 | the site title alone is kept; any other title is followed by exactly the suffix: a space, a vertical bar, a space and `"Raou Travel"`; either way the result ends with `"Raou Travel"` |
| Seo.FullTitleInjective | src/components/SEO.tsx:13 | different page titles give different full titles |
| Seo.FullTitleNotIdempotent | src/components/SEO.tsx:13 | an already-suffixed title gets the suffix again |
| Seo.FullUrl | src/components/SEO.tsx:14-15 | always starts with the base URL, followed by the path or nothing |
| Seo.FullUrlRecoversPath | src/components/SEO.tsx:15 | the URL determines the path; an absent and an empty path give the same URL |
| Seo.FullImage | src/components/SEO.tsx:16 | absolute images kept, other images behind the base URL, the logo otherwise; always starts with `http` |
| JournalDetail.ParagraphsRoundTrip | src/pages/JournalDetail.tsx:67 | one paragraph per `"\n\n"` plus one, and joining them restores the body |
| JournalDetail.CloseMark | src/pages/JournalDetail.tsx:69 | the lazy group ends at the first closing `**`, with no line terminator before it |
| JournalDetail.StripBold | src/pages/JournalDetail.tsx:69 | stripping never lengthens a paragraph |
| JournalDetail.StripBoldLength | src/pages/JournalDetail.tsx:69 | exactly four characters are removed per match |
| JournalDetail.NoBoldUnchanged | src/pages/JournalDetail.tsx:69 | a paragraph with no `**` is shown as written |
| JournalDetail.StripBoldAtMark | src/pages/JournalDetail.tsx:69 | a leading one-line `**x**` becomes `x` |
| JournalDetail.StripBoldOneMatch | src/pages/JournalDetail.tsx:69 | `a**x**b`, with no asterisk in `a` or `x`, becomes `a`, `x`, then `b` stripped |
| JournalDetail.Rendered | src/pages/JournalDetail.tsx:67-71 | one rendered paragraph per piece, none longer than its piece |
| JournalDetail.DetailView | src/pages/JournalDetail.tsx:13-30 | nothing while loading; not found without a journal or a match; otherwise the first post with the slug and its rendered paragraphs |
| HomePage.HeroSubtitle | src/pages/Home.tsx:56 | the mode's subtitle variant when truthy, else the plain subtitle |
| HomePage.IntroDescription | src/pages/Home.tsx:91 | the mode's description variant when truthy, else the plain description |
| HomePage.StepDescription | src/pages/Home.tsx:136 | a step's description variant when truthy, else its plain description |
| HomePage.Preview | src/pages/Home.tsx:158 | `slice(0, n)` is the first min(n, length) items |
| HomePage.DestinationsPreview | src/pages/Home.tsx:158 | the first min(3, n) destinations in order |
| HomePage.JournalPreview | src/pages/Home.tsx:213 | the first min(2, n) posts in order; no journal throws |
| HomePage.ButtonLabel | src/pages/Home.tsx:95 | a truthy stored label, else the default |
| HomePage.ButtonsDefaultWithoutButtons | src/pages/Home.tsx:95-206 | without `home.buttons` the three labels are `"OUR PHILOSOPHY"`, `"VIEW ALL DESTINATIONS"` and `"READ THE JOURNAL"` |
| HomePage.IntroImage | src/pages/Home.tsx:101 | a truthy intro image, else the first destination's image; with no destinations the page throws |
| HomePage.StepBadge | src/pages/Home.tsx:131 | `"0"` followed by digits |
| HomePage.StepBadgeNumber | src/pages/Home.tsx:131 | the digits read back as the 1-based step number; the tenth badge is `"010"` |
| Lists.IndexOfKey | src/components/admin/JournalEditor.tsx:59 | `findIndex`: the first index with the key, or -1 iff none has it |
| Lists.FindByKey | src/pages/JournalDetail.tsx:15 | `find`: the element at the first matching index, or none |
| Lists.RemoveKey | src/components/admin/JournalEditor.tsx:50 | `filter` by key: no element with the key remains and every other one does |
| Lists.RemoveKeyConcat | src/components/admin/CountryEditor.tsx:70 | filtering distributes over concatenation, so order is kept |
| Lists.RemoveKeyAbsent | src/components/admin/CountryEditor.tsx:70 | filtering out an absent key changes nothing |
| Lists.RemoveAt | src/components/admin/GlobalEditor.tsx:38 | filtering by index removes exactly that position when in range, else nothing |
| Lists.Assigned | src/components/admin/ServicesEditor.tsx:28 | JavaScript array index assignment, including growth past the end |
| Text.Lower | src/components/admin/JournalEditor.tsx:66 | lower-casing keeps the length |
| Text.TrimIsTrimmed | src/components/admin/CountryEditor.tsx:147 | `trim` gives a string with no leading or trailing white space |
| Text.TrimKeepsTrimmed | src/components/admin/CountryEditor.tsx:147 | `trim` leaves a trimmed string alone |
| Text.TrimAfterBlank | src/components/admin/CountryEditor.tsx:146-147 | `trim` removes the blank that the `", "` join puts before a name |
| Text.Split | src/pages/JournalDetail.tsx:67 | `split` gives at least one piece |
| Text.JoinSplit | src/pages/JournalDetail.tsx:67 | joining the pieces with the separator restores the string |
| Text.SplitCount | src/pages/JournalDetail.tsx:67 | pieces are one more than the separator's non-overlapping occurrences |
| Text.SplitPiecesFree | src/components/admin/CountryEditor.tsx:147 | no piece of a split on one character contains it |
| Text.SplitWithoutSeparator | src/components/admin/CountryEditor.tsx:147 | a string without the separator splits into itself |
| Text.ReplaceRuns | src/components/ImageUploader.tsx:78 | replacing runs gives an empty result only for an empty input |
| Text.ReplaceRunsAlphabet | src/components/admin/JournalEditor.tsx:66 | after replacement only the substitute and characters outside runs remain |
| Text.ReplaceRunsNoDouble | src/components/admin/JournalEditor.tsx:66 | a substitute that belongs to the run class never appears twice in a row |
| Text.ReplaceRunsKeepsOutside | src/components/admin/JournalEditor.tsx:66 | the characters outside runs survive in order |
| Text.Decimal | src/components/admin/CountryEditor.tsx:46 | a number's decimal digits, never empty |
| Text.DecimalRoundTrip | src/components/ImageUploader.tsx:78 | the digits read back as the number |

## Left out

- Array-index steps in a path (`current["0"]` on an array) are not modelled. No path the editors write goes through an array, and an array in the middle of a walk is treated as a failing step.
- Spreading a non-object menu item (a string or an array) into `{ ...item, [field]: value }` is modelled as giving only the new field. JavaScript would also copy indexed characters or elements.
- The key order of JSON objects is not modelled: objects are maps.
- `JSON.parse(JSON.stringify(...))` is value semantics. Dropped `undefined` fields and other serialisation quirks are not modelled.
- server.js (saving the document, storing uploads, static serving) is not part of this model. The server's answer is an input.
- `validateImageFormat`, `resizeImage` and `IMAGE_REQUIREMENTS` live in src/lib/imageUtils, which is not part of this model. The format check is a boolean input, the resized image is its byte size (or none when resizing throws), and the named table is a parameter.
- The kilobyte figure printed with `toFixed(0)` and the parallax offset on the Home page are floating point and are left out. The size bound is stated over integer bytes.
- Toasts, `localStorage`, `confirm()`, `window.location.reload`, `URL.createObjectURL`, `Date.now()` and `new Date().toLocaleDateString()` are inputs or recorded events, not effects.
- `useContent` and `reloadContent` (fetching and caching the document) are not part of this model. A reload after a save is counted.
- The rest of each page is rendering with no state worth stating: the Navigation, Contact, Services, Destinations, Journal, FadeIn and App views.
- The form fields of the Journal editor (`setCurrentPost({...currentPost, f: v})`) are not modelled one by one. `HandleEdit` covers any resulting post.
- `JournalEditor.Editor.HandleSave`: the handler assigns the generated slug into the current-post object itself, outside React state. The model treats that as setting the current post.
- A journal section without a `posts` array (a TypeError in both handlers) is not modelled: a journal section always has its posts.
- A destination's `countryLinks` and `countryDetails` are not modelled. No core operation touches them.
- Lower-casing covers ASCII letters only. Unicode case mapping is not modelled.
- The editor password is a plain string comparison in the browser. The session is the stored flag, as in the source.
- `ImageUploader.Uploader.HandleFileSelect`: a callback that throws inside the `try` (which would add a failure toast after the success toast) is not modelled. The callback is a recorded event.
- `ContentEditor.EditorPage.HandleSave`: the asynchronous save is one atomic step. Two overlapping saves are not modelled: the answer that arrives last would decide the working copy, and the first `finally` would clear `saving` while the second save is still pending.
- `AboutPage.AboutView`: the document is any JSON value, wider than the `string[]` and `string` fields that src/types/content.types.ts:101-111 declares. A paragraph or subtitle that is an object, which React would refuse to render, is shown by the model.
- `HomePage.HeroSubtitle`, `HomePage.IntroDescription` and `HomePage.IntroImage` assume that the `home.hero` and `home.intro` sections declared by `HomeConfig` exist. When a section is missing the page throws, but the model gives the fallback value.

## Findings

| source | as written | input that shows it | evidently intended | confidence | as-written member | corrected member |
|---|---|---|---|---|---|---|
| src/components/admin/AboutEditor.tsx:89-90, with src/pages/About.tsx:15-17, 54 | the main-content textarea stores its text as a string at `about.content`, which the About page maps over as an array | a document without `content_short`, short mode, and the text `"Hello"` typed into the main-content box: `"Hello".map` throws and the About page fails | store the text as a list of paragraphs (`string[]`, as the content type declares) | not executed | AboutEditor.MainContentEditCrashesPage | AboutEditor.EditMainContentAsParagraphs |
| src/pages/ContentEditor.tsx:243-258, with 108-112 | the button-label inputs show a default when `home.buttons` is missing, but their edit walks into `home.buttons` and throws there | a document whose `home` has no `buttons`, and any text typed into the "OUR PHILOSOPHY" input: the working copy is not changed | create the missing `home.buttons` object so that the typed label is stored | not executed | ContentEditor.ButtonEditFailsWithoutButtons | ContentEditor.EditorPage.EditHomeFieldCreating |
