/**
 * The image uploader: which requirements apply, the size rule, the name the
 * upload is stored under, and the step sequence of `handleFileSelect` over
 * the component's `processing` and `preview` state. The format check, the
 * resize, the object URL, the clock and the server's answer are inputs.
 */
module ImageUploader {
  import opened Wrappers
  import opened Text

  /** What an image slot demands: a display name, the target size in pixels, a size bound in KB, the accepted formats. */
  datatype Requirements = Requirements(name: string, width: nat, height: nat, maxSizeKB: nat, formats: seq<string>)

  /** The formats every image slot of the editors accepts. */
  const WebFormats: seq<string> := ["jpg", "jpeg", "png", "webp"]

  /**
   * `customRequirements || (imageName ? IMAGE_REQUIREMENTS[imageName] : null)`:
   * explicit requirements win; otherwise a non-empty name is looked up. None
   * means the component renders its error and offers no upload.
   */
  function Resolve(custom: Option<Requirements>, imageName: Option<string>, table: map<string, Requirements>): (r: Option<Requirements>)
    ensures custom.Some? ==> r == custom
    ensures custom.None? ==> (r.Some? <==> imageName.Some? && imageName.value != "" && imageName.value in table)
    ensures custom.None? && r.Some? ==> r.value == table[imageName.value]
  {
    if custom.Some? then custom
    else if imageName.Some? && imageName.value != "" && imageName.value in table then Some(table[imageName.value])
    else None
  }

  /** The resized image may be uploaded: it is not larger than `maxSizeKB` kilobytes of 1024 bytes. */
  predicate SizeAccepted(bytes: nat, maxSizeKB: nat) {
    bytes <= maxSizeKB * 1024
  }

  /**
   * The source rejects when `size / 1024 > maxSizeKB`; dividing by 1024 is
   * exact, so that is the integer rule above.
   */
  lemma SizeRuleMatchesKilobytes(bytes: nat, maxSizeKB: nat)
    ensures !SizeAccepted(bytes, maxSizeKB) <==> (bytes as real) / 1024.0 > maxSizeKB as real
  {
    var kb := (bytes as real) / 1024.0;
    assert kb * 1024.0 == bytes as real;
    if bytes > maxSizeKB * 1024 {
      assert kb * 1024.0 > (maxSizeKB as real) * 1024.0;
    } else {
      assert kb * 1024.0 <= (maxSizeKB as real) * 1024.0;
    }
  }

  /** `fileName.split('.').pop()`: the text after the last dot, or the whole name when there is none. */
  function Extension(fileName: string): (ext: string)
    ensures '.' !in ext
  {
    var parts := Split(fileName, ".");
    var last := parts[|parts| - 1];
    SplitPiecesFree(fileName, '.');
    assert forall j :: 0 <= j < |last| ==> last[j] != '.';
    last
  }

  lemma ExtensionWithoutDot(fileName: string)
    requires '.' !in fileName
    ensures Extension(fileName) == fileName
  {
    SplitWithoutSeparator(fileName, '.');
  }

  lemma ExtensionAfterLastDot(stem: string, ext: string)
    requires '.' !in ext
    ensures Extension(stem + "." + ext) == ext
  {
    SplitLastPiece(stem, '.', ext);
  }

  /** `name.toLowerCase().replace(/\s+/g, '-')`. */
  function NameStem(name: string): string {
    ReplaceRuns(Lower(name), IsSpace, '-')
  }

  /** The stem holds no whitespace: each run of it became a single `-`. */
  lemma NameStemHasNoSpace(name: string)
    ensures forall i :: 0 <= i < |NameStem(name)| ==> !IsSpace(NameStem(name)[i])
  {
    ReplaceRunsAlphabet(Lower(name), IsSpace, '-');
  }

  /** The stored name: stem, `-`, the timestamp in decimal, `.`, the original file's extension. */
  function UploadFilename(name: string, now: nat, original: string): (fn: string)
    ensures Extension(fn) == Extension(original)
  {
    var fn := NameStem(name) + "-" + Decimal(now) + "." + Extension(original);
    ExtensionAfterLastDot(NameStem(name) + "-" + Decimal(now), Extension(original));
    fn
  }

  /** Two uploads for the same slot and file get different names at different timestamps. */
  lemma UploadFilenameInjective(name: string, t1: nat, t2: nat, original: string)
    requires UploadFilename(name, t1, original) == UploadFilename(name, t2, original)
    ensures t1 == t2
  {
    var stem := NameStem(name) + "-";
    var ext := "." + Extension(original);
    var d1, d2 := Decimal(t1), Decimal(t2);
    assert UploadFilename(name, t1, original) == stem + d1 + ext;
    assert UploadFilename(name, t2, original) == stem + d2 + ext;
    assert (stem + d1 + ext)[|stem|..] == d1 + ext;
    assert (stem + d2 + ext)[|stem|..] == d2 + ext;
    var s := d1 + ext;
    assert s == d2 + ext;
    // the digits end where the first dot is
    assert |d1| == |d2|;
    assert d1 == s[..|d1|] == d2;
    DecimalRoundTrip(t1);
    DecimalRoundTrip(t2);
  }

  /** What the server answered: no answer (fetch threw), a non-OK status, or OK with the stored path. */
  datatype Response = NetworkError | NotOk | Ok(path: string)

  /** What `handleFileSelect` makes happen, in order. */
  datatype Event =
    | ProcessingSet(on: bool)
    | InvalidFormatToast(formats: seq<string>)
    | ResizeRequested(width: nat, height: nat)
    | TooLargeToast(bytes: nat, maxSizeKB: nat)
    | PreviewSet(url: string)
    | UploadRequested(fileName: string, filenameField: string)
    | SuccessToast
    | UploadCompleted(path: string)
    | ReloadScheduled
    | FailureToast

  /** One mounted uploader with resolved requirements. */
  class Uploader {
    const requirements: Requirements
    /** Whether the parent passed `onUploadComplete`. */
    const hasCallback: bool
    var processing: bool
    var preview: Option<string>

    constructor (requirements: Requirements, hasCallback: bool)
      ensures this.requirements == requirements && this.hasCallback == hasCallback
      ensures !processing && preview == None
    {
      this.requirements := requirements;
      this.hasCallback := hasCallback;
      processing := false;
      preview := None;
    }

    /**
     * `handleFileSelect`. `file` is the chosen file's name, `formatOk` the
     * format check, `resized` the byte size of the resized image (None when
     * resizing fails), `previewUrl` the object URL, `now` the clock.
     * Returning early from the `try` still runs the `finally`, so the
     * rejections turn `processing` off twice.
     */
    method HandleFileSelect(file: Option<string>, formatOk: bool, resized: Option<nat>, previewUrl: string,
                            now: nat, response: Response) returns (events: seq<Event>)
      modifies this
      ensures file.None? ==> events == [] && processing == old(processing) && preview == old(preview)
      ensures file.Some? ==> !processing && |events| >= 3
      ensures file.Some? ==> events[0] == ProcessingSet(true) && events[|events| - 1] == ProcessingSet(false)
      ensures file.Some? && !formatOk ==>
        preview == old(preview) &&
        events == [ProcessingSet(true), InvalidFormatToast(requirements.formats), ProcessingSet(false), ProcessingSet(false)]
      ensures file.Some? && formatOk && resized.None? ==>
        preview == old(preview) &&
        events == [ProcessingSet(true), ResizeRequested(requirements.width, requirements.height), FailureToast, ProcessingSet(false)]
      ensures file.Some? && formatOk && resized.Some? && !SizeAccepted(resized.value, requirements.maxSizeKB) ==>
        preview == old(preview) &&
        events == [ProcessingSet(true), ResizeRequested(requirements.width, requirements.height),
                   TooLargeToast(resized.value, requirements.maxSizeKB), ProcessingSet(false), ProcessingSet(false)]
      ensures file.Some? && formatOk && resized.Some? && SizeAccepted(resized.value, requirements.maxSizeKB) ==>
        var fn := UploadFilename(requirements.name, now, file.value);
        preview == Some(previewUrl) && |events| >= 5 &&
        events[..4] == [ProcessingSet(true), ResizeRequested(requirements.width, requirements.height),
                        PreviewSet(previewUrl), UploadRequested(fn, fn)] &&
        events[4..] == (match response
                        case Ok(p) => [SuccessToast] + (if hasCallback then [UploadCompleted(p)] else [ReloadScheduled])
                        case _ => [FailureToast]) + [ProcessingSet(false)]
    {
      if file.None? {
        return [];
      }
      processing := true;
      events := [ProcessingSet(true)];
      if !formatOk {
        events := events + [InvalidFormatToast(requirements.formats)];
        processing := false;
        events := events + [ProcessingSet(false)];
      } else {
        events := events + [ResizeRequested(requirements.width, requirements.height)];
        if resized.None? {
          events := events + [FailureToast];
        } else if !SizeAccepted(resized.value, requirements.maxSizeKB) {
          events := events + [TooLargeToast(resized.value, requirements.maxSizeKB)];
          processing := false;
          events := events + [ProcessingSet(false)];
        } else {
          preview := Some(previewUrl);
          events := events + [PreviewSet(previewUrl)];
          var fn := UploadFilename(requirements.name, now, file.value);
          events := events + [UploadRequested(fn, fn)];
          match response {
            case Ok(p) =>
              events := events + [SuccessToast];
              if hasCallback {
                events := events + [UploadCompleted(p)];
              } else {
                events := events + [ReloadScheduled];
              }
            case _ =>
              events := events + [FailureToast];
          }
        }
      }
      // finally
      processing := false;
      events := events + [ProcessingSet(false)];
    }
  }
}
