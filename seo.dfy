/**
 * The page-head values every page derives from its own title, path and
 * image: the full title, the canonical URL and the preview image URL.
 */
module Seo {
  import opened Wrappers

  const SiteTitle := "Raou Travel"
  const TitleSuffix := " | Raou Travel"
  const BaseUrl := "https://raou-travel.com"
  const DefaultImage := "/assets/logo.png"

  predicate StartsWith(s: string, prefix: string) {
    |prefix| <= |s| && s[..|prefix|] == prefix
  }

  /** `fullTitle`: the site title alone, or the page title followed by " | Raou Travel". */
  function FullTitle(title: string): (r: string)
    ensures |r| >= |SiteTitle| && r[|r| - |SiteTitle|..] == SiteTitle
    ensures title == SiteTitle ==> r == title
    ensures title != SiteTitle ==> |r| == |title| + |TitleSuffix| && r[..|title|] == title
    ensures title != SiteTitle ==> r[|title|..] == TitleSuffix
  {
    if title == SiteTitle then title
    else
      var r := title + TitleSuffix;
      assert r[|r| - |SiteTitle|..] == TitleSuffix[3..] == SiteTitle;
      r
  }

  /** Different page titles give different full titles. */
  lemma FullTitleInjective(t1: string, t2: string)
    requires FullTitle(t1) == FullTitle(t2)
    ensures t1 == t2
  {
    if t1 != SiteTitle && t2 != SiteTitle {
      assert t1 == FullTitle(t1)[..|t1|];
      assert |t1| == |t2|;
    }
  }

  /** The rule is not idempotent: a title that already carries the suffix gets it again. */
  lemma FullTitleNotIdempotent(title: string)
    requires title != SiteTitle
    ensures FullTitle(FullTitle(title)) != FullTitle(title)
  {
    assert FullTitle(title) != SiteTitle by {
      assert |FullTitle(title)| > |SiteTitle|;
    }
  }

  /** `fullUrl`: the base URL, followed by the page path when it is given and not empty. */
  function FullUrl(url: Option<string>): (r: string)
    ensures StartsWith(r, BaseUrl)
    ensures r[|BaseUrl|..] == if url.Some? then url.value else ""
  {
    if url.Some? && url.value != "" then BaseUrl + url.value else BaseUrl
  }

  /** `fullImage`: an absolute image as given, a site path behind the base URL, or the logo. */
  function FullImage(image: Option<string>): (r: string)
    ensures StartsWith(r, "http")
    ensures image.Some? && StartsWith(image.value, "http") ==> r == image.value
    ensures image.Some? && image.value != "" && !StartsWith(image.value, "http") ==>
      StartsWith(r, BaseUrl) && r[|BaseUrl|..] == image.value
    ensures image.None? || image.value == "" ==> r == BaseUrl + DefaultImage
  {
    if image.Some? && image.value != "" then
      if StartsWith(image.value, "http") then image.value else BaseUrl + image.value
    else BaseUrl + DefaultImage
  }

  /** The canonical URL gives back the page path; an absent and an empty path are the same page. */
  lemma FullUrlRecoversPath(u1: Option<string>, u2: Option<string>)
    requires FullUrl(u1) == FullUrl(u2)
    ensures (if u1.Some? then u1.value else "") == (if u2.Some? then u2.value else "")
  {
  }
}
