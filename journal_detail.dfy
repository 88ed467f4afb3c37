/**
 * The article page: the post found by the route's slug, the not-found
 * view, and the body split into paragraphs with `**bold**` markers removed.
 */
module JournalDetail {
  import opened Wrappers
  import opened Text
  import opened ContentTypes
  import Lists

  const ParagraphBreak := "\n\n"

  /** `content.split('\n\n')`. */
  function Paragraphs(content: string): seq<string> {
    Split(content, ParagraphBreak)
  }

  /** One paragraph per break, plus one; joining them with the break gives the body back. */
  lemma ParagraphsRoundTrip(content: string)
    ensures |Paragraphs(content)| == Occurrences(content, ParagraphBreak) + 1
    ensures Join(Paragraphs(content), ParagraphBreak) == content
  {
    SplitCount(content, ParagraphBreak);
    JoinSplit(content, ParagraphBreak);
  }

  predicate BoldMarkAt(s: string, i: int) {
    0 <= i && i + 2 <= |s| && s[i] == '*' && s[i + 1] == '*'
  }

  /**
   * The lazy `(.*?)\*\*` of the bold pattern, run on the text after an
   * opening `**`: the offset of the first closing `**`, unless a line
   * terminator (which `.` does not match) or the end comes first.
   */
  function CloseMark(t: string): (j: Option<nat>)
    ensures j.Some? ==> BoldMarkAt(t, j.value)
    ensures j.Some? ==> forall k :: 0 <= k < j.value ==> !BoldMarkAt(t, k) && !IsLineTerminator(t[k])
  {
    if BoldMarkAt(t, 0) then Some(0)
    else if t == [] || IsLineTerminator(t[0]) then None
    else match CloseMark(t[1..])
      case None => None
      case Some(j) => Some(j + 1)
  }

  /** Every match of the global, lazy bold pattern (two asterisks, `(.*?)`, two asterisks) replaced by its inner text, scanning left to right. */
  function StripBold(s: string): (r: string)
    ensures |r| <= |s|
    decreases |s|
  {
    if s == [] then []
    else if BoldMarkAt(s, 0) && CloseMark(s[2..]).Some? then
      var j := CloseMark(s[2..]).value;
      s[2..2 + j] + StripBold(s[2 + j + 2..])
    else [s[0]] + StripBold(s[1..])
  }

  /** How many `**x**` matches the scan replaces. */
  function BoldMatches(s: string): nat
    decreases |s|
  {
    if s == [] then 0
    else if BoldMarkAt(s, 0) && CloseMark(s[2..]).Some? then
      1 + BoldMatches(s[2 + CloseMark(s[2..]).value + 2..])
    else BoldMatches(s[1..])
  }

  /** Each match loses exactly its four asterisks; nothing else is removed. */
  lemma {:induction false} StripBoldLength(s: string)
    ensures |StripBold(s)| == |s| - 4 * BoldMatches(s)
    decreases |s|
  {
    if s == [] {
    } else if BoldMarkAt(s, 0) && CloseMark(s[2..]).Some? {
      var j := CloseMark(s[2..]).value;
      StripBoldLength(s[2 + j + 2..]);
    } else {
      StripBoldLength(s[1..]);
    }
  }

  /** A paragraph with no `**` is shown as written. */
  lemma {:induction false} NoBoldUnchanged(s: string)
    requires forall i :: 0 <= i < |s| ==> !BoldMarkAt(s, i)
    ensures StripBold(s) == s
    ensures BoldMatches(s) == 0
    decreases |s|
  {
    if s != [] {
      assert !BoldMarkAt(s, 0);
      assert forall i :: 0 <= i < |s| - 1 ==> !BoldMarkAt(s[1..], i) by {
        forall i | 0 <= i < |s| - 1
          ensures !BoldMarkAt(s[1..], i)
        {
          assert !BoldMarkAt(s, i + 1);
        }
      }
      NoBoldUnchanged(s[1..]);
    }
  }

  /** A bold run on one line at the start loses its markers and keeps its inner text. */
  lemma StripBoldAtMark(x: string, b: string)
    requires '*' !in x
    requires forall k :: 0 <= k < |x| ==> !IsLineTerminator(x[k])
    ensures StripBold("**" + x + "**" + b) == x + StripBold(b)
  {
    var s := "**" + x + "**" + b;
    assert BoldMarkAt(s, 0);
    assert s[2..] == x + "**" + b;
    CloseMarkFound(x, b);
    assert s[2..2 + |x|] == x;
    assert s[2 + |x| + 2..] == b;
  }

  /** A bold run on one line, after text without asterisks, loses its markers and keeps its inner text. */
  lemma {:induction false} StripBoldOneMatch(a: string, x: string, b: string)
    requires '*' !in a && '*' !in x
    requires forall k :: 0 <= k < |x| ==> !IsLineTerminator(x[k])
    ensures StripBold(a + "**" + x + "**" + b) == a + x + StripBold(b)
    decreases |a|
  {
    if a == [] {
      assert a + "**" + x + "**" + b == "**" + x + "**" + b;
      StripBoldAtMark(x, b);
    } else {
      var s := a + "**" + x + "**" + b;
      assert s[0] == a[0] && !BoldMarkAt(s, 0);
      assert StripBold(s) == [s[0]] + StripBold(s[1..]);
      assert s[1..] == a[1..] + "**" + x + "**" + b;
      StripBoldOneMatch(a[1..], x, b);
      assert a == [a[0]] + a[1..];
    }
  }

  /** The closing mark after an asterisk-free, single-line `x` is the one right behind it. */
  lemma {:induction false} CloseMarkFound(x: string, b: string)
    requires '*' !in x
    requires forall k :: 0 <= k < |x| ==> !IsLineTerminator(x[k])
    ensures CloseMark(x + "**" + b) == Some(|x|)
    decreases |x|
  {
    var t := x + "**" + b;
    if x != [] {
      assert t[0] == x[0] && !BoldMarkAt(t, 0);
      assert t[1..] == x[1..] + "**" + b;
      CloseMarkFound(x[1..], b);
    } else {
      assert BoldMarkAt(t, 0);
    }
  }

  /** What the page renders. */
  datatype View = Blank | NotFound | Article(post: JournalPost, paragraphs: seq<string>)

  /** The rendered paragraphs of a post's body. */
  function Rendered(content: string): (ps: seq<string>)
    ensures |ps| == |Paragraphs(content)|
    ensures forall i :: 0 <= i < |ps| ==> |ps[i]| <= |Paragraphs(content)[i]|
  {
    var pieces := Paragraphs(content);
    seq(|pieces|, i requires 0 <= i < |pieces| => StripBold(pieces[i]))
  }

  /**
   * The page for `slug`: nothing while the content is not loaded
   * (`content` is None), the not-found view when there is no journal
   * (`journal` is None) or no post with that slug, else the first such post.
   */
  function DetailView(content: Option<Option<seq<JournalPost>>>, slug: string): (v: View)
    ensures v.Blank? <==> content.None?
    ensures content.Some? && content.value.None? ==> v == NotFound
    ensures content.Some? && content.value.Some? ==>
      (v.Article? <==> exists i :: 0 <= i < |content.value.value| && content.value.value[i].slug == slug)
    ensures v.Article? ==>
      v.post.slug == slug &&
      v.post == content.value.value[Lists.IndexOfKey(content.value.value, PostSlug, slug)] &&
      v.paragraphs == Rendered(v.post.content)
  {
    if content.None? then Blank
    else if content.value.None? then NotFound
    else match Lists.FindByKey(content.value.value, PostSlug, slug)
      case None => NotFound
      case Some(post) => Article(post, Rendered(post.content))
  }
}
