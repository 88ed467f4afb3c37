/**
 * The Journal editor: the post being edited, the editing flag, and the save
 * and delete handlers. Saving upserts by slug into the posts array the
 * caller's document shares, generating a slug for a new post without one.
 */
module JournalEditor {
  import opened Wrappers
  import opened Text
  import opened ContentTypes
  import opened SharedContent
  import Lists

  /** Outside `[a-z0-9]`: the characters slug generation replaces. */
  predicate NotSlugChar(c: char) {
    !('a' <= c <= 'z' || '0' <= c <= '9')
  }

  /** `title.toLowerCase().replace(/[^a-z0-9]+/g, '-')`. */
  function GenerateSlug(title: string): string {
    ReplaceRuns(Lower(title), NotSlugChar, '-')
  }

  /** A generated slug holds only `a-z`, `0-9` and `-`, and never `--`. */
  lemma GeneratedSlugShape(title: string)
    ensures forall i :: 0 <= i < |GenerateSlug(title)| ==>
      GenerateSlug(title)[i] == '-' || !NotSlugChar(GenerateSlug(title)[i])
    ensures forall i :: 0 <= i < |GenerateSlug(title)| - 1 ==>
      !(GenerateSlug(title)[i] == '-' && GenerateSlug(title)[i + 1] == '-')
  {
    ReplaceRunsAlphabet(Lower(title), NotSlugChar, '-');
    ReplaceRunsNoDouble(Lower(title), NotSlugChar, '-');
  }

  /** The letters and digits of the lower-cased title survive, in order. */
  lemma GeneratedSlugKeepsAlphanumerics(title: string)
    ensures Outside(GenerateSlug(title), NotSlugChar) == Outside(Lower(title), NotSlugChar)
  {
    ReplaceRunsKeepsOutside(Lower(title), NotSlugChar, '-');
  }

  /** The post as stored: a slug is generated only for a post that is appended with an empty slug. */
  function Prepared(posts: seq<JournalPost>, post: JournalPost): (p: JournalPost)
    ensures Lists.IndexOfKey(posts, PostSlug, post.slug) == -1 && post.slug == "" ==>
      p == post.(slug := GenerateSlug(post.title))
    ensures Lists.IndexOfKey(posts, PostSlug, post.slug) != -1 || post.slug != "" ==> p == post
  {
    if Lists.IndexOfKey(posts, PostSlug, post.slug) == -1 && post.slug == ""
    then post.(slug := GenerateSlug(post.title))
    else post
  }

  /** The posts after saving `post`: the first post with its slug is replaced, otherwise it is appended. */
  function Upsert(posts: seq<JournalPost>, post: JournalPost): seq<JournalPost> {
    var i := Lists.IndexOfKey(posts, PostSlug, post.slug);
    if i >= 0 then posts[i := post] else posts + [Prepared(posts, post)]
  }

  /** A post whose slug is taken replaces the first post with that slug; the count stays. */
  lemma UpsertReplacesFirstMatch(posts: seq<JournalPost>, post: JournalPost, i: int)
    requires 0 <= i < |posts| && posts[i].slug == post.slug
    requires forall j :: 0 <= j < i ==> posts[j].slug != post.slug
    ensures |Upsert(posts, post)| == |posts|
    ensures Upsert(posts, post)[i] == post
    ensures forall j :: 0 <= j < |posts| && j != i ==> Upsert(posts, post)[j] == posts[j]
  {
    assert Lists.IndexOfKey(posts, PostSlug, post.slug) == i;
  }

  /** A post whose slug is new is appended after all others. */
  lemma UpsertAppendsNew(posts: seq<JournalPost>, post: JournalPost)
    requires forall j :: 0 <= j < |posts| ==> posts[j].slug != post.slug
    ensures |Upsert(posts, post)| == |posts| + 1
    ensures Upsert(posts, post)[..|posts|] == posts
    ensures Upsert(posts, post)[|posts|] ==
      if post.slug == "" then post.(slug := GenerateSlug(post.title)) else post
  {
  }

  /**
   * The generated slug is not checked against the existing ones: an
   * unslugged post whose title generates the slug of post `i` is appended
   * beside it, so two posts then share that slug.
   */
  lemma GeneratedSlugMayRepeat(posts: seq<JournalPost>, post: JournalPost, i: int)
    requires forall j :: 0 <= j < |posts| ==> posts[j].slug != ""
    requires post.slug == ""
    requires 0 <= i < |posts| && posts[i].slug == GenerateSlug(post.title)
    ensures |Upsert(posts, post)| == |posts| + 1
    ensures Upsert(posts, post)[i] == posts[i]
    ensures Upsert(posts, post)[|posts|].slug == posts[i].slug
  {
    assert Lists.IndexOfKey(posts, PostSlug, post.slug) == -1;
  }

  /** The post `handleCreate` starts from. */
  function NewPost(today: string): (p: JournalPost)
    ensures p.slug == "" && p.title == "" && p.author == "Raou Editorial"
    ensures p.image == "/assets/hero-background.jpg" && p.date == today
  {
    JournalPost("", "", "Raou Editorial", today, "/assets/hero-background.jpg", "", "")
  }

  /** The post the form starts with before anything is chosen. */
  const BlankPost := JournalPost("", "", "", "", "", "", "")

  /** The editor's state. */
  class Editor {
    var isEditing: bool
    var currentPost: JournalPost

    constructor ()
      ensures !isEditing && currentPost == BlankPost
    {
      isEditing := false;
      currentPost := BlankPost;
    }

    /** `handleEdit(post)`: open the form on an existing post. */
    method HandleEdit(post: JournalPost)
      modifies this
      ensures isEditing && currentPost == post
    {
      currentPost := post;
      isEditing := true;
    }

    /** `handleCreate()`: open the form on a fresh post dated `today`. */
    method HandleCreate(today: string)
      modifies this
      ensures isEditing && currentPost == NewPost(today)
    {
      currentPost := NewPost(today);
      isEditing := true;
    }

    /** The form's Cancel button: leave the form; the document is not touched. */
    method HandleCancel()
      modifies this
      ensures !isEditing && currentPost == old(currentPost)
    {
      isEditing := false;
    }

    /**
     * `handleSave()`. A document without a journal gets a new, empty one on
     * the copy; otherwise the shared posts array itself is written, so the
     * caller's document sees the change too. Returns the copy passed to `onSave`.
     */
    method HandleSave(content: Document) returns (newContent: Document)
      modifies this, if content.journal != null then {content.journal.posts} else {}
      ensures fresh(newContent) && newContent.destinations == content.destinations
      ensures newContent.journal != null
      ensures old(content.journal) != null ==>
        newContent.journal == content.journal && newContent.journal.posts == old(content.journal.posts) &&
        newContent.journal.posts.items == Upsert(old(content.journal.posts.items), old(currentPost))
      ensures old(content.journal) == null ==>
        fresh(newContent.journal) && fresh(newContent.journal.posts) &&
        newContent.journal.posts.items == Upsert([], old(currentPost))
      ensures content.journal == old(content.journal)
      ensures !isEditing
      ensures old(content.journal) != null ==> currentPost == Prepared(old(content.journal.posts.items), old(currentPost))
      ensures old(content.journal) == null ==> currentPost == Prepared([], old(currentPost))
    {
      newContent := content.ShallowCopy();
      if newContent.journal == null {
        var empty := new PostList([]);
        newContent.journal := new JournalSection(empty);
      }
      var posts := newContent.journal.posts;
      var existingIndex := Lists.IndexOfKey(posts.items, PostSlug, currentPost.slug);
      if existingIndex >= 0 {
        posts.items := posts.items[existingIndex := currentPost];
      } else {
        if currentPost.slug == "" {
          currentPost := currentPost.(slug := GenerateSlug(currentPost.title));
        }
        posts.items := posts.items + [currentPost];
      }
      isEditing := false;
    }

    /**
     * `handleDelete(slug)`: a new array without the posts carrying `slug` is
     * assigned to the shared journal section. Without a journal the handler
     * throws and nothing is saved (null).
     */
    method HandleDelete(content: Document, slug: string) returns (newContent: Document?)
      modifies if content.journal != null then {content.journal} else {}
      ensures old(content.journal) == null ==> newContent == null
      ensures old(content.journal) != null ==>
        newContent != null && fresh(newContent) && newContent.journal == content.journal &&
        newContent.destinations == content.destinations &&
        fresh(content.journal.posts) &&
        content.journal.posts.items == Lists.RemoveKey(old(content.journal.posts.items), PostSlug, slug)
    {
      if content.journal == null {
        return null;
      }
      newContent := content.ShallowCopy();
      var kept := Lists.RemoveKey(content.journal.posts.items, PostSlug, slug);
      newContent.journal.posts := new PostList(kept);
    }
  }
}
