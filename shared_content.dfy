/**
 * The parts of the document that the Journal and Country editors reach
 * through `{ ...content }`. That spread copies only the top-level object:
 * the copy and the caller's document share the journal section and the
 * arrays, so writes into those are seen by both.
 */
module SharedContent {
  import opened ContentTypes

  /** A `JournalPost[]` array object. */
  class PostList {
    var items: seq<JournalPost>

    constructor (items: seq<JournalPost>)
      ensures this.items == items
    {
      this.items := items;
    }
  }

  /** The `journal` section object; its title and subtitle are not part of this model. */
  class JournalSection {
    var posts: PostList

    constructor (posts: PostList)
      ensures this.posts == posts
    {
      this.posts := posts;
    }
  }

  /** A `Destination[]` array object. */
  class DestinationList {
    var items: seq<Destination>

    constructor (items: seq<Destination>)
      ensures this.items == items
    {
      this.items := items;
    }
  }

  /** The top-level document object, with the two properties these editors touch. */
  class Document {
    var journal: JournalSection?
    var destinations: DestinationList?

    constructor (journal: JournalSection?, destinations: DestinationList?)
      ensures this.journal == journal && this.destinations == destinations
    {
      this.journal := journal;
      this.destinations := destinations;
    }

    /** `{ ...content }`: a new top-level object pointing at the same parts. */
    method ShallowCopy() returns (c: Document)
      ensures fresh(c) && c.journal == journal && c.destinations == destinations
    {
      c := new Document(journal, destinations);
    }
  }
}
