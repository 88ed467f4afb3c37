/**
 * The records of the content document the editors work on with a fixed
 * shape: menu items, destinations and journal posts. Everything else in
 * the document is handled as untyped JSON (module Json).
 */
module ContentTypes {
  import opened Wrappers
  import opened Json

  /** A navigation link: its `label` (a Dafny keyword, hence `linkLabel`), `path` and optional `hasDropdown`. */
  datatype MenuItem = MenuItem(linkLabel: string, path: string, hasDropdown: Option<bool>)

  /** A destination (region) page. `countryLinks` and `countryDetails` are not part of this model. */
  datatype Destination = Destination(
    region: string,
    slug: string,
    shortDescription: string,
    longDescription: string,
    image: string,
    countries: seq<string>)

  /** A journal article. */
  datatype JournalPost = JournalPost(
    title: string,
    slug: string,
    author: string,
    date: string,
    image: string,
    excerpt: string,
    content: string)

  /** The slug a post is looked up by. */
  function PostSlug(p: JournalPost): string { p.slug }

  /** The slug a destination is looked up by. */
  function DestinationSlug(d: Destination): string { d.slug }

  /** A menu item as it is stored in the document. */
  function MenuItemToJson(m: MenuItem): (j: Json)
    ensures j.JObject? && j.fields.Keys == {"label", "path"} + (if m.hasDropdown.Some? then {"hasDropdown"} else {})
    ensures j.fields["label"] == JString(m.linkLabel) && j.fields["path"] == JString(m.path)
  {
    var base := map["label" := JString(m.linkLabel), "path" := JString(m.path)];
    JObject(if m.hasDropdown.Some? then base["hasDropdown" := JBool(m.hasDropdown.value)] else base)
  }

  /** Reads a menu item back; an object without string `label` and `path` is not a menu item. */
  function MenuItemFromJson(j: Json): (r: Option<MenuItem>)
    ensures r.Some? <==> j.JObject? && "label" in j.fields && j.fields["label"].JString?
                         && "path" in j.fields && j.fields["path"].JString?
  {
    if j.JObject? && "label" in j.fields && j.fields["label"].JString?
       && "path" in j.fields && j.fields["path"].JString?
    then
      var flag := if "hasDropdown" in j.fields && j.fields["hasDropdown"].JBool?
                  then Some(j.fields["hasDropdown"].b) else None;
      Some(MenuItem(j.fields["label"].str, j.fields["path"].str, flag))
    else None
  }

  /** Storing a menu item and reading it back gives the same item. */
  lemma MenuItemRoundTrip(m: MenuItem)
    ensures MenuItemFromJson(MenuItemToJson(m)) == Some(m)
  {
    var j := MenuItemToJson(m);
    assert "label" in j.fields && "path" in j.fields;
  }
}
