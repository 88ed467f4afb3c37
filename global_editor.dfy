/**
 * The Global editor's menu-item handlers. Each builds a new array from
 * `content.navigation.menuItems` and saves it at that path through the
 * shared save routine. When the menu items are not an array the handler
 * throws before saving.
 */
module GlobalEditor {
  import opened Wrappers
  import opened Json
  import Lists
  import ContentTypes
  import SectionEditor

  const MenuItemsPath: Path := ["navigation", "menuItems"]

  /** `content.navigation.menuItems`, when it is an array. */
  function MenuItems(content: Json): Option<seq<Json>> {
    SectionEditor.ArrayAt(content, MenuItemsPath)
  }

  /** The link `addMenuItem` appends. */
  const NewLink := ContentTypes.MenuItem("New Link", "/", None)

  /** `newItems[index]` read before the assignment: `undefined` past the end, modelled as null. */
  function ItemAt(items: seq<Json>, index: int): Json {
    if 0 <= index < |items| then items[index] else JNull
  }

  /**
   * `{ ...item, [field]: value }`: the item's own fields with `field` set.
   * Spreading null, a number or a boolean contributes no fields.
   */
  function WithField(item: Json, field: string, value: Json): (r: Json)
    ensures r.JObject? && field in r.fields && r.fields[field] == value
    ensures item.JObject? ==> r.fields.Keys == item.fields.Keys + {field}
    ensures item.JObject? ==> forall g :: g in item.fields && g != field ==> r.fields[g] == item.fields[g]
    ensures !item.JObject? ==> r.fields.Keys == {field}
  {
    if item.JObject? then JObject(item.fields[field := value]) else JObject(map[field := value])
  }

  /** `updateMenuItem(index, field, value)`: copy the array, replace item `index` by its updated copy, save. */
  method UpdateMenuItem(content: Json, index: int, field: string, value: string) returns (saved: seq<Json>)
    ensures MenuItems(content).None? ==> saved == []
    ensures MenuItems(content).Some? ==> |saved| == 1
    ensures MenuItems(content).Some? ==>
      var items := MenuItems(content).value;
      MenuItems(saved[0]) == Some(Lists.Assigned(items, index, WithField(ItemAt(items, index), field, JString(value)), JNull))
    ensures MenuItems(content).Some? && 0 <= index < |MenuItems(content).value| ==>
      var items := MenuItems(content).value;
      var after := MenuItems(saved[0]).value;
      |after| == |items| &&
      after[index] == WithField(items[index], field, JString(value)) &&
      forall j :: 0 <= j < |items| && j != index ==> after[j] == items[j]
    ensures |saved| == 1 ==> forall q :: Diverges(q, MenuItemsPath) ==> Get(saved[0], q) == Get(content, q)
  {
    var current := MenuItems(content);
    if current.None? {
      return [];
    }
    var items := current.value;
    var newItem := WithField(ItemAt(items, index), field, JString(value));
    var newItems := SectionEditor.AssignIndex(items, index, newItem);
    saved := SectionEditor.SaveArray(content, MenuItemsPath, newItems);
  }

  /** `addMenuItem()`: the menu with `{label: "New Link", path: "/"}` appended. */
  method AddMenuItem(content: Json) returns (saved: seq<Json>)
    ensures MenuItems(content).None? ==> saved == []
    ensures MenuItems(content).Some? ==> |saved| == 1
    ensures MenuItems(content).Some? ==> MenuItems(saved[0]).Some?
    ensures MenuItems(content).Some? ==>
      var items := MenuItems(content).value;
      var after := MenuItems(saved[0]).value;
      |after| == |items| + 1 && after[..|items|] == items &&
      after[|items|] == JObject(map["label" := JString("New Link"), "path" := JString("/")]) &&
      ContentTypes.MenuItemFromJson(after[|items|]) == Some(NewLink)
    ensures |saved| == 1 ==> forall q :: Diverges(q, MenuItemsPath) ==> Get(saved[0], q) == Get(content, q)
  {
    var current := MenuItems(content);
    if current.None? {
      return [];
    }
    var items := current.value;
    ContentTypes.MenuItemRoundTrip(NewLink);
    assert ContentTypes.MenuItemToJson(NewLink) == JObject(map["label" := JString("New Link"), "path" := JString("/")]);
    var newItems := items + [ContentTypes.MenuItemToJson(NewLink)];
    assert newItems[..|items|] == items;
    saved := SectionEditor.SaveArray(content, MenuItemsPath, newItems);
  }

  /** `removeMenuItem(index)`: the menu without the item at `index`; any other index leaves it as it was. */
  method RemoveMenuItem(content: Json, index: int) returns (saved: seq<Json>)
    ensures MenuItems(content).None? ==> saved == []
    ensures MenuItems(content).Some? ==> |saved| == 1
    ensures MenuItems(content).Some? ==>
      var items := MenuItems(content).value;
      MenuItems(saved[0]) == Some(Lists.RemoveAt(items, index))
    ensures |saved| == 1 ==> forall q :: Diverges(q, MenuItemsPath) ==> Get(saved[0], q) == Get(content, q)
  {
    var current := MenuItems(content);
    if current.None? {
      return [];
    }
    saved := SectionEditor.SaveArray(content, MenuItemsPath, Lists.RemoveAt(current.value, index));
  }
}
