/**
 * The save routine shared by the Global, Services and About editors:
 * deep-copy the document, write one value at a path, pass the copy to
 * `onSave`. The copy is a value, so the caller's document is never changed.
 * Also the copied-array index assignment that `updateMenuItem` and
 * `updatePortfolio` perform before saving.
 */
module SectionEditor {
  import opened Wrappers
  import opened Json
  import Lists

  /**
   * `handleSave(path, value)`. The result lists the documents handed to
   * `onSave`: one when the walk reaches an object, none when it throws.
   */
  method HandleSave(content: Json, path: Path, value: Json) returns (saved: seq<Json>)
    ensures |saved| <= 1
    ensures |saved| == 1 <==> IsObjectAt(content, Parent(path))
    ensures |saved| == 1 ==> Some(saved[0]) == Update(content, path, value)
    ensures |saved| == 1 ==> Get(saved[0], Target(path)) == Some(value)
    ensures |saved| == 1 ==> forall q :: Diverges(q, Target(path)) ==> Get(saved[0], q) == Get(content, q)
  {
    var r := UpdateNested(content, path, value);
    UpdateSucceedsIff(content, path, value);
    if r.Some? {
      UpdateWrites(content, path, value, []);
      UpdateFrame(content, path, value);
      saved := [r.value];
    } else {
      saved := [];
    }
  }

  /**
   * `copy[index] = v` on a copy of a JSON array. Past the end the array grows,
   * and the holes left behind serialise as `null`; a negative index sets a
   * property that the JSON copy drops, so the array is unchanged.
   */
  method AssignIndex(items: seq<Json>, index: int, v: Json) returns (r: seq<Json>)
    ensures r == Lists.Assigned(items, index, v, JNull)
  {
    if 0 <= index < |items| {
      var a := new Json[|items|](i requires 0 <= i < |items| => items[i]);
      a[index] := v;
      r := a[..];
    } else if index >= |items| {
      r := items + seq(index - |items|, _ => JNull) + [v];
    } else {
      r := items;
    }
  }

  /** The array stored at `path`, when there is one. */
  function ArrayAt(d: Json, path: Path): (r: Option<seq<Json>>)
    ensures r.Some? <==> Get(d, path).Some? && Get(d, path).value.JArray?
    ensures r.Some? ==> Get(d, path) == Some(JArray(r.value))
  {
    match Get(d, path)
    case Some(JArray(items)) => Some(items)
    case _ => None
  }

  /**
   * Saving a new array at a non-empty path where an array already sits: one
   * document goes to `onSave`, it holds the new array there, and every path
   * parting from that one reads as before.
   */
  method SaveArray(content: Json, path: Path, items: seq<Json>) returns (saved: seq<Json>)
    requires path != [] && ArrayAt(content, path).Some?
    ensures |saved| == 1
    ensures ArrayAt(saved[0], path) == Some(items)
    ensures forall q :: Diverges(q, path) ==> Get(saved[0], q) == Get(content, q)
  {
    GetParentIsObject(content, path);
    saved := HandleSave(content, path, JArray(items));
  }

  /** A value at a non-empty path lies inside an object at its parent. */
  lemma GetParentIsObject(d: Json, path: Path)
    requires path != [] && Get(d, path).Some?
    ensures IsObjectAt(d, Parent(path))
  {
    assert Parent(path) + [LeafKey(path)] == path;
    GetExtend(d, Parent(path), LeafKey(path));
  }
}
