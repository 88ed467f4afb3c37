/**
 * The content document as the editors see it (`content: any`): a JSON
 * tree. A path is a list of property names. `Get` follows a path through
 * nested objects. `Update` is the nested-path assignment every section
 * editor performs on its deep copy: walk every key except the last, then
 * assign the last key in the object reached. `UpdateNested` is that walk
 * written as the loop it is in the source.
 */
module Json {
  import opened Wrappers

  datatype Json =
    | JNull
    | JBool(b: bool)
    | JNumber(n: int)
    | JString(str: string)
    | JArray(items: seq<Json>)
    | JObject(fields: map<string, Json>)

  type Path = seq<string>

  /** `d[path[0]][path[1]]...`, defined while every step lands on an object that has the key. */
  function Get(d: Json, path: Path): Option<Json>
    decreases |path|
  {
    if path == [] then Some(d)
    else if d.JObject? && path[0] in d.fields then Get(d.fields[path[0]], path[1..])
    else None
  }

  /** The value at `path` exists and is an object. */
  predicate IsObjectAt(d: Json, path: Path) {
    Get(d, path).Some? && Get(d, path).value.JObject?
  }

  /** The keys the walk follows: `path[0 .. path.length - 2]`. */
  function Parent(path: Path): Path {
    if path == [] then [] else path[..|path| - 1]
  }

  /**
   * The key assigned: `path[path.length - 1]`. For an empty path JavaScript reads
   * `path[-1]`, which is `undefined`, and uses it as the property name "undefined".
   */
  function LeafKey(path: Path): string {
    if path == [] then "undefined" else path[|path| - 1]
  }

  /** The path whose value the assignment sets. */
  function Target(path: Path): (t: Path)
    ensures path != [] ==> t == path
  {
    Parent(path) + [LeafKey(path)]
  }

  /** Neither path is a prefix of the other: they part at some common index. */
  predicate Diverges(p: Path, q: Path) {
    exists i :: 0 <= i < |p| && i < |q| && p[i] != q[i]
  }

  /** Walk `keys` through nested objects, then assign `leaf := v` in the object reached. */
  function SetAt(d: Json, keys: Path, leaf: string, v: Json): Option<Json>
    decreases |keys|
  {
    if !d.JObject? then None
    else if keys == [] then Some(JObject(d.fields[leaf := v]))
    else if keys[0] !in d.fields then None
    else match SetAt(d.fields[keys[0]], keys[1..], leaf, v)
      case None => None
      case Some(c) => Some(JObject(d.fields[keys[0] := c]))
  }

  /** The document after `current[path[last]] = value` on a copy; None when the walk throws a TypeError. */
  function Update(d: Json, path: Path, v: Json): Option<Json> {
    SetAt(d, Parent(path), LeafKey(path), v)
  }

  // ---------------------------------------------------------------- walking

  /** One more step of a walk. */
  lemma {:induction false} GetExtend(d: Json, p: Path, k: string)
    ensures Get(d, p + [k]) ==
      if IsObjectAt(d, p) && k in Get(d, p).value.fields then Some(Get(d, p).value.fields[k]) else None
    decreases |p|
  {
    if p == [] {
      assert p + [k] == [k];
      assert [k][1..] == [];
    } else {
      assert (p + [k])[0] == p[0];
      assert (p + [k])[1..] == p[1..] + [k];
      if d.JObject? && p[0] in d.fields {
        GetExtend(d.fields[p[0]], p[1..], k);
      }
    }
  }

  /** The assignment succeeds exactly when the walk reaches an object. */
  lemma {:induction false} SetAtSucceedsIff(d: Json, keys: Path, leaf: string, v: Json)
    ensures SetAt(d, keys, leaf, v).Some? <==> IsObjectAt(d, keys)
    decreases |keys|
  {
    if d.JObject? && keys != [] && keys[0] in d.fields {
      SetAtSucceedsIff(d.fields[keys[0]], keys[1..], leaf, v);
    }
  }

  /** A walk that stops at step `i` (not an object, or the key is missing) makes the assignment fail. */
  lemma {:induction false} SetAtFailsAt(d: Json, keys: Path, leaf: string, v: Json, i: nat, c: Json)
    requires i <= |keys|
    requires Get(d, keys[..i]) == Some(c)
    requires !c.JObject? || (i < |keys| && keys[i] !in c.fields)
    ensures SetAt(d, keys, leaf, v) == None
    decreases i
  {
    if i == 0 {
      assert keys[..0] == [];
    } else {
      assert keys[..i][0] == keys[0];
      assert keys[..i][1..] == keys[1..][..i - 1];
      SetAtFailsAt(d.fields[keys[0]], keys[1..], leaf, v, i - 1, c);
    }
  }

  // ---------------------------------------------------------------- what the assignment does

  /** After the assignment the target path holds the new value. */
  lemma {:induction false} SetAtWrites(d: Json, keys: Path, leaf: string, v: Json)
    requires SetAt(d, keys, leaf, v).Some?
    ensures Get(SetAt(d, keys, leaf, v).value, keys + [leaf]) == Some(v)
    decreases |keys|
  {
    var r := SetAt(d, keys, leaf, v).value;
    if keys == [] {
      assert keys + [leaf] == [leaf];
      assert [leaf][1..] == [];
    } else {
      assert (keys + [leaf])[0] == keys[0];
      assert (keys + [leaf])[1..] == keys[1..] + [leaf];
      SetAtWrites(d.fields[keys[0]], keys[1..], leaf, v);
    }
  }

  /** Everything under the target is what the new value holds. */
  lemma {:induction false} SetAtBelow(d: Json, keys: Path, leaf: string, v: Json, rest: Path)
    requires SetAt(d, keys, leaf, v).Some?
    ensures Get(SetAt(d, keys, leaf, v).value, keys + [leaf] + rest) == Get(v, rest)
    decreases |keys|
  {
    if keys == [] {
      assert keys + [leaf] + rest == [leaf] + rest;
      assert ([leaf] + rest)[1..] == rest;
    } else {
      assert (keys + [leaf] + rest)[0] == keys[0];
      assert (keys + [leaf] + rest)[1..] == keys[1..] + [leaf] + rest;
      SetAtBelow(d.fields[keys[0]], keys[1..], leaf, v, rest);
    }
  }

  /** Every path that parts from the target reads the same before and after the assignment. */
  lemma {:induction false} SetAtFrame(d: Json, keys: Path, leaf: string, v: Json, q: Path)
    requires SetAt(d, keys, leaf, v).Some?
    requires Diverges(q, keys + [leaf])
    ensures Get(SetAt(d, keys, leaf, v).value, q) == Get(d, q)
    decreases |keys|
  {
    var t := keys + [leaf];
    var r := SetAt(d, keys, leaf, v).value;
    var i :| 0 <= i < |q| && i < |t| && q[i] != t[i];
    if keys == [] {
      assert t[0] == leaf;
      assert q[0] != leaf;
    } else if q[0] != keys[0] {
      assert r.fields == d.fields[keys[0] := SetAt(d.fields[keys[0]], keys[1..], leaf, v).value];
    } else {
      assert t[1..] == keys[1..] + [leaf];
      assert i > 0;
      assert q[1..][i - 1] != t[1..][i - 1];
      SetAtFrame(d.fields[keys[0]], keys[1..], leaf, v, q[1..]);
    }
  }

  // ---------------------------------------------------------------- the loop

  /**
   * `updateNestedValue` / `handleSave` on a copy of `doc`: the `for` loop walks
   * `current` down the parent path; the leaf is then assigned in the object
   * reached. Objects are values here, so the in-place assignment on the copy
   * is completed by re-linking the objects passed on the way down (`trail`).
   */
  method UpdateNested(doc: Json, path: Path, value: Json) returns (r: Option<Json>)
    ensures r == Update(doc, path, value)
  {
    var keys := Parent(path);
    var leaf := LeafKey(path);
    // trail[j] is the object reached after j steps; its last element is `current`
    var trail: seq<Json> := [doc];
    var i := 0;
    while i < |keys|
      invariant 0 <= i <= |keys| && |trail| == i + 1 && trail[0] == doc
      invariant forall j :: 0 <= j < i ==>
        trail[j].JObject? && keys[j] in trail[j].fields && trail[j].fields[keys[j]] == trail[j + 1]
      invariant SetAt(trail[i], keys[i..], leaf, value).None? ==> SetAt(doc, keys, leaf, value).None?
    {
      var current := trail[i];
      assert keys[i..][0] == keys[i] && keys[i..][1..] == keys[i + 1..];
      if !current.JObject? || keys[i] !in current.fields {
        return None;
      }
      trail := trail + [current.fields[keys[i]]];
      i := i + 1;
    }
    assert keys[i..] == [];
    if !trail[i].JObject? {
      return None;
    }
    var node := JObject(trail[i].fields[leaf := value]);
    while i > 0
      invariant 0 <= i <= |keys| && |trail| == |keys| + 1 && trail[0] == doc
      invariant forall j :: 0 <= j < |keys| ==>
        trail[j].JObject? && keys[j] in trail[j].fields && trail[j].fields[keys[j]] == trail[j + 1]
      invariant SetAt(trail[i], keys[i..], leaf, value) == Some(node)
    {
      i := i - 1;
      assert keys[i..][0] == keys[i] && keys[i..][1..] == keys[i + 1..];
      node := JObject(trail[i].fields[keys[i] := node]);
    }
    assert keys[0..] == keys;
    r := Some(node);
  }

  // ---------------------------------------------------------------- Update, stated on paths

  /** The update goes through exactly when the parent of the path resolves to an object. */
  lemma UpdateSucceedsIff(d: Json, path: Path, v: Json)
    ensures Update(d, path, v).Some? <==> IsObjectAt(d, Parent(path))
  {
    SetAtSucceedsIff(d, Parent(path), LeafKey(path), v);
  }

  /** After a successful update the path holds exactly the new value, and below it the new value's contents. */
  lemma UpdateWrites(d: Json, path: Path, v: Json, rest: Path)
    requires Update(d, path, v).Some?
    ensures Get(Update(d, path, v).value, Target(path)) == Some(v)
    ensures Get(Update(d, path, v).value, Target(path) + rest) == Get(v, rest)
  {
    SetAtWrites(d, Parent(path), LeafKey(path), v);
    SetAtBelow(d, Parent(path), LeafKey(path), v, rest);
  }

  /** Nothing else changes: every path that parts from the updated one reads as before. */
  lemma UpdateFrame(d: Json, path: Path, v: Json)
    requires Update(d, path, v).Some?
    ensures forall q :: Diverges(q, Target(path)) ==> Get(Update(d, path, v).value, q) == Get(d, q)
  {
    forall q | Diverges(q, Target(path))
      ensures Get(Update(d, path, v).value, q) == Get(d, q)
    {
      SetAtFrame(d, Parent(path), LeafKey(path), v, q);
    }
  }

  /**
   * A missing intermediate object makes the walk throw: writing
   * `home.buttons.philosophy` fails when `home.buttons` is absent.
   */
  lemma MissingButtonsFails(d: Json, v: Json)
    requires Get(d, ["home", "buttons"]).None?
    ensures Update(d, ["home", "buttons", "philosophy"], v).None?
  {
    var path := ["home", "buttons", "philosophy"];
    assert Parent(path) == ["home", "buttons"];
    UpdateSucceedsIff(d, path, v);
  }

  // ---------------------------------------------------------------- creating missing objects

  /**
   * Like `SetAt`, but a missing key on the way down is created as an empty
   * object instead of failing; only an existing value that is not an object
   * stops the walk.
   */
  function SetAtCreating(d: Json, keys: Path, leaf: string, v: Json): Option<Json>
    decreases |keys|
  {
    if !d.JObject? then None
    else if keys == [] then Some(JObject(d.fields[leaf := v]))
    else
      var child := if keys[0] in d.fields then d.fields[keys[0]] else JObject(map[]);
      match SetAtCreating(child, keys[1..], leaf, v)
      case None => None
      case Some(c) => Some(JObject(d.fields[keys[0] := c]))
  }

  /** The nested write that creates missing intermediate objects. */
  function UpdateCreating(d: Json, path: Path, v: Json): Option<Json> {
    SetAtCreating(d, Parent(path), LeafKey(path), v)
  }

  /** Wherever the plain walk succeeds, creating changes nothing about the result. */
  lemma {:induction false} SetAtCreatingExtends(d: Json, keys: Path, leaf: string, v: Json)
    requires SetAt(d, keys, leaf, v).Some?
    ensures SetAtCreating(d, keys, leaf, v) == SetAt(d, keys, leaf, v)
    decreases |keys|
  {
    if keys != [] {
      SetAtCreatingExtends(d.fields[keys[0]], keys[1..], leaf, v);
    }
  }

  /** An object whose keys are all missing below: the creating walk always succeeds from it. */
  lemma {:induction false} SetAtCreatingFromEmpty(keys: Path, leaf: string, v: Json)
    ensures SetAtCreating(JObject(map[]), keys, leaf, v).Some?
    decreases |keys|
  {
    if keys != [] {
      SetAtCreatingFromEmpty(keys[1..], leaf, v);
    }
  }

  /** After the creating write the target path holds the new value. */
  lemma {:induction false} SetAtCreatingWrites(d: Json, keys: Path, leaf: string, v: Json)
    requires SetAtCreating(d, keys, leaf, v).Some?
    ensures Get(SetAtCreating(d, keys, leaf, v).value, keys + [leaf]) == Some(v)
    decreases |keys|
  {
    if keys == [] {
      assert keys + [leaf] == [leaf];
      assert [leaf][1..] == [];
    } else {
      var child := if keys[0] in d.fields then d.fields[keys[0]] else JObject(map[]);
      assert (keys + [leaf])[0] == keys[0];
      assert (keys + [leaf])[1..] == keys[1..] + [leaf];
      SetAtCreatingWrites(child, keys[1..], leaf, v);
    }
  }

  /** The creating write keeps every path that parts from the target. */
  lemma {:induction false} SetAtCreatingFrame(d: Json, keys: Path, leaf: string, v: Json, q: Path)
    requires SetAtCreating(d, keys, leaf, v).Some?
    requires Diverges(q, keys + [leaf])
    ensures Get(SetAtCreating(d, keys, leaf, v).value, q) == Get(d, q)
    decreases |keys|
  {
    var t := keys + [leaf];
    var i :| 0 <= i < |q| && i < |t| && q[i] != t[i];
    if keys == [] {
      assert t[0] == leaf;
    } else if q[0] != keys[0] {
    } else {
      var child := if keys[0] in d.fields then d.fields[keys[0]] else JObject(map[]);
      assert t[1..] == keys[1..] + [leaf];
      assert q[1..][i - 1] != t[1..][i - 1];
      SetAtCreatingFrame(child, keys[1..], leaf, v, q[1..]);
      if keys[0] !in d.fields {
        // `d` had nothing at `q`, and the new empty object holds nothing below its root
        assert |q| > 1;
        assert Get(JObject(map[]), q[1..]) == None;
      }
    }
  }

  /**
   * The button labels: with `home` an object and `home.buttons` missing, the
   * creating write stores the label where the plain walk throws.
   */
  lemma MissingButtonsCreated(d: Json, key: string, v: Json)
    requires IsObjectAt(d, ["home"]) && Get(d, ["home", "buttons"]).None?
    ensures Update(d, ["home", "buttons", key], v).None?
    ensures UpdateCreating(d, ["home", "buttons", key], v).Some?
    ensures Get(UpdateCreating(d, ["home", "buttons", key], v).value, ["home", "buttons", key]) == Some(v)
  {
    var path: Path := ["home", "buttons", key];
    assert Parent(path) == ["home", "buttons"] && LeafKey(path) == key;
    UpdateSucceedsIff(d, path, v);
    var home := d.fields["home"];
    assert Get(d, ["home"]) == Get(home, []);
    assert "buttons" !in home.fields by {
      assert ["home", "buttons"][1..] == ["buttons"];
    }
    SetAtCreatingFromEmpty([], key, v);
    assert ["home", "buttons"][1..] == ["buttons"];
    SetAtCreatingWrites(d, ["home", "buttons"], key, v);
    assert ["home", "buttons"] + [key] == path;
  }
}
