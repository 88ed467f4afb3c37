/**
 * The array operations the editors apply to slugged records:
 * `findIndex`, `find` and `filter` keyed on one string field, and
 * `filter` on the position.
 */
module Lists {
  import opened Wrappers

  /** `xs.findIndex(x => key(x) === k)`: the first index whose key is `k`, or -1. */
  function IndexOfKey<T>(xs: seq<T>, key: T -> string, k: string): (i: int)
    ensures -1 <= i < |xs|
    ensures i == -1 <==> forall j :: 0 <= j < |xs| ==> key(xs[j]) != k
    ensures i >= 0 ==> key(xs[i]) == k && forall j :: 0 <= j < i ==> key(xs[j]) != k
    decreases |xs|
  {
    if xs == [] then -1
    else if key(xs[0]) == k then 0
    else
      var i := IndexOfKey(xs[1..], key, k);
      if i == -1 then -1 else i + 1
  }

  /** `xs.find(x => key(x) === k)`: the element `findIndex` points at, if any. */
  function FindByKey<T>(xs: seq<T>, key: T -> string, k: string): (r: Option<T>)
    ensures r.None? <==> IndexOfKey(xs, key, k) == -1
    ensures r.Some? ==> r.value == xs[IndexOfKey(xs, key, k)]
    decreases |xs|
  {
    if xs == [] then None
    else if key(xs[0]) == k then Some(xs[0])
    else FindByKey(xs[1..], key, k)
  }

  /** `xs.filter(x => key(x) !== k)`. */
  function RemoveKey<T>(xs: seq<T>, key: T -> string, k: string): (r: seq<T>)
    ensures |r| <= |xs|
    ensures forall j :: 0 <= j < |r| ==> key(r[j]) != k
    ensures forall j :: 0 <= j < |xs| && key(xs[j]) != k ==> xs[j] in r
    decreases |xs|
  {
    if xs == [] then []
    else if key(xs[0]) == k then RemoveKey(xs[1..], key, k)
    else [xs[0]] + RemoveKey(xs[1..], key, k)
  }

  /** Filtering distributes over concatenation, so the survivors keep their relative order. */
  lemma {:induction false} RemoveKeyConcat<T>(xs: seq<T>, ys: seq<T>, key: T -> string, k: string)
    ensures RemoveKey(xs + ys, key, k) == RemoveKey(xs, key, k) + RemoveKey(ys, key, k)
    decreases |xs|
  {
    if xs == [] {
      assert xs + ys == ys;
    } else {
      assert (xs + ys)[0] == xs[0];
      assert (xs + ys)[1..] == xs[1..] + ys;
      RemoveKeyConcat(xs[1..], ys, key, k);
    }
  }

  /** Filtering out a key nobody has changes nothing. */
  lemma {:induction false} RemoveKeyAbsent<T>(xs: seq<T>, key: T -> string, k: string)
    requires forall j :: 0 <= j < |xs| ==> key(xs[j]) != k
    ensures RemoveKey(xs, key, k) == xs
    decreases |xs|
  {
    if xs != [] {
      RemoveKeyAbsent(xs[1..], key, k);
      assert [xs[0]] + xs[1..] == xs;
    }
  }

  /** `xs.filter((_, i) => i !== index)`: drops exactly the element at `index`, if there is one. */
  function RemoveAt<T>(xs: seq<T>, index: int): (r: seq<T>)
    ensures 0 <= index < |xs| ==> |r| == |xs| - 1
    ensures 0 <= index < |xs| ==> forall j {:trigger r[j]} :: 0 <= j < |r| ==> r[j] == if j < index then xs[j] else xs[j + 1]
    ensures !(0 <= index < |xs|) ==> r == xs
    decreases |xs|
  {
    if xs == [] then []
    else if index == 0 then RemoveAt(xs[1..], index - 1)
    else [xs[0]] + RemoveAt(xs[1..], index - 1)
  }

  /**
   * `xs[index] = v` on a JavaScript array: in range it replaces one element;
   * past the end the array grows to `index + 1`, the gap filled with `hole`;
   * a negative index leaves the elements alone.
   */
  function Assigned<T>(xs: seq<T>, index: int, v: T, hole: T): (r: seq<T>)
    ensures 0 <= index < |xs| ==> |r| == |xs| && r[index] == v
    ensures 0 <= index < |xs| ==> forall j :: 0 <= j < |xs| && j != index ==> r[j] == xs[j]
    ensures index >= |xs| ==> |r| == index + 1 && r[index] == v && r[..|xs|] == xs
    ensures index >= |xs| ==> forall j :: |xs| <= j < index ==> r[j] == hole
    ensures index < 0 ==> r == xs
  {
    if 0 <= index < |xs| then xs[index := v]
    else if index >= |xs| then xs + seq(index - |xs|, _ => hole) + [v]
    else xs
  }
}
