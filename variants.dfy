/**
 * The pages' short/long fallbacks, `mode === 'short' ? (x_short || x) :
 * (x_long || x)`, read from the document. `||` keeps its left operand when
 * that is truthy, so an empty string falls back while an empty array does not.
 */
module Variants {
  import opened Wrappers
  import opened Json
  import opened ContentMode

  /** JavaScript truthiness of a property read; a missing property reads as `undefined`. */
  predicate Truthy(v: Option<Json>) {
    match v
    case None => false
    case Some(JNull) => false
    case Some(JBool(b)) => b
    case Some(JNumber(n)) => n != 0
    case Some(JString(s)) => s != ""
    case Some(JArray(_)) => true
    case Some(JObject(_)) => true
  }

  /** `a || b`. */
  function Or(a: Option<Json>, b: Option<Json>): (r: Option<Json>)
    ensures r == a || r == b
    ensures Truthy(a) ==> r == a
    ensures !Truthy(a) ==> r == b
  {
    if Truthy(a) then a else b
  }

  /** The key suffix of the variant the mode prefers. */
  function Suffix(mode: Mode): string {
    if mode == Short then "_short" else "_long"
  }

  /** The variant of `field` (in the object at `parent`) the mode shows, falling back to the plain field. */
  function Variant(d: Json, parent: Path, field: string, mode: Mode): Option<Json> {
    Or(Get(d, parent + [field + Suffix(mode)]), Get(d, parent + [field]))
  }

  /** A missing or empty string variant falls back to the plain field. */
  lemma StringVariantFallsBack(d: Json, parent: Path, field: string, mode: Mode)
    requires Get(d, parent + [field + Suffix(mode)]) in {None, Some(JString(""))}
    ensures Variant(d, parent, field, mode) == Get(d, parent + [field])
  {
  }

  /** A non-empty string variant is shown. */
  lemma StringVariantChosen(d: Json, parent: Path, field: string, mode: Mode, s: string)
    requires Get(d, parent + [field + Suffix(mode)]) == Some(JString(s)) && s != ""
    ensures Variant(d, parent, field, mode) == Some(JString(s))
  {
  }

  /** An array variant is shown whenever it is present, even when it is empty. */
  lemma ArrayVariantChosen(d: Json, parent: Path, field: string, mode: Mode, items: seq<Json>)
    requires Get(d, parent + [field + Suffix(mode)]) == Some(JArray(items))
    ensures Variant(d, parent, field, mode) == Some(JArray(items))
  {
  }

  /** The two modes read different variants, so each page shows only its own. */
  lemma SuffixesDiffer(field: string)
    ensures field + Suffix(Short) != field + Suffix(Long)
  {
    assert (field + Suffix(Short))[|field| + 1] == 's';
    assert (field + Suffix(Long))[|field| + 1] == 'l';
  }
}
