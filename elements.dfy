/**
 * The named-element table of a display: logical role names mapped to DOM
 * handles. The constructor merges the subclass's `getElements()` into the
 * caller's `options.elements` with `jQuery.extend(target, source)`, which
 * copies every key of `source` over `target`, so on a shared key the
 * subclass's value is kept.
 */
module Elements {

  /** An abstract DOM handle (a jQuery object); its identity is all the model needs. */
  datatype Handle = Handle(id: nat)

  type Table = map<string, Handle>

  /** `getElements()` of the base display: no elements. */
  function BaseElements(): (r: Table)
    ensures r.Keys == {}
  {
    map[]
  }

  /**
   * `jQuery.extend(target, source)` on two element tables: every key of
   * either, the value from `source` where both have one.
   */
  function Extend(target: Table, source: Table): (r: Table)
    ensures r.Keys == target.Keys + source.Keys
    ensures forall k :: k in source ==> r[k] == source[k]
    ensures forall k :: k in target && k !in source ==> r[k] == target[k]
  {
    target + source
  }

  /** With the base class's empty `getElements()`, the caller's table is kept as it is. */
  lemma ExtendBaseElements(target: Table)
    ensures Extend(target, BaseElements()) == target
  {
  }

  /** Merging the same defaults again changes nothing. */
  lemma ExtendIdempotent(target: Table, source: Table)
    ensures Extend(Extend(target, source), source) == Extend(target, source)
  {
  }

  /** On a key both tables hold with different handles, the caller's handle is overwritten. */
  lemma ExtendOverridesShared(target: Table, source: Table, k: string)
    requires k in target && k in source && target[k] != source[k]
    ensures Extend(target, source)[k] != target[k]
  {
  }

  /**
   * A caller table `{foo: A}` merged with subclass elements `{foo: B, bar: C}`
   * gives `{foo: B, bar: C}`: the subclass value wins on `foo`.
   */
  lemma SubclassWinsExample(a: Handle, b: Handle, c: Handle)
    requires a != b
    ensures Extend(map["foo" := a], map["foo" := b, "bar" := c]) == map["foo" := b, "bar" := c]
    ensures Extend(map["foo" := a], map["foo" := b, "bar" := c])["foo"] != a
  {
  }
}
