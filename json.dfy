/**
 * `JSON.stringify` and `JSON.parse` are library calls whose internals are not modelled.
 * An adapter receives them as a `Codec` value over the type `V` of values that JSON can represent;
 * `parse` yields `None` where `JSON.parse` throws.
 */
module Json {
  import opened Wrappers

  datatype Codec<!V> = Codec(stringify: V -> string, parse: string -> Option<V>, nullValue: V)

  /** `JSON.parse(null)` converts its argument to this text before parsing it. */
  const NullText: string := "null"

  /**
   * The two facts about JSON the model relies on: every representable value parses back to itself,
   * and the text `null` parses to the null value.
   */
  ghost predicate Lawful<V(!new)>(c: Codec<V>)
  {
    && (forall v :: c.parse(c.stringify(v)) == Some(v))
    && c.parse(NullText) == Some(c.nullValue)
  }

  /**
   * `JSON.parse(getItem(key))`: an absent key reaches `JSON.parse` as `null`, which is read as the text `null`.
   */
  function ParseItem<V(!new)>(c: Codec<V>, item: Option<string>): (r: Option<V>)
    ensures Lawful(c) && item.None? ==> r == Some(c.nullValue)
    ensures forall v :: Lawful(c) && item == Some(c.stringify(v)) ==> r == Some(v)
  {
    c.parse(if item.Some? then item.value else NullText)
  }
}
