/** `sameJsonText` decides equality. */
module JsonEquality {
  import opened Json
  import opened CanonicalJson
  import opened Options

  /** `sameJsonText`, given what `JSON.parse` made of the text, if anything. */
  function SameJsonText(parsed: Option<Value>, value: Value): bool {
    parsed.Some? && StableJson(parsed.value) == StableJson(value)
  }

  /** Equal texts are printed by equal values only. */
  lemma StableIsInjective(a: Value, b: Value)
    ensures StableJson(a) == StableJson(b) <==> a == b
  {
    StableReadsBack(a, []);
    StableReadsBack(b, []);
    assert StableJson(a) + [] == StableJson(a) && StableJson(b) + [] == StableJson(b);
  }

  lemma SameJsonTextDecidesEquality(parsed: Option<Value>, value: Value)
    ensures SameJsonText(parsed, value) <==> parsed == Some(value)
  {
    if parsed.Some? { StableIsInjective(parsed.value, value); }
  }
}
