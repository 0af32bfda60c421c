/** Local JSON Schema references: RFC 6901 pointers in a URI fragment. */
module JsonPointer {
  import opened CodeUnits
  import opened Json
  import opened Options

  const TILDE: Unit := 126
  const ZERO: Unit := 48
  const ONE: Unit := 49
  const HASH: Unit := 35

  type Record = map<Text, Value>

  /** `part.replace(/~d/g, to)` for a digit `d`. */
  function ReplaceTilde(part: Text, d: Unit, to: Unit): Text {
    if part == [] then []
    else if |part| > 1 && part[0] == TILDE && part[1] == d then [to] + ReplaceTilde(part[2..], d, to)
    else [part[0]] + ReplaceTilde(part[1..], d, to)
  }

  /** One reference token, as `jsonPointerValue` decodes it. */
  function Unescape(part: Text): Text {
    ReplaceTilde(ReplaceTilde(part, ONE, SLASH), ZERO, TILDE)
  }

  function Escape(key: Text): Text {
    if key == [] then []
    else (if key[0] == TILDE then [TILDE, ZERO] else if key[0] == SLASH then [TILDE, ONE] else [key[0]]) + Escape(key[1..])
  }

  /** The value reached by following object keys; an array, like anything else that is not a plain
      object, has no keys here. */
  function Walk(v: Value, keys: seq<Text>): Option<Value> {
    if keys == [] then Some(v)
    else if v.Object? && keys[0] in v.fields then Walk(v.fields[keys[0]], keys[1..])
    else None
  }

  predicate Local(reference: Text) {
    |reference| >= 2 && reference[0] == HASH && reference[1] == SLASH
  }

  function UnescapeAll(parts: seq<Text>): (r: seq<Text>)
    ensures |r| == |parts|
    ensures forall i | 0 <= i < |parts| :: r[i] == Unescape(parts[i])
  {
    seq(|parts|, i requires 0 <= i < |parts| => Unescape(parts[i]))
  }

  /** What a reference points at; `None` where `jsonPointerValue` throws. */
  function Resolve(root: Record, reference: Text): Option<Value> {
    if !Local(reference) then None
    else Walk(Object(root), UnescapeAll(Split(reference[2..], SLASH)))
  }

  /** `jsonPointerValue`. */
  method JsonPointerValue(root: Record, reference: Text) returns (r: Option<Value>)
    ensures r == Resolve(root, reference)
  {
    if !Local(reference) { return None; }
    var current := Object(root);
    var parts := Split(reference[2..], SLASH);
    ghost var keys := UnescapeAll(parts);
    for i := 0 to |parts|
      invariant Walk(current, keys[i..]) == Walk(Object(root), keys)
    {
      var part := Unescape(parts[i]);
      if !(current.Object? && part in current.fields) { return None; }
      current := current.fields[part];
      assert keys[i..][1..] == keys[i + 1..];
    }
    return Some(current);
  }

  // ----- every key path has a pointer -----

  function EscapeAll(keys: seq<Text>): (r: seq<Text>)
    ensures |r| == |keys|
    ensures forall i | 0 <= i < |keys| :: r[i] == Escape(keys[i])
  {
    seq(|keys|, i requires 0 <= i < |keys| => Escape(keys[i]))
  }

  function PointerTo(keys: seq<Text>): Text {
    [HASH, SLASH] + Join(EscapeAll(keys), SLASH)
  }

  /** A key after the first of the two replacements: slashes are back, tildes still escaped. */
  function HalfEscaped(key: Text): Text {
    if key == [] then [] else (if key[0] == TILDE then [TILDE, ZERO] else [key[0]]) + HalfEscaped(key[1..])
  }

  lemma {:induction false} FirstReplacement(key: Text)
    ensures ReplaceTilde(Escape(key), ONE, SLASH) == HalfEscaped(key)
  {
    if key != [] {
      var rest := Escape(key[1..]);
      FirstReplacement(key[1..]);
      if key[0] == TILDE {
        var text := [TILDE, ZERO] + rest;
        assert text[1..] == [ZERO] + rest && text[1..][1..] == rest;
      } else if key[0] == SLASH {
        assert ([TILDE, ONE] + rest)[2..] == rest;
      } else {
        assert ([key[0]] + rest)[1..] == rest;
      }
    }
  }

  lemma {:induction false} SecondReplacement(key: Text)
    ensures ReplaceTilde(HalfEscaped(key), ZERO, TILDE) == key
  {
    if key != [] {
      var rest := HalfEscaped(key[1..]);
      SecondReplacement(key[1..]);
      if key[0] == TILDE {
        assert ([TILDE, ZERO] + rest)[2..] == rest;
      } else {
        assert ([key[0]] + rest)[1..] == rest;
      }
    }
  }

  /** Section 4 of RFC 6901: decoding undoes encoding, because `~1` is replaced before `~0`. */
  lemma UnescapeEscape(key: Text)
    ensures Unescape(Escape(key)) == key
  {
    FirstReplacement(key);
    SecondReplacement(key);
  }

  lemma {:induction false} EscapeHasNoSlash(key: Text)
    ensures SLASH !in Escape(key)
  {
    if key != [] { EscapeHasNoSlash(key[1..]); }
  }

  /** The pointer written for a path of keys resolves to the value at that path. */
  lemma PointerRoundTrip(root: Record, keys: seq<Text>)
    requires keys != []
    ensures Resolve(root, PointerTo(keys)) == Walk(Object(root), keys)
  {
    var parts := EscapeAll(keys);
    forall i | 0 <= i < |parts| ensures SLASH !in parts[i] && Unescape(parts[i]) == keys[i] {
      EscapeHasNoSlash(keys[i]);
      UnescapeEscape(keys[i]);
    }
    SplitJoin(parts, SLASH);
    assert PointerTo(keys)[2..] == Join(parts, SLASH);
    assert UnescapeAll(parts) == keys;
  }

  // ----- what a reference says -----

  /** A reference token read once from left to right: `~1` is a slash, `~0` a tilde, all else itself. */
  function Decoded(part: Text): Text {
    if part == [] then []
    else if |part| > 1 && part[0] == TILDE && part[1] == ONE then [SLASH] + Decoded(part[2..])
    else if |part| > 1 && part[0] == TILDE && part[1] == ZERO then [TILDE] + Decoded(part[2..])
    else [part[0]] + Decoded(part[1..])
  }

  /** The two passes never meet: no `~0` comes about by the first. */
  lemma {:induction false} UnescapeReadsOnce(part: Text)
    ensures Unescape(part) == Decoded(part)
  {
    if part != [] {
      var first := ReplaceTilde(part, ONE, SLASH);
      if |part| > 1 && part[0] == TILDE && part[1] == ONE {
        UnescapeReadsOnce(part[2..]);
        assert first[1..] == ReplaceTilde(part[2..], ONE, SLASH);
      } else if |part| > 1 && part[0] == TILDE && part[1] == ZERO {
        UnescapeReadsOnce(part[2..]);
        var rest := ReplaceTilde(part[2..], ONE, SLASH);
        assert part[1..][1..] == part[2..] && part[1..][0] == ZERO;
        assert ReplaceTilde(part[1..], ONE, SLASH) == [ZERO] + rest;
        assert first == [TILDE] + ([ZERO] + rest) && first[2..] == rest;
      } else {
        UnescapeReadsOnce(part[1..]);
        var rest := ReplaceTilde(part[1..], ONE, SLASH);
        assert first == [part[0]] + rest && first[1..] == rest;
        if |part| > 1 && part[0] == TILDE { NoZeroFirst(part[1..]); }
      }
    }
  }

  lemma {:induction false} NoZeroFirst(part: Text)
    requires part != [] && part[0] != ZERO
    ensures ReplaceTilde(part, ONE, SLASH) != [] && ReplaceTilde(part, ONE, SLASH)[0] != ZERO
  {
  }

  /** The reference is `#/` and the keys, escaped in some way and separated by slashes. */
  ghost predicate PointsAlong(reference: Text, keys: seq<Text>) {
    exists parts :: Spells(reference, keys, parts)
  }

  ghost predicate Spells(reference: Text, keys: seq<Text>, parts: seq<Text>) {
    && parts != [] && |keys| == |parts|
    && reference == [HASH, SLASH] + Join(parts, SLASH)
    && forall i | 0 <= i < |parts| :: SLASH !in parts[i] && keys[i] == Decoded(parts[i])
  }

  lemma {:induction false} SpelledReference(root: Record, reference: Text, keys: seq<Text>, parts: seq<Text>)
    requires Spells(reference, keys, parts)
    ensures Resolve(root, reference) == Walk(Object(root), keys)
  {
    SplitJoin(parts, SLASH);
    assert reference[2..] == Join(parts, SLASH);
    forall i | 0 <= i < |parts| ensures Unescape(parts[i]) == keys[i] { UnescapeReadsOnce(parts[i]); }
    assert UnescapeAll(parts) == keys;
  }

  lemma {:induction false} LocalIsSpelled(reference: Text)
    requires Local(reference)
    ensures var parts := Split(reference[2..], SLASH); Spells(reference, UnescapeAll(parts), parts)
  {
    var parts := Split(reference[2..], SLASH);
    assert reference == [HASH, SLASH] + reference[2..];
    forall i | 0 <= i < |parts| ensures UnescapeAll(parts)[i] == Decoded(parts[i]) { UnescapeReadsOnce(parts[i]); }
  }

  /** What a reference resolves to is the value at the keys it spells; one that spells none resolves to
      nothing. */
  lemma {:induction false} ResolvesExactly(root: Record, reference: Text, v: Value)
    ensures Resolve(root, reference) == Some(v)
       <==> exists keys :: PointsAlong(reference, keys) && Walk(Object(root), keys) == Some(v)
  {
    if Resolve(root, reference) == Some(v) {
      LocalIsSpelled(reference);
      var keys := UnescapeAll(Split(reference[2..], SLASH));
      assert PointsAlong(reference, keys);
    }
    forall keys | PointsAlong(reference, keys) ensures Resolve(root, reference) == Walk(Object(root), keys) {
      var parts :| Spells(reference, keys, parts);
      SpelledReference(root, reference, keys, parts);
    }
  }
}
