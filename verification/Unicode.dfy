/** The two encodings of the code points of a text, and `Buffer.byteLength(text, "utf8")`, which
    measures the UTF-8 form of a string given by its UTF-16 units. */
module Unicode {
  import opened CodeUnits

  predicate High(u: Unit) { 0xD800 <= u < 0xDC00 }

  predicate Low(u: Unit) { 0xDC00 <= u < 0xE000 }

  predicate Scalar(c: Unit) { !High(c) && !Low(c) }

  /** Section 3 of RFC 3629. */
  function Utf8(c: Unit): (bytes: Text)
    ensures forall i | 0 <= i < |bytes| :: bytes[i] < 256
    ensures if c < 128 then bytes == [c] else bytes != [] && forall i | 0 <= i < |bytes| :: bytes[i] >= 128
  {
    if c < 0x80 then [c]
    else if c < 0x800 then [0xC0 + c / 0x40, 0x80 + c % 0x40]
    else if c < 0x1_0000 then [0xE0 + c / 0x1000, 0x80 + c / 0x40 % 0x40, 0x80 + c % 0x40]
    else [0xF0 + c / 0x4_0000, 0x80 + c / 0x1000 % 0x40, 0x80 + c / 0x40 % 0x40, 0x80 + c % 0x40]
  }

  function Utf16(c: Unit): (units: Text)
    ensures if c < 128 then units == [c] else units != [] && forall i | 0 <= i < |units| :: units[i] >= 128
  {
    if c < 0x1_0000 then [c]
    else [0xD800 + (c - 0x1_0000) / 0x400, 0xDC00 + (c - 0x1_0000) % 0x400]
  }

  function Encode(encoding: Unit -> Text, points: Text): Text {
    if points == [] then [] else encoding(points[0]) + Encode(encoding, points[1..])
  }

  // ----- byte lengths -----

  function UnitBytes(u: Unit): nat {
    if u < 0x80 then 1 else if u < 0x800 then 2 else 3
  }

  /** A surrogate pair takes four bytes; a lone surrogate is written as U+FFFD, three bytes. */
  function ByteLength(text: Text): nat {
    if text == [] then 0
    else if High(text[0]) && |text| > 1 && Low(text[1]) then 4 + ByteLength(text[2..])
    else UnitBytes(text[0]) + ByteLength(text[1..])
  }

  /** Appending one unit adds its own bytes, except that a low surrogate after a high one adds only
      the fourth byte of the pair. */
  lemma {:induction false} ByteLengthAppend(text: Text, u: Unit)
    ensures ByteLength(text + [u])
         == ByteLength(text) + if text != [] && High(text[|text| - 1]) && Low(u) then 1 else UnitBytes(u)
  {
    var longer := text + [u];
    if text == [] {
      assert longer[1..] == [];
    } else if High(text[0]) && |text| > 1 && Low(text[1]) {
      assert longer[2..] == text[2..] + [u];
      ByteLengthAppend(text[2..], u);
    } else if |text| == 1 && High(text[0]) && Low(u) {
      assert longer[2..] == [] && text[1..] == [];
    } else {
      assert longer[1..] == text[1..] + [u];
      ByteLengthAppend(text[1..], u);
    }
  }

  /** Longer prefixes never take fewer bytes, even where a cut splits a pair. */
  lemma {:induction false} ByteLengthMonotone(text: Text, i: nat, j: nat)
    requires i <= j <= |text|
    ensures ByteLength(text[..i]) <= ByteLength(text[..j])
    decreases j - i
  {
    if i < j {
      ByteLengthMonotone(text, i, j - 1);
      assert text[..j] == text[..j - 1] + [text[j - 1]];
      ByteLengthAppend(text[..j - 1], text[j - 1]);
    }
  }

  /** The cut between two texts splits a surrogate pair. */
  predicate SplitsPair(a: Text, b: Text) {
    a != [] && b != [] && High(a[|a| - 1]) && Low(b[0])
  }

  /** The length of a concatenation is the sum, or less where a pair was split. */
  lemma {:induction false} ByteLengthConcat(a: Text, b: Text)
    ensures ByteLength(a + b) <= ByteLength(a) + ByteLength(b)
    ensures !SplitsPair(a, b) ==> ByteLength(a + b) == ByteLength(a) + ByteLength(b)
  {
    if a == [] {
      assert a + b == b;
    } else if High(a[0]) && |a| > 1 && Low(a[1]) {
      assert (a + b)[2..] == a[2..] + b;
      ByteLengthConcat(a[2..], b);
    } else if |a| == 1 && High(a[0]) && b != [] && Low(b[0]) {
      assert (a + b)[2..] == b[1..];
      assert a[1..] == [];
    } else {
      assert (a + b)[1..] == a[1..] + b;
      ByteLengthConcat(a[1..], b);
    }
  }

  /** It is the number of bytes of the UTF-8 form: measured on units, counted on code points. */
  lemma {:induction false} ByteLengthCountsUtf8(points: Text)
    requires forall i | 0 <= i < |points| :: Scalar(points[i])
    ensures ByteLength(Encode(Utf16, points)) == |Encode(Utf8, points)|
  {
    if points != [] {
      var c, rest := points[0], Encode(Utf16, points[1..]);
      ByteLengthCountsUtf8(points[1..]);
      var units := Utf16(c) + rest;
      if c < 0x1_0000 { assert units[1..] == rest; } else { assert units[2..] == rest; }
    }
  }
}
