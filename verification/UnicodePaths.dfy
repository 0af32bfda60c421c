/** The two matchers see different encodings of one path: the Rust loop its UTF-8 bytes, the regular
    expression its UTF-16 units. For an ASCII glob without `?` that makes no difference; for globs with
    `?` it makes none exactly on ASCII paths, because any other character has more bytes than units, and
    a row of question marks counts them. */
module UnicodePaths {
  import opened CodeUnits
  import opened SegmentGlob
  import opened GlobRegex
  import opened PathGlob
  import opened Unicode

  /** ASCII stands for itself; everything else becomes units outside ASCII. */
  ghost predicate AsciiCompatible(encoding: Unit -> Text) {
    forall c: Unit :: if c < 128 then encoding(c) == [c]
      else encoding(c) != [] && forall i | 0 <= i < |encoding(c)| :: encoding(c)[i] >= 128
  }

  predicate Ascii(text: Text) {
    forall i | 0 <= i < |text| :: text[i] < 128
  }

  predicate NonAscii(text: Text) {
    forall i | 0 <= i < |text| :: text[i] >= 128
  }

  predicate PlainAsciiGlob(pattern: Text) {
    Ascii(pattern) && QUESTION !in pattern
  }

  // ----- one segment -----

  /** A star absorbs a partly consumed character; nothing else in the pattern can. */
  lemma {:induction false} PartialCharacter(pattern: Text, part: Text, rest: Text)
    requires PlainAsciiGlob(pattern) && NonAscii(part)
    ensures part != [] && Matches(pattern, part + rest) ==> pattern != [] && pattern[0] == STAR
    ensures pattern != [] && pattern[0] == STAR ==> (Matches(pattern, part + rest) <==> Matches(pattern, rest))
    decreases |pattern|, |part|
  {
    if part == [] {
      assert part + rest == rest;
    } else {
      assert (part + rest)[0] == part[0] && (part + rest)[1..] == part[1..] + rest;
      if pattern != [] && pattern[0] == STAR {
        PartialCharacter(pattern, part[1..], rest);
        PartialCharacter(pattern[1..], part, rest);
      }
    }
  }

  lemma {:induction false} MatchesEncoded(encoding: Unit -> Text, pattern: Text, text: Text)
    requires AsciiCompatible(encoding) && PlainAsciiGlob(pattern)
    ensures Matches(pattern, Encode(encoding, text)) <==> Matches(pattern, text)
    decreases |pattern|, |text|
  {
    if pattern != [] {
      if text == [] {
        if pattern[0] == STAR { MatchesEncoded(encoding, pattern[1..], text); }
      } else {
        var first, rest := encoding(text[0]), Encode(encoding, text[1..]);
        assert (first + rest)[1..] == first[1..] + rest;
        if pattern[0] == STAR {
          MatchesEncoded(encoding, pattern[1..], text);
          MatchesEncoded(encoding, pattern, text[1..]);
          PartialCharacter(pattern, first[1..], rest);
        } else {
          MatchesEncoded(encoding, pattern[1..], text[1..]);
          assert text[0] < 128 ==> first[1..] + rest == rest;
        }
      }
    }
  }

  lemma {:induction false} AsciiOccurs(encoding: Unit -> Text, c: Unit, text: Text)
    requires AsciiCompatible(encoding) && c < 128
    ensures c in Encode(encoding, text) <==> c in text
  {
    if text != [] { AsciiOccurs(encoding, c, text[1..]); }
  }

  // ----- whole paths -----

  function EncodeAll(encoding: Unit -> Text, path: seq<Text>): (r: seq<Text>)
    ensures |r| == |path| && forall i | 0 <= i < |path| :: r[i] == Encode(encoding, path[i])
  {
    seq(|path|, i requires 0 <= i < |path| => Encode(encoding, path[i]))
  }

  lemma {:induction false} EncodeConcat(encoding: Unit -> Text, a: Text, b: Text)
    ensures Encode(encoding, a + b) == Encode(encoding, a) + Encode(encoding, b)
  {
    if a == [] {
      assert a + b == b;
    } else {
      assert (a + b)[1..] == a[1..] + b;
      EncodeConcat(encoding, a[1..], b);
    }
  }

  lemma {:induction false} EncodeJoin(encoding: Unit -> Text, path: seq<Text>)
    requires AsciiCompatible(encoding)
    ensures Encode(encoding, Join(path, SLASH)) == Join(EncodeAll(encoding, path), SLASH)
  {
    if |path| > 1 {
      EncodeJoin(encoding, path[1..]);
      assert EncodeAll(encoding, path)[1..] == EncodeAll(encoding, path[1..]);
      EncodeConcat(encoding, path[0] + [SLASH], Join(path[1..], SLASH));
      EncodeConcat(encoding, path[0], [SLASH]);
      assert [SLASH][1..] == [];
    }
  }

  /** Encoding a path encodes its segments. */
  lemma SplitEncoded(encoding: Unit -> Text, text: Text)
    requires AsciiCompatible(encoding)
    ensures Split(Encode(encoding, text), SLASH) == EncodeAll(encoding, Split(text, SLASH))
  {
    var parts := EncodeAll(encoding, Split(text, SLASH));
    EncodeJoin(encoding, Split(text, SLASH));
    forall i | 0 <= i < |parts| ensures SLASH !in parts[i] {
      AsciiOccurs(encoding, SLASH, Split(text, SLASH)[i]);
    }
    SplitJoin(parts, SLASH);
  }

  lemma {:induction false} GlobMatchEncoded(encoding: Unit -> Text, parts: seq<Text>, path: seq<Text>)
    requires AsciiCompatible(encoding) && PlainAsciiParts(parts)
    requires forall i | 0 <= i < |path| :: STAR !in path[i]
    ensures GlobMatchParts(parts, EncodeAll(encoding, path)) <==> GlobMatchParts(parts, path)
    decreases |parts|, |path|
  {
    if parts != [] {
      if parts[0] == DOUBLE_STAR { GlobMatchEncoded(encoding, parts[1..], path); }
      if path != [] {
        assert EncodeAll(encoding, path)[1..] == EncodeAll(encoding, path[1..]);
        GlobMatchEncoded(encoding, if parts[0] == DOUBLE_STAR then parts else parts[1..], path[1..]);
        AsciiOccurs(encoding, STAR, path[0]);
        MatchesEncoded(encoding, parts[0], path[0]);
        SegmentMatchDecides(parts[0], path[0]);
        SegmentMatchDecides(parts[0], Encode(encoding, path[0]));
      }
    }
  }

  predicate PlainAsciiParts(parts: seq<Text>) {
    forall i | 0 <= i < |parts| :: PlainAsciiGlob(parts[i])
  }

  lemma Utf16KeepsPlain(path: Text)
    requires ComparablePath(path)
    ensures ComparablePath(Encode(Utf16, path))
  {
    AsciiOccurs(Utf16, BACKSLASH, path);
    SplitEncoded(Utf16, path);
    var parts := Split(path, SLASH);
    forall i | 0 <= i < |parts| ensures PlainSegment(Encode(Utf16, parts[i])) {
      AsciiOccurs(Utf16, SLASH, parts[i]);
      AsciiOccurs(Utf16, STAR, parts[i]);
      Utf16KeepsLines(parts[i]);
    }
  }

  lemma {:induction false} Utf16KeepsLines(text: Text)
    requires forall i | 0 <= i < |text| :: !LineTerminator(text[i])
    ensures text != [] ==> Encode(Utf16, text) != []
    ensures forall i | 0 <= i < |Encode(Utf16, text)| :: !LineTerminator(Encode(Utf16, text)[i])
  {
    if text != [] { Utf16KeepsLines(text[1..]); }
  }

  /** The segment matcher decides the same on both encodings. */
  lemma {:induction false} GlobMatchesEncoded(glob: Text, path: Text)
    requires BACKSLASH !in glob && BACKSLASH !in path && PlainAsciiGlob(glob)
    requires forall i | 0 <= i < |Split(path, SLASH)| :: STAR !in Split(path, SLASH)[i]
    ensures GlobMatches(glob, Encode(Utf8, path)) <==> GlobMatches(glob, Encode(Utf16, path))
  {
    var parts, segments := Split(glob, SLASH), Split(path, SLASH);
    PartsArePlain(glob);
    AsciiOccurs(Utf8, BACKSLASH, path);
    AsciiOccurs(Utf16, BACKSLASH, path);
    SplitEncoded(Utf8, path);
    SplitEncoded(Utf16, path);
    GlobMatchEncoded(Utf8, parts, segments);
    GlobMatchEncoded(Utf16, parts, segments);
  }

  lemma {:induction false} PartsArePlain(text: Text)
    requires PlainAsciiGlob(text)
    ensures PlainAsciiParts(Split(text, SLASH))
  {
    if SLASH in text {
      PartsArePlain(text[IndexOf(text, SLASH) + 1..]);
    }
  }

  // ----- question marks -----

  lemma {:induction false} QuestionsAccept(n: nat, text: Text)
    requires SLASH !in text
    ensures Accepts(Translate(Questions(n)), text) <==> n == |text|
  {
    if n > 0 {
      assert Questions(n)[1..] == Questions(n - 1);
      assert Translate(Questions(n)) == [OneInSegment] + Translate(Questions(n - 1));
      assert Translate(Questions(n))[1..] == Translate(Questions(n - 1));
      if text != [] { QuestionsAccept(n - 1, text[1..]); }
    }
  }

  /** ASCII is encoded as it is. */
  lemma {:induction false} AsciiStaysItself(encoding: Unit -> Text, text: Text)
    requires AsciiCompatible(encoding) && Ascii(text)
    ensures Encode(encoding, text) == text
  {
    if text != [] { AsciiStaysItself(encoding, text[1..]); }
  }

  /** Outside ASCII the UTF-8 form has more bytes than the UTF-16 form has units. */
  lemma {:induction false} MoreBytesThanUnits(text: Text)
    ensures |Encode(Utf16, text)| <= |Encode(Utf8, text)|
    ensures |Encode(Utf16, text)| == |Encode(Utf8, text)| <==> Ascii(text)
  {
    if text != [] {
      MoreBytesThanUnits(text[1..]);
      assert Ascii(text) <==> text[0] < 128 && Ascii(text[1..]);
      assert |Utf16(text[0])| <= |Utf8(text[0])|;
      assert |Utf16(text[0])| == |Utf8(text[0])| <==> text[0] < 128;
    }
  }

  /** The glob of one `?` for every unit of the segments. */
  function Marks(texts: seq<Text>): (r: seq<Text>)
    ensures |r| == |texts| && forall i | 0 <= i < |texts| :: r[i] == Questions(|texts[i]|)
  {
    seq(|texts|, i requires 0 <= i < |texts| => Questions(|texts[i]|))
  }

  predicate SameLengths(a: seq<Text>, b: seq<Text>) {
    |a| == |b| && forall i | 0 <= i < |a| :: |a[i]| == |b[i]|
  }

  lemma QuestionsAreNoStars(n: nat)
    ensures Questions(n) != DOUBLE_STAR && NoAdjacentStars(Questions(n)) && SLASH !in Questions(n)
  {
    assert DOUBLE_STAR[0] == STAR;
  }

  lemma {:induction false} MarksMatch(texts: seq<Text>, path: seq<Text>)
    requires forall i | 0 <= i < |path| :: STAR !in path[i]
    ensures GlobMatchParts(Marks(texts), path) <==> SameLengths(texts, path)
    decreases |texts|
  {
    if texts != [] {
      var first := Questions(|texts[0]|);
      QuestionsAreNoStars(|texts[0]|);
      assert Marks(texts)[0] == first && Marks(texts)[1..] == Marks(texts[1..]);
      if path != [] {
        MarksMatch(texts[1..], path[1..]);
        SegmentMatchDecides(first, path[0]);
        QuestionsMatch(|texts[0]|, path[0]);
        assert SameLengths(texts, path) <==> |texts[0]| == |path[0]| && SameLengths(texts[1..], path[1..]) by {
          if |texts[0]| == |path[0]| && SameLengths(texts[1..], path[1..]) {
            forall i | 0 <= i < |texts| ensures |texts[i]| == |path[i]| {
              if i > 0 { assert texts[i] == texts[1..][i - 1] && path[i] == path[1..][i - 1]; }
            }
          }
          if SameLengths(texts, path) {
            forall i | 0 <= i < |texts[1..]| ensures |texts[1..][i]| == |path[1..][i]| {
              assert |texts[i + 1]| == |path[i + 1]|;
            }
          }
        }
      }
    }
  }

  lemma {:induction false} JoinedUnits(parts: seq<Text>)
    requires forall i | 0 <= i < |parts| :: forall u | u in parts[i] :: u == QUESTION
    ensures forall u | u in Join(parts, SLASH) :: u == QUESTION || u == SLASH
  {
    if |parts| > 1 { JoinedUnits(parts[1..]); }
  }

  lemma AsciiConcat(a: Text, b: Text)
    ensures Ascii(a + b) <==> Ascii(a) && Ascii(b)
  {
    assert forall i | 0 <= i < |a| :: (a + b)[i] == a[i];
    assert forall i | 0 <= i < |b| :: (a + b)[|a| + i] == b[i];
  }

  lemma {:induction false} AsciiJoin(parts: seq<Text>)
    ensures Ascii(Join(parts, SLASH)) <==> forall p | p in parts :: Ascii(p)
  {
    if |parts| == 1 {
      assert parts == [parts[0]];
    } else if parts != [] {
      AsciiJoin(parts[1..]);
      AsciiConcat(parts[0] + [SLASH], Join(parts[1..], SLASH));
      AsciiConcat(parts[0], [SLASH]);
      assert parts == [parts[0]] + parts[1..];
    }
  }

  // ----- all globs on one path -----

  /** Globs on which the matchers are compared: ASCII, with `**` only as a non-final segment. */
  predicate ComparableGlob(glob: Text) {
    Ascii(NormalizeResourcePath(glob)) && ComparablePattern(Split(NormalizeResourcePath(glob), SLASH))
  }

  /** The loader on the UTF-16 units and the checker on the bytes of a path agree about a glob. */
  predicate Agree(glob: Text, path: Text) {
    Accepts(Translate(NormalizeResourcePath(glob)), Encode(Utf16, path))
    <==> GlobMatches(NormalizeResourcePath(glob), Encode(Utf8, path))
  }

  lemma {:induction false} AgreeOnAscii(glob: Text, path: Text)
    requires ComparablePath(path) && Ascii(path) && ComparableGlob(glob)
    ensures Agree(glob, path)
  {
    AsciiStaysItself(Utf8, path);
    AsciiStaysItself(Utf16, path);
    MatchersAgree(glob, path);
  }

  /** The glob that tells the two encodings of a path outside ASCII apart. */
  function UnitMarks(path: Text): Text {
    Join(Marks(EncodeAll(Utf16, Split(path, SLASH))), SLASH)
  }

  lemma {:induction false} MarksAreNormal(glob: Text)
    requires forall u | u in glob :: u == QUESTION || u == SLASH
    ensures NormalizeResourcePath(glob) == glob && Ascii(glob)
  {
    assert BACKSLASH !in glob;
    if glob != [] { assert glob[0] in glob; }
    forall i | 0 <= i < |glob| ensures glob[i] < 128 { assert glob[i] in glob; }
  }

  lemma {:induction false} MarksArePlain(texts: seq<Text>)
    requires texts != []
    ensures ComparablePattern(Marks(texts)) && Split(Join(Marks(texts), SLASH), SLASH) == Marks(texts)
  {
    forall i | 0 <= i < |texts| {
      QuestionsAreNoStars(|texts[i]|);
    }
    SplitJoin(Marks(texts), SLASH);
  }

  lemma {:induction false} UnitMarksShape(path: Text)
    ensures NormalizeResourcePath(UnitMarks(path)) == UnitMarks(path)
    ensures Split(UnitMarks(path), SLASH) == Marks(EncodeAll(Utf16, Split(path, SLASH)))
    ensures ComparableGlob(UnitMarks(path))
  {
    var units := EncodeAll(Utf16, Split(path, SLASH));
    JoinedUnits(Marks(units));
    MarksAreNormal(UnitMarks(path));
    MarksArePlain(units);
  }

  lemma {:induction false} EncodedParts(encoding: Unit -> Text, glob: Text, path: Text)
    requires AsciiCompatible(encoding) && BACKSLASH !in glob && BACKSLASH !in path
    ensures GlobMatches(glob, Encode(encoding, path))
         == GlobMatchParts(Split(glob, SLASH), EncodeAll(encoding, Split(path, SLASH)))
  {
    AsciiOccurs(encoding, BACKSLASH, path);
    SplitEncoded(encoding, path);
    NothingToNormalize(glob, Encode(encoding, path));
  }

  lemma {:induction false} NoStarsEncoded(encoding: Unit -> Text, segments: seq<Text>)
    requires AsciiCompatible(encoding) && PlainPath(segments)
    ensures forall i | 0 <= i < |segments| :: STAR !in EncodeAll(encoding, segments)[i]
  {
    forall i | 0 <= i < |segments| ensures STAR !in EncodeAll(encoding, segments)[i] {
      AsciiOccurs(encoding, STAR, segments[i]);
    }
  }

  lemma {:induction false} SomeSegmentGrows(segments: seq<Text>)
    requires !Ascii(Join(segments, SLASH))
    ensures !SameLengths(EncodeAll(Utf16, segments), EncodeAll(Utf8, segments))
  {
    AsciiJoin(segments);
    var p :| p in segments && !Ascii(p);
    var k :| 0 <= k < |segments| && segments[k] == p;
    MoreBytesThanUnits(p);
    assert |EncodeAll(Utf16, segments)[k]| != |EncodeAll(Utf8, segments)[k]|;
  }

  lemma {:induction false} UnitMarksOn(encoding: Unit -> Text, path: Text)
    requires ComparablePath(path) && AsciiCompatible(encoding)
    ensures GlobMatches(UnitMarks(path), Encode(encoding, path))
       <==> SameLengths(EncodeAll(Utf16, Split(path, SLASH)), EncodeAll(encoding, Split(path, SLASH)))
  {
    UnitMarksShape(path);
    EncodedParts(encoding, UnitMarks(path), path);
    NoStarsEncoded(encoding, Split(path, SLASH));
    MarksMatch(EncodeAll(Utf16, Split(path, SLASH)), EncodeAll(encoding, Split(path, SLASH)));
  }

  lemma {:induction false} UnitMarksDiffer(path: Text)
    requires ComparablePath(path) && !Ascii(path)
    ensures !Agree(UnitMarks(path), path)
  {
    UnitMarksShape(path);
    Utf16KeepsPlain(path);
    MatchersAgree(UnitMarks(path), Encode(Utf16, path));
    UnitMarksOn(Utf16, path);
    UnitMarksOn(Utf8, path);
    SomeSegmentGrows(Split(path, SLASH));
  }
}
