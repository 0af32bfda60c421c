/** Whole paths: the Rust checker's segment recursion, and its agreement with the regular expression
    that the TypeScript loader builds for the same glob. */
module PathGlob {
  import opened CodeUnits
  import opened SegmentGlob
  import opened GlobRegex

  const DOUBLE_STAR: Text := [STAR, STAR]

  /** `glob_match_parts`. */
  predicate GlobMatchParts(pattern: seq<Text>, path: seq<Text>)
    decreases |pattern|, |path|
  {
    if pattern == [] then path == []
    else if pattern[0] == DOUBLE_STAR then
      GlobMatchParts(pattern[1..], path) || (path != [] && GlobMatchParts(pattern, path[1..]))
    else
      path != [] && SegmentMatch(pattern[0], path[0]) && GlobMatchParts(pattern[1..], path[1..])
  }

  /** `glob_matches`. */
  predicate GlobMatches(pattern: Text, path: Text) {
    GlobMatchParts(Split(NormalizeSlashes(pattern), SLASH), Split(NormalizeSlashes(path), SLASH))
  }

  // ----- the patterns and paths compared -----

  predicate NoAdjacentStars(segment: Text) {
    forall i | 0 <= i < |segment| - 1 :: !(segment[i] == STAR && segment[i + 1] == STAR)
  }

  /** `**` stands alone as a segment or not at all. */
  predicate PlainPattern(parts: seq<Text>) {
    forall i | 0 <= i < |parts| ::
      SLASH !in parts[i] && (parts[i] == DOUBLE_STAR || NoAdjacentStars(parts[i]))
  }

  predicate PlainSegment(segment: Text) {
    && segment != [] && SLASH !in segment && STAR !in segment
    && forall i | 0 <= i < |segment| :: !LineTerminator(segment[i])
  }

  predicate PlainPath(segments: seq<Text>) {
    segments != [] && forall i | 0 <= i < |segments| :: PlainSegment(segments[i])
  }

  /** A final `**` crosses at least one segment in the regular expression, as `**` before `*` does in
      the segment matcher. */
  function ExpandFinal(parts: seq<Text>): (r: seq<Text>)
    requires parts != []
    ensures r != [] && r[|r| - 1] != DOUBLE_STAR
  {
    if parts[|parts| - 1] == DOUBLE_STAR then parts + [[STAR]] else parts
  }

  // ----- translating segment by segment -----

  lemma {:induction false} TranslateSegment(segment: Text, rest: Text)
    requires SLASH !in segment && NoAdjacentStars(segment) && (rest != [] ==> rest[0] == SLASH)
    ensures Translate(segment + rest) == Translate(segment) + Translate(rest)
  {
    var glob := segment + rest;
    if segment == [] {
      assert glob == rest;
    } else {
      assert glob[1..] == segment[1..] + rest;
      assert |segment| > 1 ==> glob[1] == segment[1];
      TranslateSegment(segment[1..], rest);
    }
  }

  lemma TranslateSlash(rest: Text)
    ensures Translate([SLASH] + rest) == [Literal(SLASH)] + Translate(rest)
  {
    assert ([SLASH] + rest)[1..] == rest;
  }

  lemma TranslateDoubleStar(rest: Text)
    ensures Translate(DOUBLE_STAR + [SLASH] + rest) == [Directories] + Translate(rest)
  {
    var glob := DOUBLE_STAR + [SLASH] + rest;
    assert glob[3..] == rest && glob[2] == SLASH;
  }

  // ----- accepting segment by segment -----

  lemma {:induction false} AcceptsSegment(segment: Text, tail: seq<Atom>, text: Text, rest: Text)
    requires SLASH !in segment && NoAdjacentStars(segment) && SLASH !in text
    requires rest != [] ==> rest[0] == SLASH
    requires tail != [] ==> tail[0] == Literal(SLASH)
    ensures Accepts(Translate(segment) + tail, text + rest) <==> Matches(segment, text) && Accepts(tail, rest)
    decreases |segment|, |text|
  {
    var atoms, path := Translate(segment) + tail, text + rest;
    if segment == [] {
      assert atoms == tail;
      if text == [] { assert path == rest; } else { assert path[0] == text[0]; }
    } else {
      assert atoms[1..] == Translate(segment[1..]) + tail;
      if text != [] { assert path[1..] == text[1..] + rest && path[0] == text[0]; } else { assert path == rest; }
      if segment[0] == STAR {
        AcceptsSegment(segment[1..], tail, text, rest);
        if text != [] { AcceptsSegment(segment, tail, text[1..], rest); }
      } else if text != [] {
        AcceptsSegment(segment[1..], tail, text[1..], rest);
      }
    }
  }

  lemma {:induction false} AfterSlashSkips(atoms: seq<Atom>, text: Text, rest: Text)
    requires SLASH !in text && forall i | 0 <= i < |text| :: !LineTerminator(text[i])
    ensures AcceptsAfterSlash(atoms, text + rest) == AcceptsAfterSlash(atoms, rest)
  {
    if text == [] {
      assert text + rest == rest;
    } else {
      assert (text + rest)[1..] == text[1..] + rest;
      AfterSlashSkips(atoms, text[1..], rest);
    }
  }

  lemma {:induction false} AnythingAccepts(path: Text)
    requires forall i | 0 <= i < |path| :: !LineTerminator(path[i])
    ensures Accepts([Anything], path)
  {
    if path != [] { AnythingAccepts(path[1..]); }
  }

  lemma {:induction false} PlainPathText(segments: seq<Text>)
    requires PlainPath(segments)
    ensures forall i | 0 <= i < |Join(segments, SLASH)| :: !LineTerminator(Join(segments, SLASH)[i])
  {
    if |segments| > 1 { PlainPathText(segments[1..]); }
  }

  // ----- the segment recursion -----

  lemma {:induction false} NeverEmpty(parts: seq<Text>)
    requires parts != [] && parts[|parts| - 1] != DOUBLE_STAR
    ensures !GlobMatchParts(parts, [])
  {
    if parts[0] == DOUBLE_STAR { NeverEmpty(parts[1..]); }
  }

  lemma {:induction false} DoubleStarAcceptsAll(path: seq<Text>)
    requires PlainPath(path)
    ensures GlobMatchParts([DOUBLE_STAR, [STAR]], path)
  {
    if |path| > 1 {
      DoubleStarAcceptsAll(path[1..]);
    } else {
      assert [DOUBLE_STAR, [STAR]][1..] == [[STAR]];
      StarMatchesAll(path[0]);
      SegmentMatchDecides([STAR], path[0]);
    }
  }

  lemma {:induction false} StarMatchesAll(text: Text)
    ensures Matches([STAR], text)
  {
    if text != [] { StarMatchesAll(text[1..]); }
  }

  function AfterFirst(path: seq<Text>): (after: Text)
    requires path != []
    ensures Join(path, SLASH) == path[0] + after
    ensures after != [] ==> after[0] == SLASH && after[1..] == Join(path[1..], SLASH)
    ensures after == [] <==> |path| == 1
  {
    if |path| == 1 then [] else [SLASH] + Join(path[1..], SLASH)
  }

  lemma {:induction false} AgreementOne(part: Text, path: seq<Text>)
    requires PlainPattern([part]) && PlainPath(path)
    ensures Accepts(Translate(part), Join(path, SLASH)) <==> GlobMatchParts(ExpandFinal([part]), path)
  {
    if part == DOUBLE_STAR {
      PlainPathText(path);
      assert Translate(DOUBLE_STAR) == [Anything] by { assert DOUBLE_STAR[2..] == []; }
      assert ExpandFinal([part]) == [DOUBLE_STAR, [STAR]];
      AnythingAccepts(Join(path, SLASH));
      DoubleStarAcceptsAll(path);
    } else {
      assert [part][0] == part;
      SegmentMatchDecides(part, path[0]);
      AcceptsSegment(part, [], path[0], AfterFirst(path));
      assert Translate(part) + [] == Translate(part);
    }
  }

  /** A plain segment, a slash and the rest. */
  lemma {:induction false} SegmentStep(part: Text, rest: Text, path: seq<Text>)
    requires SLASH !in part && NoAdjacentStars(part) && PlainPath(path)
    ensures Accepts(Translate(part + ([SLASH] + rest)), Join(path, SLASH))
       <==> SegmentMatch(part, path[0]) && |path| > 1 && Accepts(Translate(rest), Join(path[1..], SLASH))
  {
    var after := AfterFirst(path);
    TranslateSlash(rest);
    TranslateSegment(part, [SLASH] + rest);
    SegmentMatchDecides(part, path[0]);
    AcceptsSegment(part, [Literal(SLASH)] + Translate(rest), path[0], after);
    assert ([Literal(SLASH)] + Translate(rest))[1..] == Translate(rest);
  }

  /** The optional directory prefix crosses one more segment at a time. */
  lemma {:induction false} DirectoriesStep(atoms: seq<Atom>, path: seq<Text>)
    requires PlainPath(path)
    ensures Accepts([Directories] + atoms, Join(path, SLASH))
       <==> (|| Accepts(atoms, Join(path, SLASH))
             || (|path| > 1 && Accepts([Directories] + atoms, Join(path[1..], SLASH))))
  {
    assert ([Directories] + atoms)[1..] == atoms;
    AfterSlashSkips(atoms, path[0], AfterFirst(path));
  }

  /** Two stars, a slash and the rest: the rest here, or the same one segment later. */
  lemma {:induction false} DoubleStarStep(rest: Text, path: seq<Text>)
    requires PlainPath(path)
    ensures var glob := DOUBLE_STAR + [SLASH] + rest;
      Accepts(Translate(glob), Join(path, SLASH))
      <==> (|| Accepts(Translate(rest), Join(path, SLASH))
            || (|path| > 1 && Accepts(Translate(glob), Join(path[1..], SLASH))))
  {
    TranslateDoubleStar(rest);
    DirectoriesStep(Translate(rest), path);
  }

  /** The same for the segment matcher, whose final `**` has been expanded. */
  lemma {:induction false} PartsStep(parts: seq<Text>, path: seq<Text>)
    requires |parts| > 1 && path != []
    ensures var more := |path| > 1 && GlobMatchParts(ExpandFinal(parts), path[1..]);
      GlobMatchParts(ExpandFinal(parts), path)
      <==> if parts[0] == DOUBLE_STAR then GlobMatchParts(ExpandFinal(parts[1..]), path) || more
           else SegmentMatch(parts[0], path[0]) && |path| > 1 && GlobMatchParts(ExpandFinal(parts[1..]), path[1..])
  {
    assert ExpandFinal(parts)[0] == parts[0] && ExpandFinal(parts)[1..] == ExpandFinal(parts[1..]);
    if |path| == 1 {
      assert path[1..] == [];
      NeverEmpty(ExpandFinal(parts));
      NeverEmpty(ExpandFinal(parts[1..]));
    }
  }

  lemma JoinFirst(parts: seq<Text>)
    requires |parts| > 1
    ensures Join(parts, SLASH) == parts[0] + [SLASH] + Join(parts[1..], SLASH)
    ensures Join(parts, SLASH) == parts[0] + ([SLASH] + Join(parts[1..], SLASH))
  {
  }

  lemma {:induction false} Agreement(parts: seq<Text>, path: seq<Text>)
    requires parts != [] && PlainPattern(parts) && PlainPath(path)
    ensures Accepts(Translate(Join(parts, SLASH)), Join(path, SLASH)) <==> GlobMatchParts(ExpandFinal(parts), path)
    decreases |parts|, |path|
  {
    if |parts| == 1 {
      assert parts == [parts[0]];
      AgreementOne(parts[0], path);
    } else {
      var rest := Join(parts[1..], SLASH);
      JoinFirst(parts);
      PartsStep(parts, path);
      if parts[0] == DOUBLE_STAR {
        DoubleStarStep(rest, path);
        Agreement(parts[1..], path);
        if |path| > 1 { Agreement(parts, path[1..]); }
      } else {
        SegmentStep(parts[0], rest, path);
        if |path| > 1 { Agreement(parts[1..], path[1..]); }
      }
    }
  }

  // ----- the two matchers -----

  /** A path as both matchers receive it: split at slashes it has only plain segments. */
  predicate ComparablePath(path: Text) {
    BACKSLASH !in path && PlainPath(Split(path, SLASH))
  }

  lemma {:induction false} NothingToNormalize(glob: Text, path: Text)
    requires BACKSLASH !in path && BACKSLASH !in glob
    ensures GlobMatches(glob, path) == GlobMatchParts(Split(glob, SLASH), Split(path, SLASH))
  {
  }

  /** `**` only as a whole segment other than the last. */
  predicate ComparablePattern(parts: seq<Text>) {
    parts != [] && PlainPattern(parts) && parts[|parts| - 1] != DOUBLE_STAR
  }

  lemma {:induction false} AgreementPlain(glob: Text, text: Text, parts: seq<Text>, path: seq<Text>)
    requires ComparablePattern(parts) && PlainPath(path)
    requires glob == Join(parts, SLASH) && text == Join(path, SLASH)
    ensures Accepts(Translate(glob), text) <==> GlobMatchParts(parts, path)
  {
    Agreement(parts, path);
  }

  /** Both matchers accept the same paths for every glob in which `**` is a whole segment other than
      the last and no other segment has adjacent stars. */
  lemma {:induction false} MatchersAgree(glob: Text, path: Text)
    requires ComparablePath(path) && ComparablePattern(Split(NormalizeResourcePath(glob), SLASH))
    ensures Accepts(Translate(NormalizeResourcePath(glob)), path) <==> GlobMatches(NormalizeResourcePath(glob), path)
  {
    var normalized := NormalizeResourcePath(glob);
    NothingToNormalize(normalized, path);
    AgreementPlain(normalized, path, Split(normalized, SLASH), Split(path, SLASH));
  }

  /** With a final `**` the segment matcher also accepts the directory before it; that is the only
      difference. */
  lemma FinalDoubleStar(parts: seq<Text>, path: seq<Text>)
    requires PlainPattern(parts) && PlainPath(path)
    ensures GlobMatchParts(parts + [DOUBLE_STAR], path)
       <==> (|| Accepts(Translate(Join(parts + [DOUBLE_STAR], SLASH)), Join(path, SLASH))
             || GlobMatchParts(parts, path))
  {
    Agreement(parts + [DOUBLE_STAR], path);
    assert ExpandFinal(parts + [DOUBLE_STAR]) == parts + [DOUBLE_STAR, [STAR]];
    OneMoreOrNone(parts, path);
  }

  lemma {:induction false} OneMoreOrNone(parts: seq<Text>, path: seq<Text>)
    requires path != [] ==> PlainPath(path)
    ensures GlobMatchParts(parts + [DOUBLE_STAR], path)
       <==> GlobMatchParts(parts + [DOUBLE_STAR, [STAR]], path) || GlobMatchParts(parts, path)
    decreases |parts|, |path|
  {
    if parts == [] {
      assert parts + [DOUBLE_STAR] == [DOUBLE_STAR] && parts + [DOUBLE_STAR, [STAR]] == [DOUBLE_STAR, [STAR]];
      TrailingDoubleStar(path);
      if path != [] { DoubleStarAcceptsAll(path); }
    } else {
      assert (parts + [DOUBLE_STAR])[1..] == parts[1..] + [DOUBLE_STAR];
      assert (parts + [DOUBLE_STAR, [STAR]])[1..] == parts[1..] + [DOUBLE_STAR, [STAR]];
      if parts[0] == DOUBLE_STAR { OneMoreOrNone(parts[1..], path); }
      if path != [] { OneMoreOrNone(if parts[0] == DOUBLE_STAR then parts else parts[1..], path[1..]); }
    }
  }

  lemma {:induction false} TrailingDoubleStar(path: seq<Text>)
    ensures GlobMatchParts([DOUBLE_STAR], path)
  {
    if path != [] { TrailingDoubleStar(path[1..]); }
  }

  /** The witness that they do differ: the glob of a literal directory and `**`, on that directory. */
  lemma FinalDoubleStarDiffers(c: Unit)
    requires c != STAR && c != QUESTION && c != SLASH && !LineTerminator(c)
    ensures GlobMatchParts([[c], DOUBLE_STAR], [[c]])
    ensures !Accepts(Translate([c, SLASH] + DOUBLE_STAR), [c])
  {
    assert Matches([c], [c]) by { assert [c][1..] == []; }
    SegmentMatchDecides([c], [c]);
    assert [[c], DOUBLE_STAR][1..] == [DOUBLE_STAR];
    TrailingDoubleStar([[c]][1..]);
    var glob := [c, SLASH] + DOUBLE_STAR;
    assert glob[1..] == [SLASH] + DOUBLE_STAR;
    TranslateSlash(DOUBLE_STAR);
    assert Translate(glob)[1..] == Translate(glob[1..]);
    assert [c][1..] == [];
  }
}
