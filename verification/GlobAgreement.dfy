/** Where the loader and the checker agree on a glob, and exactly where they do not. */
module GlobAgreement {
  import opened CodeUnits
  import opened SegmentGlob
  import opened GlobRegex
  import opened PathGlob
  import opened Unicode
  import opened UnicodePaths
  import opened GlobPreparation
  import opened CrossingStars
  import InnerStars

  // ----- two encodings -----

  /** The checker on the bytes of a path and the loader on its UTF-16 units agree. */
  lemma {:induction false} MatchersAgreeOnEncodings(glob: Text, path: Text)
    requires ComparablePath(path) && PlainAsciiGlob(NormalizeResourcePath(glob))
    requires ComparablePattern(Split(NormalizeResourcePath(glob), SLASH))
    ensures Accepts(Translate(NormalizeResourcePath(glob)), Encode(Utf16, path))
       <==> GlobMatches(NormalizeResourcePath(glob), Encode(Utf8, path))
  {
    Utf16KeepsPlain(path);
    MatchersAgree(glob, Encode(Utf16, path));
    GlobMatchesEncoded(NormalizeResourcePath(glob), path);
  }

  /** Question marks count: bytes in the checker and units in the loader. So on one segment they agree
      exactly when the count is that of both encodings or of neither. */
  lemma {:induction false} QuestionAgreesExactly(n: nat, text: Text)
    requires SLASH !in text && STAR !in text
    ensures SegmentMatch(Questions(n), Encode(Utf8, text)) <==> n == |Encode(Utf8, text)|
    ensures Accepts(Translate(Questions(n)), Encode(Utf16, text)) <==> n == |Encode(Utf16, text)|
  {
    AsciiOccurs(Utf8, STAR, text);
    AsciiOccurs(Utf16, SLASH, text);
    SegmentMatchDecides(Questions(n), Encode(Utf8, text));
    QuestionsMatch(n, Encode(Utf8, text));
    QuestionsAccept(n, Encode(Utf16, text));
  }

  /** On a path the checker and the loader agree about all comparable globs, `?` included, if and only if
      the path is ASCII. */
  lemma {:induction false} AllGlobsAgreeExactly(path: Text)
    requires ComparablePath(path)
    ensures (forall glob | ComparableGlob(glob) :: Agree(glob, path)) <==> Ascii(path)
  {
    if Ascii(path) {
      forall glob | ComparableGlob(glob) ensures Agree(glob, path) { AgreeOnAscii(glob, path); }
    } else {
      UnitMarksShape(path);
      UnitMarksDiffer(path);
    }
  }

  /** To the checker backslashes are slashes, in the glob and in the path. */
  lemma BackslashesAreSlashes(glob: Text, path: Text)
    ensures GlobMatches(glob, path)
       <==> GlobMatchParts(Split(NormalizeSlashes(glob), SLASH), Split(NormalizeSlashes(path), SLASH))
    ensures forall i | 0 <= i < |path| :: NormalizeSlashes(path)[i] == if path[i] == BACKSLASH then SLASH else path[i]
  {
  }

  // ----- two preparations -----

  /** Exactly then the two sides match the same glob. */
  lemma {:induction false} PreparedAlikeExactly(glob: Text)
    ensures CheckerGlob(glob) == LoaderGlob(glob) <==> PreparedAlike(glob)
  {
    if Trimmed(glob) {
      var slashed := NormalizeSlashes(glob);
      CheckerStrips(glob);
      LoaderStrips(glob);
      DotsOfSlashed(glob);
      CutsDiffer(slashed, 2 * Dots(glob), 2 * AtMostTwo(Dots(slashed)));
    } else {
      UntrimmedDiffers(glob);
    }
  }

  /** From the manifest on: for a glob both sides prepare alike, the loader and the checker accept the
      same paths. */
  lemma LoaderAndCheckerAgree(glob: Text, path: Text)
    requires PreparedAlike(glob) && ComparablePath(path) && ComparablePattern(Split(LoaderGlob(glob), SLASH))
    ensures Accepts(Translate(LoaderGlob(glob)), path) <==> GlobMatches(CheckerGlob(glob), path)
  {
    PreparedAlikeExactly(glob);
    MatchersAgree(NormalizeResourcePath(glob), path);
  }

  /** Three leading `./` are one too many. */
  lemma ThreeDotsDiffer()
    ensures CheckerGlob(Of("./././*")) == Of("*") && LoaderGlob(Of("./././*")) == Of("./*")
  {
    var g := Of("./././*");
    assert g[2..] == Of("././*") && Of("././*")[2..] == Of("./*") && Of("./*")[2..] == Of("*");
    assert Dots(Of("*")) == 0;
    assert Dots(Of("./*")) == 1;
    assert Dots(Of("././*")) == 2;
    assert Dots(g) == 3;
    assert NormalizeSlashes(g) == g;
    LoaderStrips(g);
    CheckerStrips(g);
    assert g[6..] == Of("*") && NormalizeSlashes(Of("*")) == Of("*");
    assert g[4..] == Of("./*");
  }

  // ----- two readings -----

  /** Two adjacent stars with something else on both sides, in one segment of any glob whose other
      segments are comparable: there is a path that the regular expression accepts and the segment
      matcher rejects. */
  lemma InnerDoubleStarDiffers(pre: seq<Text>, u: Text, v: Text, post: seq<Text>)
    requires InnerStars.Sides(u, v) && InnerStars.Fillable(pre + [u, v] + post) && ComparablePattern(pre + [u, v] + post)
    ensures var glob, path := Join(pre + [u + DOUBLE_STAR + v] + post, SLASH), InnerStars.CrossingPath(pre, u, v, post);
      && ComparablePath(path)
      && Accepts(Translate(glob), path)
      && !GlobMatches(glob, path)
  {
    var parts, stars := pre + [u, v] + post, pre + [u + DOUBLE_STAR + v] + post;
    var segments := InnerStars.Instances(parts);
    InnerStars.LoaderAccepts(pre, u, v, post);
    InnerStars.CheckerRejects(pre, u, v, post);
    InnerStars.InstancesArePlain(parts);
    forall i | 0 <= i < |segments| ensures SLASH !in segments[i] { assert segments[i] in segments; }
    SplitJoin(segments, SLASH);
    InnerStars.JoinedHasNo(segments, BACKSLASH);
    InnerStars.StarredParts(pre, u, v, post);
    SplitJoin(stars, SLASH);
    InnerStars.JoinedHasNo(stars, BACKSLASH);
    NothingToNormalize(Join(stars, SLASH), InnerStars.CrossingPath(pre, u, v, post));
  }

  /** Two stars inside a segment, not before a slash: the expression accepts what the checker accepts for
      this glob, and for the one in which they cross a slash. */
  lemma {:induction false} StarsCross(pre: seq<Text>, u: Text, v: Text, post: seq<Text>, path: seq<Text>)
    requires Around(u, v) && (v == [] ==> post == []) && Surroundings(pre, post) && PlainPath(path)
    ensures Accepts(Translate(Join(Doubled(pre, u, v, post), SLASH)), Join(path, SLASH))
       <==> GlobMatchParts(Doubled(pre, u, v, post), path) || GlobMatchParts(Crossed(pre, u, v, post), path)
  {
    var front, back := InnerStars.Before(pre) + u, v + InnerStars.After(post);
    PlainPathText(path);
    FrontEnds(pre, u);
    assert !StartsWithStar(back) && (back == [] || back[0] != SLASH) by { if v != [] { assert back[0] == v[0]; } }
    TextCrosses(front, back, Join(path, SLASH));
    InnerStars.GlobTexts(pre, u, v, post);
    SingleText(pre, u, v, post);
    CrossedText(pre, u, v, post);
    SingleIsComparable(pre, u, v, post);
    CrossedIsComparable(pre, u, v, post);
    Agreement2(Single(pre, u, v, post), Crossed(pre, u, v, post), path);
    DoubledIsSingle(pre, u, v, post, path);
  }

  /** Two stars at the end of a segment before another: the expression accepts what the checker accepts
      with the two segments run together, and with any number of segments between them. */
  lemma {:induction false} StarsSkip(pre: seq<Text>, u: Text, post: seq<Text>, path: seq<Text>)
    requires Around(u, []) && post != [] && post[0] != DOUBLE_STAR && Surroundings(pre, post) && PlainPath(path)
    ensures Accepts(Translate(Join(Doubled(pre, u, [], post), SLASH)), Join(path, SLASH))
       <==> GlobMatchParts(Joined(pre, u, post), path) || GlobMatchParts(Opened(pre, u, post), path)
  {
    PlainPathText(path);
    FrontEnds(pre, u);
    SkippedTexts(pre, u, post);
    TextSkips(InnerStars.Before(pre) + u, Join(post, SLASH), Join(path, SLASH));
    OpenedIsComparable(pre, u, post);
    Agreement2(Joined(pre, u, post), Opened(pre, u, post), path);
  }

  /** The difference goes one way: whatever stars its segments have, a glob that does not end in the
      segment `**` is accepted by the regular expression wherever the checker accepts it. */
  lemma {:induction false} CheckerIsNarrower(glob: Text, path: Text)
    requires ComparablePath(path) && !EndsInDoubleStar(Split(NormalizeResourcePath(glob), SLASH))
    ensures GlobMatches(NormalizeResourcePath(glob), path) ==> Accepts(Translate(NormalizeResourcePath(glob)), path)
  {
    var normalized := NormalizeResourcePath(glob);
    NothingToNormalize(normalized, path);
    if GlobMatches(normalized, path) {
      NarrowerParts(normalized, path, Split(normalized, SLASH), Split(path, SLASH));
    }
  }

  predicate EndsInDoubleStar(parts: seq<Text>) {
    parts != [] && parts[|parts| - 1] == DOUBLE_STAR
  }

  lemma {:induction false} NarrowerParts(glob: Text, text: Text, parts: seq<Text>, path: seq<Text>)
    requires parts != [] && !EndsInDoubleStar(parts) && PlainPath(path) && GlobMatchParts(parts, path)
    requires forall i | 0 <= i < |parts| :: SLASH !in parts[i]
    requires glob == Join(parts, SLASH) && text == Join(path, SLASH)
    ensures Accepts(Translate(glob), text)
  {
    InnerStars.PathWidens(parts, path);
  }
}
