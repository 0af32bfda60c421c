/** Two stars inside a segment: the regular expression lets them cross slashes, the segment matcher does
    not. Whatever the rest of the glob, this is a difference, and the path that shows it puts the slash
    under the two stars and the shortest text everywhere else: the checker then has one segment too few. */
module InnerStars {
  import opened CodeUnits
  import opened SegmentGlob
  import opened GlobRegex
  import opened PathGlob

  const LETTER: Unit := 'x' as int

  // ----- a path for a glob -----

  /** A segment's shortest text: nothing for a star, a letter for a question mark. */
  function Fill(segment: Text): (t: Text)
    ensures STAR !in t
    ensures forall u | u in t :: u == LETTER || u in segment
  {
    if segment == [] then []
    else (if segment[0] == STAR then [] else if segment[0] == QUESTION then [LETTER] else [segment[0]]) + Fill(segment[1..])
  }

  function Instance(segment: Text): (t: Text)
    ensures t != [] && STAR !in t
    ensures forall u | u in t :: u == LETTER || u in segment
  {
    if Fill(segment) == [] then [LETTER] else Fill(segment)
  }

  /** One segment for each part but `**`. */
  function Instances(parts: seq<Text>): seq<Text> {
    if parts == [] then []
    else (if parts[0] == DOUBLE_STAR then [] else [Instance(parts[0])]) + Instances(parts[1..])
  }

  lemma {:induction false} FillMatches(segment: Text)
    ensures Matches(segment, Fill(segment))
  {
    if segment != [] {
      FillMatches(segment[1..]);
      if segment[0] == STAR {
        assert Fill(segment) == Fill(segment[1..]);
      } else {
        assert Fill(segment)[1..] == Fill(segment[1..]);
      }
    }
  }

  lemma {:induction false} OnlyStarsMatch(segment: Text, text: Text)
    requires segment != [] && Fill(segment) == []
    ensures Matches(segment, text)
  {
    assert segment[0] == STAR;
    if segment[1..] == [] {
      StarMatchesAll(text);
      assert segment == [STAR];
    } else {
      OnlyStarsMatch(segment[1..], text);
    }
  }

  lemma {:induction false} InstanceMatches(segment: Text)
    requires segment != []
    ensures SegmentMatch(segment, Instance(segment))
  {
    if Fill(segment) == [] { OnlyStarsMatch(segment, [LETTER]); } else { FillMatches(segment); }
    SegmentMatchDecides(segment, Instance(segment));
  }

  lemma {:induction false} MatchesAreLong(segment: Text, text: Text)
    requires Matches(segment, text)
    ensures |text| >= |Fill(segment)|
    decreases |segment|, |text|
  {
    if segment != [] {
      if segment[0] == STAR {
        if Matches(segment[1..], text) { MatchesAreLong(segment[1..], text); } else { MatchesAreLong(segment, text[1..]); }
      } else {
        MatchesAreLong(segment[1..], text[1..]);
      }
    }
  }

  lemma {:induction false} FillConcat(a: Text, b: Text)
    ensures Fill(a + b) == Fill(a) + Fill(b)
  {
    if a == [] {
      assert a + b == b;
    } else {
      assert (a + b)[1..] == a[1..] + b;
      FillConcat(a[1..], b);
    }
  }

  /** A segment too short for a part. */
  lemma TooShort(part: Text, text: Text)
    requires |text| < |Fill(part)|
    ensures !SegmentMatch(part, text)
  {
    SegmentMatchDecides(part, text);
    if Matches(part, text) { MatchesAreLong(part, text); }
  }

  // ----- the segment matcher on a path with one segment too many -----

  lemma {:induction false} InstancesMatch(parts: seq<Text>)
    requires forall p | p in parts :: p != []
    ensures GlobMatchParts(parts, Instances(parts))
  {
    if parts != [] {
      assert forall p | p in parts[1..] :: p in parts;
      InstancesMatch(parts[1..]);
      if parts[0] == DOUBLE_STAR {
        assert Instances(parts) == Instances(parts[1..]);
      } else {
        assert parts[0] in parts;
        InstanceMatches(parts[0]);
        assert Instances(parts)[1..] == Instances(parts[1..]);
      }
    }
  }

  lemma {:induction false} TooFewSegments(parts: seq<Text>, path: seq<Text>)
    requires |path| < |Instances(parts)|
    ensures !GlobMatchParts(parts, path)
    decreases |parts|, |path|
  {
    if parts[0] == DOUBLE_STAR {
      TooFewSegments(parts[1..], path);
      if path != [] { TooFewSegments(parts, path[1..]); }
    } else if path != [] {
      TooFewSegments(parts[1..], path[1..]);
    }
  }

  lemma {:induction false} InstancesConcat(a: seq<Text>, b: seq<Text>)
    ensures Instances(a + b) == Instances(a) + Instances(b)
  {
    if a == [] {
      assert a + b == b;
    } else {
      assert (a + b)[1..] == a[1..] + b;
      InstancesConcat(a[1..], b);
    }
  }

  lemma TailOfParts(pre: seq<Text>, part: Text, post: seq<Text>)
    ensures pre == [] ==> (pre + [part] + post)[0] == part
    ensures pre != [] ==>
      (pre + [part] + post)[0] == pre[0] && (pre + [part] + post)[1..] == pre[1..] + [part] + post
  {
  }

  /** Without a segment to spare the part meets its own segment. */
  lemma {:induction false} NoneSpare(pre: seq<Text>, part: Text, post: seq<Text>, path: seq<Text>)
    requires part != DOUBLE_STAR && |path| == |Instances(pre)| + 1 + |Instances(post)|
    requires !SegmentMatch(part, path[|Instances(pre)|])
    ensures !GlobMatchParts(pre + [part] + post, path)
    decreases |pre|
  {
    TailOfParts(pre, part, post);
    if pre != [] {
      if pre[0] == DOUBLE_STAR {
        NoneSpare(pre[1..], part, post, path);
        CountParts(pre, part, post);
        TooFewSegments(pre + [part] + post, path[1..]);
      } else {
        NoneSpare(pre[1..], part, post, path[1..]);
      }
    }
  }

  lemma CountParts(pre: seq<Text>, part: Text, post: seq<Text>)
    requires part != DOUBLE_STAR
    ensures |Instances(pre + [part] + post)| == |Instances(pre)| + 1 + |Instances(post)|
  {
    InstancesConcat(pre + [part], post);
    InstancesConcat(pre, [part]);
    assert [part][1..] == [];
  }

  /** With one to spare it meets its own or the next. */
  lemma {:induction false} OneSpare(pre: seq<Text>, part: Text, post: seq<Text>, path: seq<Text>)
    requires part != DOUBLE_STAR && |path| == |Instances(pre)| + 2 + |Instances(post)|
    requires !SegmentMatch(part, path[|Instances(pre)|]) && !SegmentMatch(part, path[|Instances(pre)| + 1])
    ensures !GlobMatchParts(pre + [part] + post, path)
    decreases |pre|
  {
    TailOfParts(pre, part, post);
    if pre != [] {
      if pre[0] == DOUBLE_STAR {
        OneSpare(pre[1..], part, post, path);
        NoneSpare(pre, part, post, path[1..]);
      } else {
        OneSpare(pre[1..], part, post, path[1..]);
      }
    }
  }

  // ----- the regular expression -----

  function PieceLength(glob: Text): (n: nat)
    requires glob != []
    ensures 1 <= n <= |glob|
  {
    if glob[0] == STAR && |glob| > 1 && glob[1] == STAR then (if |glob| > 2 && glob[2] == SLASH then 3 else 2) else 1
  }

  function FirstAtom(glob: Text): Atom
    requires glob != []
  {
    if PieceLength(glob) == 3 then Directories
    else if PieceLength(glob) == 2 then Anything
    else if glob[0] == STAR then AnyInSegment
    else if glob[0] == QUESTION then OneInSegment
    else Literal(glob[0])
  }

  lemma {:induction false} FirstPiece(glob: Text)
    requires glob != []
    ensures Translate(glob) == [FirstAtom(glob)] + Translate(glob[PieceLength(glob)..])
  {
  }

  lemma PieceOfConcat(a: Text, b: Text)
    requires a != [] && a[|a| - 1] != STAR
    ensures PieceLength(a + b) == PieceLength(a) && FirstAtom(a + b) == FirstAtom(a)
    ensures (a + b)[PieceLength(a)..] == a[PieceLength(a)..] + b
    ensures a[PieceLength(a)..] == [] || a[PieceLength(a)..][|a| - PieceLength(a) - 1] != STAR
  {
    assert (a + b)[0] == a[0];
    assert |a| > 1 ==> (a + b)[1] == a[1];
    assert |a| > 2 ==> (a + b)[2] == a[2];
  }

  lemma {:induction false} TranslateConcat(a: Text, b: Text)
    requires a != [] ==> a[|a| - 1] != STAR
    ensures Translate(a + b) == Translate(a) + Translate(b)
    decreases |a|
  {
    if a == [] {
      assert a + b == b && Translate(a) == [];
    } else {
      var rest := a[PieceLength(a)..];
      PieceOfConcat(a, b);
      TranslateConcat(rest, b);
      FirstPiece(a);
      FirstPiece(a + b);
      assert [FirstAtom(a)] + (Translate(rest) + Translate(b)) == ([FirstAtom(a)] + Translate(rest)) + Translate(b);
    }
  }

  /** What accepts more as a tail accepts more as a whole. */
  lemma {:induction false} WiderTail(front: seq<Atom>, x: seq<Atom>, y: seq<Atom>, path: Text)
    requires forall t :: Accepts(x, t) ==> Accepts(y, t)
    ensures Accepts(front + x, path) ==> Accepts(front + y, path)
    decreases |front|, |path|, 1
  {
    if front == [] {
      assert front + x == x && front + y == y;
    } else if Accepts(front + x, path) {
      assert (front + x)[1..] == front[1..] + x && (front + y)[1..] == front[1..] + y;
      if front[0].Literal? || front[0].OneInSegment? {
        WiderTail(front[1..], x, y, path[1..]);
      } else {
        WiderTail(front[1..], x, y, path);
        if front[0].Directories? {
          WiderAfterSlash(front[1..], x, y, path);
        } else if path != [] {
          WiderTail(front, x, y, path[1..]);
        }
      }
    }
  }

  lemma {:induction false} WiderAfterSlash(front: seq<Atom>, x: seq<Atom>, y: seq<Atom>, path: Text)
    requires forall t :: Accepts(x, t) ==> Accepts(y, t)
    ensures AcceptsAfterSlash(front + x, path) ==> AcceptsAfterSlash(front + y, path)
    decreases |front|, |path|, 2
  {
    if path != [] {
      WiderTail(front, x, y, path[1..]);
      WiderAfterSlash(front, x, y, path[1..]);
    }
  }

  lemma {:induction false} AnythingIsWider(back: seq<Atom>, text: Text)
    requires Accepts([Literal(SLASH)] + back, text)
    ensures Accepts([Anything] + back, text)
  {
    assert ([Literal(SLASH)] + back)[1..] == back && ([Anything] + back)[1..] == back;
    assert Accepts(back, text[1..]);
    assert Accepts([Anything] + back, text[1..]);
  }

  /** Two stars for a slash: `front` ends in no star, `back` starts with no slash. */
  lemma {:induction false} StarsForSlash(front: Text, back: Text, path: Text)
    requires front != [] && front[|front| - 1] != STAR && back != [] && back[0] != SLASH
    requires Accepts(Translate(front + ([SLASH] + back)), path)
    ensures Accepts(Translate(front + (DOUBLE_STAR + back)), path)
  {
    var f, b := Translate(front), Translate(back);
    TranslateConcat(front, [SLASH] + back);
    TranslateSlash(back);
    TranslateConcat(front, DOUBLE_STAR + back);
    FirstPiece(DOUBLE_STAR + back);
    assert (DOUBLE_STAR + back)[2..] == back;
    forall t | Accepts([Literal(SLASH)] + b, t) ensures Accepts([Anything] + b, t) { AnythingIsWider(b, t); }
    WiderTail(f, [Literal(SLASH)] + b, [Anything] + b, path);
  }

  // ----- the two globs as texts -----

  lemma {:induction false} JoinAround(pre: seq<Text>, middle: Text, post: seq<Text>)
    ensures Join(pre + [middle] + post, SLASH) == Before(pre) + (middle + After(post))
  {
    if pre == [] {
      assert pre + [middle] + post == [middle] + post;
      assert ([middle] + post)[1..] == post;
    } else {
      assert (pre + [middle] + post)[1..] == pre[1..] + [middle] + post;
      JoinAround(pre[1..], middle, post);
      assert (pre + [middle] + post)[0] == pre[0];
      Associates(pre[0] + [SLASH], Before(pre[1..]), middle + After(post));
    }
  }

  function Before(pre: seq<Text>): Text {
    if pre == [] then [] else pre[0] + [SLASH] + Before(pre[1..])
  }

  function After(post: seq<Text>): Text {
    if post == [] then [] else [SLASH] + Join(post, SLASH)
  }

  /** The part with the stars, and the two parts that a slash makes of it. */
  lemma GlobTexts(pre: seq<Text>, u: Text, v: Text, post: seq<Text>)
    ensures Join(pre + [u + DOUBLE_STAR + v] + post, SLASH) == (Before(pre) + u) + (DOUBLE_STAR + (v + After(post)))
    ensures Join(pre + [u, v] + post, SLASH) == (Before(pre) + u) + ([SLASH] + (v + After(post)))
  {
    JoinAround(pre, u + DOUBLE_STAR + v, post);
    JoinAround(pre, u, [v] + post);
    assert pre + [u, v] + post == pre + [u] + ([v] + post);
    assert ([v] + post)[1..] == post;
    assert After([v] + post) == [SLASH] + (v + After(post));
    Associates(Before(pre), u, [SLASH] + (v + After(post)));
    Associates(Before(pre), u, DOUBLE_STAR + (v + After(post)));
    Associates(u + DOUBLE_STAR, v, After(post));
    Associates(u, DOUBLE_STAR, v + After(post));
  }

  // ----- the difference -----

  /** Segments without a line terminator or a backslash. */
  predicate Fillable(parts: seq<Text>) {
    forall p | p in parts :: p != [] && BACKSLASH !in p && forall u | u in p :: !LineTerminator(u)
  }

  lemma InstanceIsPlain(part: Text)
    requires part != [] && BACKSLASH !in part && SLASH !in part && forall u | u in part :: !LineTerminator(u)
    ensures PlainSegment(Instance(part)) && BACKSLASH !in Instance(part)
  {
    var s := Instance(part);
    forall i | 0 <= i < |s| ensures !LineTerminator(s[i]) { assert s[i] in s; }
  }

  lemma {:induction false} InstancesArePlain(parts: seq<Text>)
    requires Fillable(parts) && PlainPattern(parts)
    ensures forall s | s in Instances(parts) :: PlainSegment(s) && BACKSLASH !in s
  {
    if parts != [] {
      assert parts[0] in parts && forall p | p in parts[1..] :: p in parts;
      InstancesArePlain(parts[1..]);
      InstanceIsPlain(parts[0]);
      assert Instances(parts) == (if parts[0] == DOUBLE_STAR then [] else [Instance(parts[0])]) + Instances(parts[1..]);
    }
  }

  lemma {:induction false} JoinedHasNo(parts: seq<Text>, u: Unit)
    requires u != SLASH && forall p | p in parts :: u !in p
    ensures u !in Join(parts, SLASH)
  {
    if parts != [] {
      assert parts[0] in parts;
      JoinedHasNo(parts[1..], u);
    }
  }

  /** The part before and after the two stars, each with something other than stars in it. */
  predicate Sides(u: Text, v: Text) {
    && u != [] && u[|u| - 1] != STAR && Fill(v) != []
    && NoAdjacentStars(u) && NoAdjacentStars(v) && SLASH !in u && SLASH !in v
  }

  /** The path that tells the matchers apart. */
  function CrossingPath(pre: seq<Text>, u: Text, v: Text, post: seq<Text>): Text {
    Join(Instances(pre + [u, v] + post), SLASH)
  }

  lemma TwoInstances(u: Text, v: Text)
    requires u != DOUBLE_STAR && v != DOUBLE_STAR
    ensures Instances([u, v]) == [Instance(u), Instance(v)]
  {
    assert [u, v][1..] == [v] && [v][1..] == [];
    assert Instances([v]) == [Instance(v)] + Instances([]);
    assert Instances([u, v]) == [Instance(u)] + Instances([v]);
  }

  lemma CrossingSegments(pre: seq<Text>, u: Text, v: Text, post: seq<Text>)
    requires u != DOUBLE_STAR && v != DOUBLE_STAR
    ensures Instances(pre + [u, v] + post) == Instances(pre) + [Instance(u), Instance(v)] + Instances(post)
  {
    InstancesConcat(pre + [u, v], post);
    InstancesConcat(pre, [u, v]);
    TwoInstances(u, v);
  }

  lemma {:induction false} EndFills(u: Text)
    requires u != [] && u[|u| - 1] != STAR
    ensures Fill(u) != []
  {
    if |u| > 1 { EndFills(u[1..]); }
  }

  lemma {:induction false} FillOfSides(u: Text, v: Text)
    ensures |Fill(u + DOUBLE_STAR + v)| >= |Fill(u)| + |Fill(v)|
  {
    FillConcat(u + DOUBLE_STAR, v);
    FillConcat(u, DOUBLE_STAR);
  }

  lemma {:induction false} FillsOfSides(u: Text, v: Text)
    requires Sides(u, v)
    ensures u != DOUBLE_STAR && v != DOUBLE_STAR && u + DOUBLE_STAR + v != DOUBLE_STAR
    ensures |Instance(u)| < |Fill(u + DOUBLE_STAR + v)| && |Instance(v)| < |Fill(u + DOUBLE_STAR + v)|
  {
    EndFills(u);
    FillOfSides(u, v);
    assert |DOUBLE_STAR| == 2 && DOUBLE_STAR[0] == STAR && DOUBLE_STAR[1] == STAR;
  }

  lemma {:induction false} CheckerRejects(pre: seq<Text>, u: Text, v: Text, post: seq<Text>)
    requires Sides(u, v)
    ensures !GlobMatchParts(pre + [u + DOUBLE_STAR + v] + post, Instances(pre + [u, v] + post))
  {
    var part := u + DOUBLE_STAR + v;
    FillsOfSides(u, v);
    CrossingSegments(pre, u, v, post);
    TooShort(part, Instance(u));
    TooShort(part, Instance(v));
    OneSpare(pre, part, post, Instances(pre + [u, v] + post));
  }

  lemma {:induction false} AcceptsInstances(parts: seq<Text>)
    requires Fillable(parts) && ComparablePattern(parts) && Instances(parts) != []
    ensures PlainPath(Instances(parts))
    ensures Accepts(Translate(Join(parts, SLASH)), Join(Instances(parts), SLASH))
  {
    InstancesArePlain(parts);
    forall i | 0 <= i < |Instances(parts)| ensures PlainSegment(Instances(parts)[i]) {
      assert Instances(parts)[i] in Instances(parts);
    }
    InstancesMatch(parts);
    AgreementPlain(Join(parts, SLASH), Join(Instances(parts), SLASH), parts, Instances(parts));
  }

  lemma BackStarts(v: Text, post: seq<Text>)
    requires v != [] && SLASH !in v
    ensures v + After(post) != [] && (v + After(post))[0] != SLASH
  {
    assert (v + After(post))[0] == v[0];
  }

  lemma FrontEnds(pre: seq<Text>, u: Text)
    requires u != [] && u[|u| - 1] != STAR
    ensures var front := Before(pre) + u; front != [] && front[|front| - 1] != STAR
  {
  }

  lemma {:induction false} LoaderAccepts(pre: seq<Text>, u: Text, v: Text, post: seq<Text>)
    requires Sides(u, v) && Fillable(pre + [u, v] + post) && ComparablePattern(pre + [u, v] + post)
    ensures PlainPath(Instances(pre + [u, v] + post))
    ensures Accepts(Translate(Join(pre + [u + DOUBLE_STAR + v] + post, SLASH)), CrossingPath(pre, u, v, post))
  {
    FillsOfSides(u, v);
    CrossingSegments(pre, u, v, post);
    AcceptsInstances(pre + [u, v] + post);
    GlobTexts(pre, u, v, post);
    FrontEnds(pre, u);
    BackStarts(v, post);
    StarsForSlash(Before(pre) + u, v + After(post), CrossingPath(pre, u, v, post));
  }

  lemma StarredParts(pre: seq<Text>, u: Text, v: Text, post: seq<Text>)
    requires Fillable(pre + [u, v] + post) && PlainPattern(pre + [u, v] + post)
    ensures var stars := pre + [u + DOUBLE_STAR + v] + post;
      && (forall p | p in stars :: BACKSLASH !in p)
      && forall i | 0 <= i < |stars| :: SLASH !in stars[i]
  {
    var parts, stars := pre + [u, v] + post, pre + [u + DOUBLE_STAR + v] + post;
    assert forall p | p in pre || p in post || p == u || p == v :: p in parts;
    forall p | p in parts ensures SLASH !in p { var i :| 0 <= i < |parts| && parts[i] == p; }
    assert SLASH !in DOUBLE_STAR && BACKSLASH !in DOUBLE_STAR;
    forall p | p in stars ensures BACKSLASH !in p && SLASH !in p {
      if p !in pre && p !in post { assert p == u + DOUBLE_STAR + v; }
    }
    forall i | 0 <= i < |stars| ensures SLASH !in stars[i] { assert stars[i] in stars; }
  }

  // ----- the other way round -----

  lemma WidensByOne(glob: Text, path: Text)
    requires glob != [] && PieceLength(glob) == 1 && path != [] && path[0] != SLASH
    requires glob[0] == STAR ==> Accepts(Translate(glob), path[1..])
    requires glob[0] != STAR ==> (glob[0] == QUESTION || glob[0] == path[0]) && Accepts(Translate(glob[1..]), path[1..])
    ensures Accepts(Translate(glob), path)
  {
    FirstPiece(glob);
    assert Translate(glob)[1..] == Translate(glob[1..]);
  }

  lemma SkipsStars(glob: Text, path: Text)
    requires glob != [] && glob[0] == STAR && PieceLength(glob) < 3 && Accepts(Translate(glob[PieceLength(glob)..]), path)
    ensures Accepts(Translate(glob), path)
  {
    FirstPiece(glob);
    assert Translate(glob)[1..] == Translate(glob[PieceLength(glob)..]);
  }

  lemma AbsorbsOne(glob: Text, path: Text)
    requires |glob| > 1 && DOUBLE_STAR <= glob && PieceLength(glob) == 2
    requires path != [] && !LineTerminator(path[0]) && Accepts(Translate(glob), path[1..])
    ensures Accepts(Translate(glob), path)
  {
    FirstPiece(glob);
  }

  /** `**` at the end of a segment, before a slash. */
  lemma StarsBeforeSlash(tail: Text, x: Text, rest: Text)
    requires tail != [] && tail[0] == SLASH && SLASH !in x && forall i | 0 <= i < |x| :: !LineTerminator(x[i])
    requires Accepts(Translate(tail), rest)
    ensures Accepts(Translate(DOUBLE_STAR + tail), x + rest)
  {
    var glob := DOUBLE_STAR + tail;
    assert tail == [SLASH] + tail[1..] && glob == DOUBLE_STAR + [SLASH] + tail[1..];
    TranslateSlash(tail[1..]);
    TranslateDoubleStar(tail[1..]);
    var atoms := Translate(tail[1..]);
    assert ([Literal(SLASH)] + atoms)[1..] == atoms && ([Directories] + atoms)[1..] == atoms;
    AfterSlashSkips(atoms, x, rest);
  }

  /** A segment is in the expression's part for it, whatever stars it has: two of them only accept more. */
  lemma {:induction false} SegmentWidens(part: Text, tail: Text, x: Text, rest: Text)
    requires SLASH !in part && SLASH !in x && forall i | 0 <= i < |x| :: !LineTerminator(x[i])
    requires tail != [] ==> tail[0] == SLASH
    requires Matches(part, x) && Accepts(Translate(tail), rest)
    ensures Accepts(Translate(part + tail), x + rest)
    decreases |part|, |x|
  {
    var glob := part + tail;
    if part == [] {
      assert glob == tail && x + rest == rest;
    } else if part[0] != STAR {
      assert glob[1..] == part[1..] + tail && (x + rest)[1..] == x[1..] + rest;
      SegmentWidens(part[1..], tail, x[1..], rest);
      WidensByOne(glob, x + rest);
    } else if |part| == 1 || part[1] != STAR {
      assert glob[1..] == part[1..] + tail;
      assert PieceLength(glob) == 1;
      if Matches(part[1..], x) {
        SegmentWidens(part[1..], tail, x, rest);
        SkipsStars(glob, x + rest);
      } else {
        assert (x + rest)[1..] == x[1..] + rest;
        SegmentWidens(part, tail, x[1..], rest);
        WidensByOne(glob, x + rest);
      }
    } else if |part| == 2 && tail != [] {
      assert part == DOUBLE_STAR;
      StarsBeforeSlash(tail, x, rest);
    } else {
      TwoStarsWiden(part, tail, x, rest);
    }
  }

  lemma {:induction false} TwoStarsWiden(part: Text, tail: Text, x: Text, rest: Text)
    requires SLASH !in part && SLASH !in x && forall i | 0 <= i < |x| :: !LineTerminator(x[i])
    requires tail != [] ==> tail[0] == SLASH
    requires Matches(part, x) && Accepts(Translate(tail), rest)
    requires |part| >= 2 && part[0] == STAR && part[1] == STAR && (|part| == 2 ==> tail == [])
    ensures Accepts(Translate(part + tail), x + rest)
    decreases |part|, |x|, 0
  {
    var glob := part + tail;
    assert glob[2..] == part[2..] + tail && DOUBLE_STAR <= glob;
    assert PieceLength(glob) == 2 by { if |part| > 2 { assert glob[2] == part[2] && part[2] in part; } }
    assert part[1..][1..] == part[2..];
    if Matches(part[2..], x) {
      SegmentWidens(part[2..], tail, x, rest);
      SkipsStars(glob, x + rest);
    } else {
      assert x != [] && Matches(part, x[1..]);
      assert (x + rest)[1..] == x[1..] + rest;
      TwoStarsWiden(part, tail, x[1..], rest);
      AbsorbsOne(glob, x + rest);
    }
  }

  /** What the segment matcher accepts, the expression does, whatever stars the segments have, unless the
      last one is `**`. */
  lemma {:induction false} PathWidens(parts: seq<Text>, path: seq<Text>)
    requires parts != [] && parts[|parts| - 1] != DOUBLE_STAR && PlainPath(path)
    requires forall i | 0 <= i < |parts| :: SLASH !in parts[i]
    requires GlobMatchParts(parts, path)
    ensures Accepts(Translate(Join(parts, SLASH)), Join(path, SLASH))
    decreases |parts|, |path|
  {
    if |parts| == 1 {
      SegmentMatchDecides(parts[0], path[0]);
      assert parts[1..] == [] && path[1..] == [] && path == [path[0]] && parts == [parts[0]];
      SegmentWidens(parts[0], [], path[0], []);
      assert parts[0] + [] == parts[0] && path[0] + [] == path[0];
    } else {
      var rest := Join(parts[1..], SLASH);
      JoinFirst(parts);
      if parts[0] == DOUBLE_STAR {
        DoubleStarStep(rest, path);
        if GlobMatchParts(parts[1..], path) {
          PathWidens(parts[1..], path);
        } else {
          if |path| == 1 { assert path[1..] == []; NeverEmpty(parts); }
          PathWidens(parts, path[1..]);
        }
      } else {
        if |path| == 1 { assert path[1..] == []; NeverEmpty(parts[1..]); }
        SegmentMatchDecides(parts[0], path[0]);
        PathWidens(parts[1..], path[1..]);
        OneSegmentOn(parts[0], rest, path);
      }
    }
  }

  lemma OneSegmentOn(part: Text, rest: Text, path: seq<Text>)
    requires SLASH !in part && |path| > 1 && PlainPath(path) && Matches(part, path[0])
    requires Accepts(Translate(rest), Join(path[1..], SLASH))
    ensures Accepts(Translate(part + ([SLASH] + rest)), Join(path, SLASH))
  {
    var after := AfterFirst(path);
    TranslateSlash(rest);
    assert ([Literal(SLASH)] + Translate(rest))[1..] == Translate(rest);
    SegmentWidens(part, [SLASH] + rest, path[0], after);
  }
}
