/** Exactly what two adjacent stars inside a segment add to the regular expression: they stay within the
    segment, as a single star would, or cross into a later one, as the parts `*`, `**` and `*` would. Where
    they end a segment that is not the last, the expression makes the slash after them optional as well. */
module CrossingStars {
  import opened CodeUnits
  import opened SegmentGlob
  import opened GlobRegex
  import opened PathGlob
  import InnerStars

  predicate NoLines(path: Text) {
    forall i | 0 <= i < |path| :: !LineTerminator(path[i])
  }

  // ----- the expression -----

  const CROSSING: seq<Atom> := [AnyInSegment, Literal(SLASH), Directories]

  lemma AnyStep(atoms: seq<Atom>, path: Text)
    ensures Accepts([AnyInSegment] + atoms, path)
       <==> Accepts(atoms, path) || (path != [] && path[0] != SLASH && Accepts([AnyInSegment] + atoms, path[1..]))
    ensures Accepts([Anything] + atoms, path)
       <==> Accepts(atoms, path) || (path != [] && !LineTerminator(path[0]) && Accepts([Anything] + atoms, path[1..]))
    ensures Accepts([Directories] + atoms, path) <==> Accepts(atoms, path) || AcceptsAfterSlash(atoms, path)
  {
    assert ([AnyInSegment] + atoms)[1..] == atoms;
    assert ([Anything] + atoms)[1..] == atoms;
    assert ([Directories] + atoms)[1..] == atoms;
  }

  lemma CrossingStep(atoms: seq<Atom>, path: Text)
    ensures Accepts(CROSSING + atoms, path)
       <==> path != [] && (if path[0] == SLASH then Accepts([Directories] + atoms, path[1..])
                           else Accepts(CROSSING + atoms, path[1..]))
  {
    var rest := [Literal(SLASH)] + ([Directories] + atoms);
    assert CROSSING + atoms == [AnyInSegment] + rest && rest[1..] == [Directories] + atoms;
    AnyStep(rest, path);
  }

  /** `.*` is an optional `.*` and slash, and then `[^/]*`. */
  lemma {:induction false} AnythingByDirectories(atoms: seq<Atom>, path: Text)
    requires NoLines(path)
    ensures Accepts([Anything] + atoms, path) <==> Accepts([Directories] + ([AnyInSegment] + atoms), path)
  {
    AnyStep(atoms, path);
    AnyStep([AnyInSegment] + atoms, path);
    if path != [] {
      AnythingByDirectories(atoms, path[1..]);
      AnyStep(atoms, path[1..]);
      AnyStep([AnyInSegment] + atoms, path[1..]);
    }
  }

  lemma {:induction false} AnythingSplits(atoms: seq<Atom>, path: Text)
    requires NoLines(path)
    ensures Accepts([Anything] + atoms, path)
       <==> Accepts([AnyInSegment] + atoms, path) || Accepts(CROSSING + ([AnyInSegment] + atoms), path)
  {
    AnyStep(atoms, path);
    CrossingStep([AnyInSegment] + atoms, path);
    if path != [] {
      AnythingSplits(atoms, path[1..]);
      AnythingByDirectories(atoms, path[1..]);
    }
  }

  lemma {:induction false} AfterSlashCrosses(atoms: seq<Atom>, path: Text)
    requires NoLines(path)
    ensures AcceptsAfterSlash(atoms, path) <==> Accepts(CROSSING + atoms, path)
  {
    CrossingStep(atoms, path);
    if path != [] {
      AfterSlashCrosses(atoms, path[1..]);
      AnyStep(atoms, path[1..]);
    }
  }

  lemma DirectoriesSplit(atoms: seq<Atom>, path: Text)
    requires NoLines(path)
    ensures Accepts([Directories] + atoms, path) <==> Accepts(atoms, path) || Accepts(CROSSING + atoms, path)
  {
    AnyStep(atoms, path);
    AfterSlashCrosses(atoms, path);
  }

  ghost predicate Splits(x: seq<Atom>, y: seq<Atom>, z: seq<Atom>) {
    forall t | NoLines(t) :: Accepts(x, t) <==> Accepts(y, t) || Accepts(z, t)
  }

  /** What splits a tail splits the whole. */
  lemma {:induction false} SplitsBehind(front: seq<Atom>, x: seq<Atom>, y: seq<Atom>, z: seq<Atom>, path: Text)
    requires Splits(x, y, z) && NoLines(path)
    ensures Accepts(front + x, path) <==> Accepts(front + y, path) || Accepts(front + z, path)
    decreases |front|, |path|, 1
  {
    if front == [] {
      assert front + x == x && front + y == y && front + z == z;
    } else {
      var tail := front[1..];
      assert (front + x)[1..] == tail + x && (front + y)[1..] == tail + y && (front + z)[1..] == tail + z;
      SplitsBehind(tail, x, y, z, path);
      if path != [] { SplitsBehind(tail, x, y, z, path[1..]); }
      if front[0].Directories? {
        SplitsAfterSlash(tail, x, y, z, path);
      } else if path != [] && !front[0].Literal? && !front[0].OneInSegment? {
        SplitsBehind(front, x, y, z, path[1..]);
      }
    }
  }

  lemma {:induction false} SplitsAfterSlash(front: seq<Atom>, x: seq<Atom>, y: seq<Atom>, z: seq<Atom>, path: Text)
    requires Splits(x, y, z) && NoLines(path)
    ensures AcceptsAfterSlash(front + x, path)
       <==> AcceptsAfterSlash(front + y, path) || AcceptsAfterSlash(front + z, path)
    decreases |front|, |path|, 2
  {
    if path != [] {
      SplitsBehind(front, x, y, z, path[1..]);
      SplitsAfterSlash(front, x, y, z, path[1..]);
    }
  }

  // ----- the texts -----

  predicate EndsInStar(t: Text) { t != [] && t[|t| - 1] == STAR }

  predicate StartsWithStar(t: Text) { t != [] && t[0] == STAR }

  lemma OneStar(back: Text)
    requires !StartsWithStar(back)
    ensures Translate([STAR] + back) == [AnyInSegment] + Translate(back)
  {
    assert ([STAR] + back)[1..] == back;
  }

  lemma TwoStars(back: Text)
    requires back == [] || back[0] != SLASH
    ensures Translate(DOUBLE_STAR + back) == [Anything] + Translate(back)
  {
    assert (DOUBLE_STAR + back)[2..] == back;
  }

  lemma CrossingText(rest: Text)
    ensures Translate([STAR] + ([SLASH] + (DOUBLE_STAR + [SLASH] + rest))) == CROSSING + Translate(rest)
  {
    OneStar([SLASH] + (DOUBLE_STAR + [SLASH] + rest));
    TranslateSlash(DOUBLE_STAR + [SLASH] + rest);
    TranslateDoubleStar(rest);
  }

  /** Two stars with no slash after them. */
  lemma {:induction false} TextCrosses(front: Text, back: Text, path: Text)
    requires !EndsInStar(front) && !StartsWithStar(back) && (back == [] || back[0] != SLASH) && NoLines(path)
    ensures Accepts(Translate(front + (DOUBLE_STAR + back)), path)
       <==> (|| Accepts(Translate(front + ([STAR] + back)), path)
             || Accepts(Translate(front + ([STAR] + ([SLASH] + (DOUBLE_STAR + [SLASH] + ([STAR] + back))))), path))
  {
    var b := Translate(back);
    InnerStars.TranslateConcat(front, DOUBLE_STAR + back);
    InnerStars.TranslateConcat(front, [STAR] + back);
    InnerStars.TranslateConcat(front, [STAR] + ([SLASH] + (DOUBLE_STAR + [SLASH] + ([STAR] + back))));
    TwoStars(back);
    OneStar(back);
    CrossingText([STAR] + back);
    forall t | NoLines(t)
      ensures Accepts([Anything] + b, t) <==> Accepts([AnyInSegment] + b, t) || Accepts(CROSSING + ([AnyInSegment] + b), t)
    {
      AnythingSplits(b, t);
    }
    SplitsBehind(Translate(front), [Anything] + b, [AnyInSegment] + b, CROSSING + ([AnyInSegment] + b), path);
  }

  /** Two stars before a slash. */
  lemma {:induction false} TextSkips(front: Text, rest: Text, path: Text)
    requires !EndsInStar(front) && NoLines(path)
    ensures Accepts(Translate(front + (DOUBLE_STAR + [SLASH] + rest)), path)
       <==> (|| Accepts(Translate(front + rest), path)
             || Accepts(Translate(front + ([STAR] + ([SLASH] + (DOUBLE_STAR + [SLASH] + rest)))), path))
  {
    var b := Translate(rest);
    InnerStars.TranslateConcat(front, DOUBLE_STAR + [SLASH] + rest);
    InnerStars.TranslateConcat(front, rest);
    InnerStars.TranslateConcat(front, [STAR] + ([SLASH] + (DOUBLE_STAR + [SLASH] + rest)));
    TranslateDoubleStar(rest);
    CrossingText(rest);
    forall t | NoLines(t) ensures Accepts([Directories] + b, t) <==> Accepts(b, t) || Accepts(CROSSING + b, t) {
      DirectoriesSplit(b, t);
    }
    SplitsBehind(Translate(front), [Directories] + b, b, CROSSING + b, path);
  }

  // ----- the parts -----

  /** What stands before and after the two stars in their segment. */
  predicate Around(u: Text, v: Text) {
    && !EndsInStar(u) && !StartsWithStar(v) && u + v != []
    && NoAdjacentStars(u) && NoAdjacentStars(v) && SLASH !in u && SLASH !in v
  }

  /** The glob with the two stars, with one star for them, and crossing a slash. */
  function Doubled(pre: seq<Text>, u: Text, v: Text, post: seq<Text>): seq<Text> {
    pre + [u + DOUBLE_STAR + v] + post
  }

  function Single(pre: seq<Text>, u: Text, v: Text, post: seq<Text>): seq<Text> {
    pre + [u + [STAR] + v] + post
  }

  function Crossed(pre: seq<Text>, u: Text, v: Text, post: seq<Text>): seq<Text> {
    pre + [u + [STAR], DOUBLE_STAR, [STAR] + v] + post
  }

  lemma SingleText(pre: seq<Text>, u: Text, v: Text, post: seq<Text>)
    ensures Join(Single(pre, u, v, post), SLASH)
         == (InnerStars.Before(pre) + u) + ([STAR] + (v + InnerStars.After(post)))
  {
    InnerStars.JoinAround(pre, u + [STAR] + v, post);
    var b, after := InnerStars.Before(pre), InnerStars.After(post);
    Associates(u + [STAR], v, after);
    Associates(u, [STAR], v + after);
    Associates(b, u, [STAR] + (v + after));
  }

  lemma CrossedText(pre: seq<Text>, u: Text, v: Text, post: seq<Text>)
    ensures Join(Crossed(pre, u, v, post), SLASH)
         == (InnerStars.Before(pre) + u)
            + ([STAR] + ([SLASH] + (DOUBLE_STAR + [SLASH] + ([STAR] + (v + InnerStars.After(post))))))
  {
    var tail := [DOUBLE_STAR, [STAR] + v] + post;
    assert Crossed(pre, u, v, post) == pre + [u + [STAR]] + tail;
    InnerStars.JoinAround(pre, u + [STAR], tail);
    TailText(v, post);
    ThreeTexts(InnerStars.Before(pre), u, InnerStars.After(tail));
  }

  lemma ThreeTexts(before: Text, u: Text, tail: Text)
    ensures before + ((u + [STAR]) + tail) == (before + u) + ([STAR] + tail)
  {
  }

  lemma TailText(v: Text, post: seq<Text>)
    ensures InnerStars.After([DOUBLE_STAR, [STAR] + v] + post)
         == [SLASH] + (DOUBLE_STAR + [SLASH] + ([STAR] + (v + InnerStars.After(post))))
  {
    var last := [[STAR] + v] + post;
    var tail := [DOUBLE_STAR, [STAR] + v] + post;
    assert tail[1..] == last;
    JoinFirst(tail);
    TextOfLast([STAR] + v, post);
    Associates([STAR], v, InnerStars.After(post));
  }

  lemma TextOfLast(part: Text, post: seq<Text>)
    ensures Join([part] + post, SLASH) == part + InnerStars.After(post)
  {
    assert ([part] + post)[1..] == post;
  }

  lemma {:induction false} SingleStarEnough(u: Text, v: Text, text: Text)
    ensures Matches(u + DOUBLE_STAR + v, text) <==> Matches(u + [STAR] + v, text)
    decreases |u|, |text|
  {
    var a, b := u + DOUBLE_STAR + v, u + [STAR] + v;
    if u == [] {
      assert a[1..] == b;
      if text != [] { SingleStarEnough(u, v, text[1..]); }
    } else {
      assert a[1..] == u[1..] + DOUBLE_STAR + v && b[1..] == u[1..] + [STAR] + v;
      SingleStarEnough(u[1..], v, text);
      if text != [] {
        SingleStarEnough(u[1..], v, text[1..]);
        if u[0] == STAR { SingleStarEnough(u, v, text[1..]); }
      }
    }
  }

  /** To the checker two stars in a segment are one. */
  lemma {:induction false} OnePartAlike(pre: seq<Text>, a: Text, b: Text, post: seq<Text>, path: seq<Text>)
    requires a != DOUBLE_STAR && b != DOUBLE_STAR
    requires forall i | 0 <= i < |path| :: SegmentMatch(a, path[i]) == SegmentMatch(b, path[i])
    ensures GlobMatchParts(pre + [a] + post, path) == GlobMatchParts(pre + [b] + post, path)
    decreases |pre|, |path|
  {
    var x, y := pre + [a] + post, pre + [b] + post;
    if pre == [] {
      assert x[1..] == post && y[1..] == post;
    } else {
      assert x[1..] == pre[1..] + [a] + post && y[1..] == pre[1..] + [b] + post;
      assert x[0] == pre[0] == y[0];
      OnePartAlike(pre[1..], a, b, post, path);
      if path != [] {
        OnePartAlike(pre[1..], a, b, post, path[1..]);
        OnePartAlike(pre, a, b, post, path[1..]);
      }
    }
  }

  lemma SingleIsPart(u: Text, v: Text)
    requires Around(u, v)
    ensures u + DOUBLE_STAR + v != DOUBLE_STAR && u + [STAR] + v != DOUBLE_STAR
    ensures NoAdjacentStars(u + [STAR] + v) && SLASH !in u + [STAR] + v
  {
    var b := u + [STAR] + v;
    assert |u + DOUBLE_STAR + v| > 2;
    if u != [] { assert b[|u| - 1] == u[|u| - 1]; } else { assert b[1] == v[0]; }
  }

  lemma DoubledIsSingle(pre: seq<Text>, u: Text, v: Text, post: seq<Text>, path: seq<Text>)
    requires Around(u, v) && PlainPath(path)
    ensures GlobMatchParts(Doubled(pre, u, v, post), path) <==> GlobMatchParts(Single(pre, u, v, post), path)
  {
    var a, b := u + DOUBLE_STAR + v, u + [STAR] + v;
    SingleIsPart(u, v);
    forall i | 0 <= i < |path| ensures SegmentMatch(a, path[i]) == SegmentMatch(b, path[i]) {
      assert PlainSegment(path[i]);
      SingleStarEnough(u, v, path[i]);
      SegmentMatchDecides(a, path[i]);
      SegmentMatchDecides(b, path[i]);
    }
    OnePartAlike(pre, a, b, post, path);
  }

  /** The parts before and after. */
  predicate Surroundings(pre: seq<Text>, post: seq<Text>) {
    PlainPattern(pre) && PlainPattern(post) && (post != [] ==> post[|post| - 1] != DOUBLE_STAR)
  }

  lemma SingleIsComparable(pre: seq<Text>, u: Text, v: Text, post: seq<Text>)
    requires Around(u, v) && Surroundings(pre, post)
    ensures ComparablePattern(Single(pre, u, v, post))
  {
    SingleIsPart(u, v);
  }

  lemma CrossedIsComparable(pre: seq<Text>, u: Text, v: Text, post: seq<Text>)
    requires Around(u, v) && Surroundings(pre, post)
    ensures ComparablePattern(Crossed(pre, u, v, post))
  {
    assert NoAdjacentStars(u + [STAR]) && NoAdjacentStars([STAR] + v);
    assert SLASH !in u + [STAR] && SLASH !in [STAR] + v && SLASH !in DOUBLE_STAR;
    assert v != [] ==> ([STAR] + v)[1] == v[0];
    assert [STAR] + v != DOUBLE_STAR;
  }

  lemma {:induction false} Agreement2(a: seq<Text>, b: seq<Text>, path: seq<Text>)
    requires ComparablePattern(a) && ComparablePattern(b) && PlainPath(path)
    ensures Accepts(Translate(Join(a, SLASH)), Join(path, SLASH)) <==> GlobMatchParts(a, path)
    ensures Accepts(Translate(Join(b, SLASH)), Join(path, SLASH)) <==> GlobMatchParts(b, path)
  {
    Agreement(a, path);
    Agreement(b, path);
  }

  lemma {:induction false} FrontEnds(pre: seq<Text>, u: Text)
    requires !EndsInStar(u)
    ensures !EndsInStar(InnerStars.Before(pre) + u)
  {
    if pre != [] {
      FrontEnds(pre[1..], u);
      var rest := InnerStars.Before(pre[1..]) + u;
      assert InnerStars.Before(pre) + u == (pre[0] + [SLASH]) + rest;
      if rest == [] { assert InnerStars.Before(pre) + u == pre[0] + [SLASH]; }
    }
  }

  // ----- before a slash -----

  function Joined(pre: seq<Text>, u: Text, post: seq<Text>): seq<Text>
    requires post != []
  {
    pre + [u + post[0]] + post[1..]
  }

  function Opened(pre: seq<Text>, u: Text, post: seq<Text>): seq<Text> {
    pre + [u + [STAR], DOUBLE_STAR] + post
  }

  lemma SkippedTexts(pre: seq<Text>, u: Text, post: seq<Text>)
    requires post != []
    ensures var front, rest := InnerStars.Before(pre) + u, Join(post, SLASH);
      && Join(Doubled(pre, u, [], post), SLASH) == front + (DOUBLE_STAR + [SLASH] + rest)
      && Join(Joined(pre, u, post), SLASH) == front + rest
      && Join(Opened(pre, u, post), SLASH) == front + ([STAR] + ([SLASH] + (DOUBLE_STAR + [SLASH] + rest)))
  {
    var before, rest := InnerStars.Before(pre), Join(post, SLASH);
    InnerStars.GlobTexts(pre, u, [], post);
    assert [] + InnerStars.After(post) == [SLASH] + rest;
    Associates(DOUBLE_STAR, [SLASH], rest);
    InnerStars.JoinAround(pre, u + post[0], post[1..]);
    TextOfLast(post[0], post[1..]);
    assert [post[0]] + post[1..] == post;
    Associates(u, post[0], InnerStars.After(post[1..]));
    Associates(before, u, rest);
    var tail := [DOUBLE_STAR] + post;
    assert Opened(pre, u, post) == pre + [u + [STAR]] + tail;
    InnerStars.JoinAround(pre, u + [STAR], tail);
    assert tail[1..] == post;
    JoinFirst(tail);
    Associates(u, [STAR], InnerStars.After(tail));
    Associates(before, u, [STAR] + InnerStars.After(tail));
  }

  lemma OpenedIsComparable(pre: seq<Text>, u: Text, post: seq<Text>)
    requires Around(u, []) && Surroundings(pre, post) && post != [] && post[0] != DOUBLE_STAR
    ensures ComparablePattern(Opened(pre, u, post)) && ComparablePattern(Joined(pre, u, post))
  {
    var a := u + post[0];
    assert NoAdjacentStars(a) && SLASH !in a;
    assert u + [] == u && a[|u| - 1] == u[|u| - 1];
    assert NoAdjacentStars(u + [STAR]) && SLASH !in u + [STAR] && SLASH !in DOUBLE_STAR;
  }
}
