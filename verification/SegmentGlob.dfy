/** One path segment against one glob segment: the checker's greedy loop, which remembers only the last
    `*` it passed. */
module SegmentGlob {
  import opened CodeUnits
  import opened Options

  // ----- what a pattern means -----

  /** What one pattern unit may stand for. */
  predicate UnitAccepts(u: Unit, piece: Text) {
    u == STAR || (|piece| == 1 && (u == QUESTION || piece[0] == u))
  }

  /** `text` cut into one piece for each pattern unit. */
  ghost predicate Aligned(pattern: Text, text: Text, pieces: seq<Text>) {
    && |pieces| == |pattern|
    && Concat(pieces) == text
    && forall i | 0 <= i < |pattern| :: UnitAccepts(pattern[i], pieces[i])
  }

  /** The same language, by recursion on the pattern. */
  predicate Matches(pattern: Text, text: Text)
    decreases |pattern|, |text|
  {
    if pattern == [] then text == []
    else if pattern[0] == STAR then
      Matches(pattern[1..], text) || (text != [] && Matches(pattern, text[1..]))
    else
      text != [] && (pattern[0] == QUESTION || pattern[0] == text[0]) && Matches(pattern[1..], text[1..])
  }

  lemma {:induction false} MatchHasAlignment(pattern: Text, text: Text) returns (pieces: seq<Text>)
    requires Matches(pattern, text)
    ensures Aligned(pattern, text, pieces)
    decreases |pattern|, |text|
  {
    if pattern == [] {
      pieces := [];
    } else if pattern[0] == STAR && !Matches(pattern[1..], text) {
      var tail := MatchHasAlignment(pattern, text[1..]);
      pieces := [[text[0]] + tail[0]] + tail[1..];
    } else {
      var piece := if pattern[0] == STAR then [] else [text[0]];
      var tail := MatchHasAlignment(pattern[1..], text[|piece|..]);
      pieces := [piece] + tail;
    }
  }

  lemma {:induction false} AlignmentMatches(pattern: Text, text: Text, pieces: seq<Text>)
    requires Aligned(pattern, text, pieces)
    ensures Matches(pattern, text)
    decreases |pattern|, |text|
  {
    if pattern != [] {
      if pattern[0] == STAR && pieces[0] != [] {
        var shorter := [pieces[0][1..]] + pieces[1..];
        assert Concat(shorter) == text[1..];
        AlignmentMatches(pattern, text[1..], shorter);
      } else {
        assert text[|pieces[0]|..] == Concat(pieces[1..]);
        AlignmentMatches(pattern[1..], text[|pieces[0]|..], pieces[1..]);
      }
    }
  }

  /** A text matches exactly when it can be cut into pieces the pattern units stand for. */
  lemma MatchesMeansAligned(pattern: Text, text: Text)
    ensures Matches(pattern, text) <==> exists pieces :: Aligned(pattern, text, pieces)
  {
    if Matches(pattern, text) {
      var pieces := MatchHasAlignment(pattern, text);
    }
    if pieces :| Aligned(pattern, text, pieces) {
      AlignmentMatches(pattern, text, pieces);
    }
  }

  // ----- the loop -----

  ghost predicate Cursor(pattern: Text, text: Text, pi: nat, ti: nat, star: Option<nat>, matchI: nat) {
    pi <= |pattern| && matchI <= ti <= |text| && (star.Some? ==> star.value < pi && pattern[star.value] == STAR)
  }

  /** The loop from an arbitrary state. The literal test comes before the star test, so a `*` in the
      text is consumed as a literal by a `*` in the pattern. */
  function Greedy(pattern: Text, text: Text, pi: nat, ti: nat, star: Option<nat>, matchI: nat): bool
    requires Cursor(pattern, text, pi, ti, star, matchI)
    decreases |text| - matchI, |pattern| - (if star.Some? then star.value + 1 else 0), |text| - ti
  {
    if ti < |text| then
      if pi < |pattern| && (pattern[pi] == QUESTION || pattern[pi] == text[ti]) then
        Greedy(pattern, text, pi + 1, ti + 1, star, matchI)
      else if pi < |pattern| && pattern[pi] == STAR then
        Greedy(pattern, text, pi + 1, ti, Some(pi), ti)
      else if star.Some? then
        Greedy(pattern, text, star.value + 1, matchI + 1, star, matchI + 1)
      else
        false
    else
      forall i | pi <= i < |pattern| :: pattern[i] == STAR
  }

  predicate SegmentMatch(pattern: Text, text: Text) {
    Greedy(pattern, text, 0, 0, None, 0)
  }

  /** `segment_match`. */
  method RunSegmentMatch(pattern: Text, text: Text) returns (matched: bool)
    ensures matched == SegmentMatch(pattern, text)
    ensures matched ==> Matches(pattern, text)
    ensures STAR !in text ==> (matched <==> Matches(pattern, text))
  {
    SegmentMatchDecides(pattern, text);
    var pi: nat, ti: nat := 0, 0;
    var star: Option<nat> := None;
    var matchI: nat := 0;
    while ti < |text|
      invariant Cursor(pattern, text, pi, ti, star, matchI)
      invariant Greedy(pattern, text, pi, ti, star, matchI) == SegmentMatch(pattern, text)
      decreases |text| - matchI, |pattern| - (if star.Some? then star.value + 1 else 0), |text| - ti
    {
      if pi < |pattern| && (pattern[pi] == QUESTION || pattern[pi] == text[ti]) {
        pi := pi + 1;
        ti := ti + 1;
      } else if pi < |pattern| && pattern[pi] == STAR {
        star := Some(pi);
        matchI := ti;
        pi := pi + 1;
      } else if star.Some? {
        pi := star.value + 1;
        matchI := matchI + 1;
        ti := matchI;
      } else {
        return false;
      }
    }
    while pi < |pattern| && pattern[pi] == STAR
      invariant pi <= |pattern|
      invariant (forall i | pi <= i < |pattern| :: pattern[i] == STAR) == SegmentMatch(pattern, text)
    {
      pi := pi + 1;
    }
    return pi == |pattern|;
  }

  // ----- soundness, for every text -----

  lemma {:induction false} StarsMatchEmpty(pattern: Text)
    ensures Matches(pattern, []) <==> forall i | 0 <= i < |pattern| :: pattern[i] == STAR
  {
    if pattern != [] { StarsMatchEmpty(pattern[1..]); }
  }

  lemma {:induction false} GreedyIsSound(pattern: Text, text: Text, pi: nat, ti: nat, star: Option<nat>, matchI: nat)
    requires Cursor(pattern, text, pi, ti, star, matchI)
    requires Greedy(pattern, text, pi, ti, star, matchI)
    ensures Matches(pattern[pi..], text[ti..])
         || (star.Some? && matchI < |text| && Matches(pattern[star.value..], text[matchI + 1..]))
    decreases |text| - matchI, |pattern| - (if star.Some? then star.value + 1 else 0), |text| - ti
  {
    if ti < |text| {
      if pi < |pattern| && (pattern[pi] == QUESTION || pattern[pi] == text[ti]) {
        GreedyIsSound(pattern, text, pi + 1, ti + 1, star, matchI);
        StepLiteral(pattern, text, pi, ti);
      } else if pi < |pattern| && pattern[pi] == STAR {
        GreedyIsSound(pattern, text, pi + 1, ti, Some(pi), ti);
        StepStar(pattern, text, pi, ti);
      } else {
        GreedyIsSound(pattern, text, star.value + 1, matchI + 1, star, matchI + 1);
        StepStar(pattern, text, star.value, matchI + 1);
      }
    } else {
      StarsMatchEmpty(pattern[pi..]);
    }
  }

  /** Consuming equal units never leaves the language, even when both are `*`. */
  lemma StepLiteral(pattern: Text, text: Text, pi: nat, ti: nat)
    requires pi < |pattern| && ti < |text| && (pattern[pi] == QUESTION || pattern[pi] == text[ti])
    ensures Matches(pattern[pi + 1..], text[ti + 1..]) ==> Matches(pattern[pi..], text[ti..])
    ensures pattern[pi] != STAR && Matches(pattern[pi..], text[ti..]) ==> Matches(pattern[pi + 1..], text[ti + 1..])
  {
    assert pattern[pi..][1..] == pattern[pi + 1..] && text[ti..][1..] == text[ti + 1..];
    if pattern[pi] == STAR && Matches(pattern[pi + 1..], text[ti + 1..]) {
      assert Matches(pattern[pi..], text[ti + 1..]);
    }
  }

  lemma StepStar(pattern: Text, text: Text, pi: nat, ti: nat)
    requires pi < |pattern| && ti <= |text| && pattern[pi] == STAR
    ensures Matches(pattern[pi..], text[ti..])
        <==> (Matches(pattern[pi + 1..], text[ti..]) || (ti < |text| && Matches(pattern[pi..], text[ti + 1..])))
  {
    assert pattern[pi..][1..] == pattern[pi + 1..];
    if ti < |text| { assert text[ti..][1..] == text[ti + 1..]; }
  }

  // ----- completeness, for texts without a star: keeping only the last star loses no match -----

  ghost predicate StarFree(pattern: Text, lo: nat, hi: nat) {
    hi <= |pattern| && forall i | lo <= i < hi :: pattern[i] != STAR
  }

  lemma {:induction false} BlockConsumes(pattern: Text, text: Text, lo: nat, hi: nat, k: nat)
    requires lo <= hi && k <= |text| && StarFree(pattern, lo, hi)
    requires Matches(pattern[lo..], text[k..])
    ensures k + (hi - lo) <= |text| && Matches(pattern[hi..], text[k + (hi - lo)..])
    decreases hi - lo
  {
    if lo < hi {
      StepLiteral(pattern, text, lo, k);
      BlockConsumes(pattern, text, lo + 1, hi, k + 1);
    }
  }

  /** A match in which the star at `s` swallows more can be redone with that star swallowing nothing
      more than `text[..k]`, because the next star takes over. */
  lemma {:induction false} NextStarTakesOver(pattern: Text, text: Text, s: nat, e: nat, k: nat)
    requires s < e && k <= |text| && StarFree(pattern, s + 1, e) && pattern[s] == STAR
    requires Matches(pattern[s..], text[k..])
    ensures k + (e - s - 1) <= |text|
    ensures e < |pattern| && pattern[e] == STAR ==> Matches(pattern[e..], text[k + (e - s - 1)..])
    decreases |text| - k
  {
    StepStar(pattern, text, s, k);
    if Matches(pattern[s + 1..], text[k..]) {
      BlockConsumes(pattern, text, s + 1, e, k);
    } else {
      NextStarTakesOver(pattern, text, s, e, k + 1);
      if e < |pattern| && pattern[e] == STAR { StepStar(pattern, text, e, k + (e - s - 1)); }
    }
  }

  lemma {:induction false} GreedyIsComplete(pattern: Text, text: Text, pi: nat, ti: nat, star: Option<nat>, matchI: nat)
    requires STAR !in text && Cursor(pattern, text, pi, ti, star, matchI)
    requires star.Some? ==> StarFree(pattern, star.value + 1, pi) && pi - star.value - 1 == ti - matchI
    requires Matches(pattern[pi..], text[ti..])
          || (star.Some? && matchI < |text| && Matches(pattern[star.value..], text[matchI + 1..]))
    ensures Greedy(pattern, text, pi, ti, star, matchI)
    decreases |text| - matchI, |pattern| - (if star.Some? then star.value + 1 else 0), |text| - ti
  {
    if star.Some? && matchI < |text| && Matches(pattern[star.value..], text[matchI + 1..]) {
      NextStarTakesOver(pattern, text, star.value, pi, matchI + 1);
    }
    if ti < |text| {
      if pi < |pattern| && (pattern[pi] == QUESTION || pattern[pi] == text[ti]) {
        StepLiteral(pattern, text, pi, ti);
        GreedyIsComplete(pattern, text, pi + 1, ti + 1, star, matchI);
      } else if pi < |pattern| && pattern[pi] == STAR {
        StepStar(pattern, text, pi, ti);
        GreedyIsComplete(pattern, text, pi + 1, ti, Some(pi), ti);
      } else {
        StepStar(pattern, text, star.value, matchI + 1);
        GreedyIsComplete(pattern, text, star.value + 1, matchI + 1, star, matchI + 1);
      }
    } else {
      StarsMatchEmpty(pattern[pi..]);
    }
  }

  /** The loop accepts nothing outside the language, and on a text without `*` everything in it. */
  lemma SegmentMatchDecides(pattern: Text, text: Text)
    ensures SegmentMatch(pattern, text) ==> Matches(pattern, text)
    ensures STAR !in text && Matches(pattern, text) ==> SegmentMatch(pattern, text)
  {
    assert pattern[0..] == pattern && text[0..] == text;
    if SegmentMatch(pattern, text) { GreedyIsSound(pattern, text, 0, 0, None, 0); }
    if STAR !in text && Matches(pattern, text) { GreedyIsComplete(pattern, text, 0, 0, None, 0); }
  }

  // ----- the exact condition -----

  function Questions(n: nat): (q: Text)
    ensures |q| == n && forall i | 0 <= i < n :: q[i] == QUESTION
  {
    seq(n, _ => QUESTION)
  }

  /** A pattern that the loop gets wrong on a text holding a `*`. */
  function StarTrap(text: Text): Text
    requires STAR in text
  {
    var i := IndexOf(text, STAR);
    Questions(i) + [STAR] + Questions(|text| - i)
  }

  lemma {:induction false} QuestionsMatch(n: nat, text: Text)
    ensures Matches(Questions(n), text) <==> |text| == n
  {
    if n > 0 && text != [] {
      assert Questions(n)[1..] == Questions(n - 1);
      QuestionsMatch(n - 1, text[1..]);
    }
  }

  lemma {:induction false} QuestionsThen(n: nat, rest: Text, text: Text)
    requires n <= |text| && Matches(rest, text[n..])
    ensures Matches(Questions(n) + rest, text)
  {
    var pattern := Questions(n) + rest;
    if n == 0 {
      assert pattern == rest && text[n..] == text;
    } else {
      assert pattern[1..] == Questions(n - 1) + rest && text[1..][n - 1..] == text[n..];
      QuestionsThen(n - 1, rest, text[1..]);
    }
  }

  lemma {:induction false} QuestionsRun(pattern: Text, text: Text, pi: nat, ti: nat, n: nat)
    requires pi + n <= |pattern| && ti + n <= |text|
    requires forall i | pi <= i < pi + n :: pattern[i] == QUESTION
    ensures Greedy(pattern, text, pi, ti, None, 0) == Greedy(pattern, text, pi + n, ti + n, None, 0)
    decreases n
  {
    if n > 0 { QuestionsRun(pattern, text, pi + 1, ti + 1, n - 1); }
  }

  lemma StarTrapFails(text: Text)
    requires STAR in text
    ensures Matches(StarTrap(text), text) && !SegmentMatch(StarTrap(text), text)
  {
    var i := IndexOf(text, STAR);
    var pattern := StarTrap(text);
    QuestionsMatch(|text| - i, text[i..]);
    assert ([STAR] + Questions(|text| - i))[1..] == Questions(|text| - i);
    QuestionsThen(i, [STAR] + Questions(|text| - i), text);
    assert pattern == Questions(i) + ([STAR] + Questions(|text| - i));
    QuestionsRun(pattern, text, 0, 0, i);
    QuestionsRun(pattern, text, i + 1, i + 1, |text| - i - 1);
    assert pattern[|text|] == QUESTION;
  }

  /** The loop agrees with the language on every pattern exactly for the texts without a `*`. */
  lemma SegmentMatchExactness(text: Text)
    ensures (forall pattern :: SegmentMatch(pattern, text) <==> Matches(pattern, text)) <==> STAR !in text
  {
    if STAR in text {
      StarTrapFails(text);
    } else {
      forall pattern ensures SegmentMatch(pattern, text) <==> Matches(pattern, text) {
        SegmentMatchDecides(pattern, text);
      }
    }
  }
}
