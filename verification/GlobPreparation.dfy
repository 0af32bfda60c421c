/** What each side does to a glob of the manifest before it matches: the loader normalizes it twice, once
    when it reads the manifest and once when it translates; the checker trims it and strips every `./`. */
module GlobPreparation {
  import opened CodeUnits
  import opened GlobRegex

  const PERIOD: Unit := '.' as int

  /** `char::is_whitespace`. */
  predicate Blank(u: Unit) {
    || 9 <= u <= 13 || u == 32 || u == 0x85 || u == 0xA0 || u == 0x1680 || 0x2000 <= u <= 0x200A
    || u == 0x2028 || u == 0x2029 || u == 0x202F || u == 0x205F || u == 0x3000
  }

  function TrimStart(t: Text): (r: Text)
    ensures |r| <= |t| && r == t[|t| - |r|..]
    ensures r != [] ==> !Blank(r[0])
    ensures |r| == |t| <==> t == [] || !Blank(t[0])
  {
    if t != [] && Blank(t[0]) then TrimStart(t[1..]) else t
  }

  function TrimEnd(t: Text): (r: Text)
    ensures r <= t
    ensures r != [] ==> !Blank(r[|r| - 1])
    ensures |r| == |t| <==> t == [] || !Blank(t[|t| - 1])
  {
    if t != [] && Blank(t[|t| - 1]) then TrimEnd(t[..|t| - 1]) else t
  }

  /** `pattern.trim()`. */
  function Trim(t: Text): Text {
    TrimEnd(TrimStart(t))
  }

  predicate StartsHere(t: Text) {
    |t| >= 2 && t[0] == PERIOD && t[1] == SLASH
  }

  /** How many times `./` stands at the start. */
  function Dots(t: Text): (n: nat)
    ensures 2 * n <= |t|
  {
    if StartsHere(t) then 1 + Dots(t[2..]) else 0
  }

  /** `trim_start_matches("./")`. */
  function StripDots(t: Text): Text {
    t[2 * Dots(t)..]
  }

  /** The start of `match_paths`. */
  function CheckerGlob(glob: Text): (r: Text)
    ensures BACKSLASH !in r
  {
    NormalizeSlashes(StripDots(Trim(glob)))
  }

  /** The loader's two normalizations. */
  function LoaderGlob(glob: Text): (r: Text)
    ensures BACKSLASH !in r
  {
    NormalizeResourcePath(NormalizeResourcePath(glob))
  }

  function AtMostTwo(n: nat): nat {
    if n <= 2 then n else 2
  }

  lemma {:induction false} LoaderStrips(glob: Text)
    ensures LoaderGlob(glob) == NormalizeSlashes(glob)[2 * AtMostTwo(Dots(NormalizeSlashes(glob)))..]
  {
    var slashed := NormalizeSlashes(glob);
    var once := NormalizeResourcePath(glob);
    if StartsHere(slashed) {
      assert once == slashed[2..];
      if StartsHere(once) { assert once[2..] == slashed[4..]; }
    }
  }

  lemma {:induction false} DotsOfSlashed(glob: Text)
    ensures Dots(glob) <= Dots(NormalizeSlashes(glob))
  {
    if StartsHere(glob) {
      assert NormalizeSlashes(glob)[2..] == NormalizeSlashes(glob[2..]);
      DotsOfSlashed(glob[2..]);
    }
  }

  predicate Trimmed(glob: Text) {
    glob == [] || (!Blank(glob[0]) && !Blank(glob[|glob| - 1]))
  }

  /** The two sides prepare a glob alike: it has no white space around it, and as many leading `./`,
      written with a slash, as the loader strips, counting backslashes too and stopping at two. */
  predicate PreparedAlike(glob: Text) {
    Trimmed(glob) && Dots(glob) == AtMostTwo(Dots(NormalizeSlashes(glob)))
  }

  lemma {:induction false} StripOfSlashed(glob: Text)
    ensures NormalizeSlashes(StripDots(glob)) == NormalizeSlashes(glob)[2 * Dots(glob)..]
  {
  }

  lemma {:induction false} CheckerStrips(glob: Text)
    requires Trimmed(glob)
    ensures CheckerGlob(glob) == NormalizeSlashes(glob)[2 * Dots(glob)..]
  {
    assert Trim(glob) == glob;
    StripOfSlashed(glob);
  }

  lemma {:induction false} LeadingBlankDiffers(glob: Text)
    requires glob != [] && Blank(glob[0])
    ensures |CheckerGlob(glob)| < |LoaderGlob(glob)|
  {
    LoaderStrips(glob);
    assert NormalizeSlashes(glob)[0] != PERIOD;
    assert Dots(NormalizeSlashes(glob)) == 0;
  }

  predicate EndsWithBlank(t: Text) {
    t != [] && Blank(t[|t| - 1])
  }

  lemma {:induction false} SuffixEnd(t: Text, i: nat)
    requires i <= |t|
    ensures i < |t| ==> (EndsWithBlank(t[i..]) <==> EndsWithBlank(t))
    ensures EndsWithBlank(t[i..]) ==> EndsWithBlank(t)
  {
  }

  lemma {:induction false} SlashedEnd(t: Text)
    ensures EndsWithBlank(NormalizeSlashes(t)) <==> EndsWithBlank(t)
  {
  }

  lemma {:induction false} CheckerEndsWithNoBlank(glob: Text)
    ensures !EndsWithBlank(CheckerGlob(glob))
  {
    var trimmed := Trim(glob);
    SuffixEnd(trimmed, 2 * Dots(trimmed));
    SlashedEnd(StripDots(trimmed));
  }

  lemma {:induction false} DotsLeaveBlank(t: Text)
    requires EndsWithBlank(t)
    ensures 2 * Dots(t) < |t|
  {
    if StartsHere(t) {
      SuffixEnd(t, 2);
      DotsLeaveBlank(t[2..]);
    }
  }

  lemma {:induction false} LoaderKeepsBlank(glob: Text)
    requires EndsWithBlank(glob)
    ensures EndsWithBlank(LoaderGlob(glob))
  {
    var slashed := NormalizeSlashes(glob);
    LoaderStrips(glob);
    SlashedEnd(glob);
    DotsLeaveBlank(slashed);
    SuffixEnd(slashed, 2 * AtMostTwo(Dots(slashed)));
  }

  /** White space around a glob always shows. */
  lemma {:induction false} UntrimmedDiffers(glob: Text)
    requires !Trimmed(glob)
    ensures CheckerGlob(glob) != LoaderGlob(glob)
  {
    if Blank(glob[0]) {
      LeadingBlankDiffers(glob);
    } else {
      CheckerEndsWithNoBlank(glob);
      LoaderKeepsBlank(glob);
    }
  }

  lemma CutsDiffer(t: Text, i: nat, j: nat)
    requires i <= |t| && j <= |t|
    ensures t[i..] == t[j..] <==> i == j
  {
    assert |t[i..]| == |t| - i && |t[j..]| == |t| - j;
  }
}
