/** The loader's translation of a glob: the source it emits, how that reads, and what it accepts. */
module GlobRegex {
  import opened CodeUnits
  import opened Options

  /** The pieces the translation emits. */
  datatype Atom =
    | Literal(c: Unit)
    | OneInSegment     // [^/]
    | AnyInSegment     // [^/]*
    | Anything         // .*
    | Directories      // (?:.*/)?

  const CARET: Unit := 94
  const DOLLAR: Unit := 36
  const ONE_IN_SEGMENT: Text := Of("[^/]")
  const ANY_IN_SEGMENT: Text := Of("[^/]*")
  const ANYTHING: Text := Of(".*")
  const DIRECTORIES: Text := Of("(?:.*/)?")

  /** The characters `escapeRegExp` puts a backslash before. */
  predicate Escaped(c: Unit) {
    c in Of("|\\{}()[]^$+?.")
  }

  function EscapeRegExp(c: Unit): Text {
    if Escaped(c) then [BACKSLASH, c] else [c]
  }

  function Source(a: Atom): Text {
    match a
    case Literal(c) => EscapeRegExp(c)
    case OneInSegment => ONE_IN_SEGMENT
    case AnyInSegment => ANY_IN_SEGMENT
    case Anything => ANYTHING
    case Directories => DIRECTORIES
  }

  function Sources(atoms: seq<Atom>): Text {
    if atoms == [] then [] else Source(atoms[0]) + Sources(atoms[1..])
  }

  function NormalizeSlashes(path: Text): (r: Text)
    ensures |r| == |path| && BACKSLASH !in r
    ensures BACKSLASH !in path ==> r == path
  {
    seq(|path|, i requires 0 <= i < |path| => if path[i] == BACKSLASH then SLASH else path[i])
  }

  /** `normalizeResourcePath`: forward slashes, and one leading `./` dropped. */
  function NormalizeResourcePath(path: Text): (r: Text)
    ensures BACKSLASH !in r
  {
    var slashed := NormalizeSlashes(path);
    if |slashed| >= 2 && slashed[0] == '.' as int && slashed[1] == SLASH then slashed[2..] else slashed
  }

  /** What each stretch of a normalized glob turns into. */
  function Translate(glob: Text): seq<Atom> {
    if glob == [] then []
    else if glob[0] == STAR && |glob| > 1 && glob[1] == STAR then
      if |glob| > 2 && glob[2] == SLASH then [Directories] + Translate(glob[3..])
      else [Anything] + Translate(glob[2..])
    else
      [if glob[0] == STAR then AnyInSegment
       else if glob[0] == QUESTION then OneInSegment
       else Literal(glob[0])] + Translate(glob[1..])
  }

  /** How many units of a glob the next emitted piece stands for, and that piece's source. */
  function NextPiece(glob: Text): (r: (nat, Text))
    requires glob != []
    ensures 1 <= r.0 <= |glob| && Sources(Translate(glob)) == r.1 + Sources(Translate(glob[r.0..]))
  {
    if glob[0] == STAR && |glob| > 1 && glob[1] == STAR then
      if |glob| > 2 && glob[2] == SLASH then (3, DIRECTORIES) else (2, ANYTHING)
    else if glob[0] == STAR then (1, ANY_IN_SEGMENT)
    else if glob[0] == QUESTION then (1, ONE_IN_SEGMENT)
    else (1, EscapeRegExp(glob[0]))
  }

  lemma {:induction false} PieceMoves(glob: Text, index: nat, before: Text)
    requires index < |glob|
    ensures var next := NextPiece(glob[index..]);
      && index + next.0 <= |glob|
      && before + Sources(Translate(glob[index..])) == (before + next.1) + Sources(Translate(glob[index + next.0..]))
  {
    var next := NextPiece(glob[index..]);
    assert glob[index..][next.0..] == glob[index + next.0..];
    Associates(before, next.1, Sources(Translate(glob[index + next.0..])));
  }

  /** `globToRegExp`, up to the source text handed to `new RegExp`. */
  method GlobToRegExp(glob: Text) returns (pattern: Text)
    ensures pattern == [CARET] + Sources(Translate(NormalizeResourcePath(glob))) + [DOLLAR]
    ensures ReadRegExp(pattern) == Some(Translate(NormalizeResourcePath(glob)))
  {
    var normalized := NormalizeResourcePath(glob);
    pattern := [CARET];
    var index := 0;
    while index < |normalized|
      invariant 0 <= index <= |normalized|
      invariant [CARET] + Sources(Translate(normalized)) == pattern + Sources(Translate(normalized[index..]))
    {
      ghost var before, from, next := pattern, index, NextPiece(normalized[index..]);
      PieceMoves(normalized, index, pattern);
      var unit := normalized[index];
      if unit == STAR && index + 1 < |normalized| && normalized[index + 1] == STAR {
        if index + 2 < |normalized| && normalized[index + 2] == SLASH {
          pattern := pattern + DIRECTORIES;
          index := index + 2;
        } else {
          pattern := pattern + ANYTHING;
          index := index + 1;
        }
      } else if unit == STAR {
        pattern := pattern + ANY_IN_SEGMENT;
      } else if unit == QUESTION {
        pattern := pattern + ONE_IN_SEGMENT;
      } else {
        pattern := pattern + EscapeRegExp(unit);
      }
      index := index + 1;
      assert index == from + next.0 && pattern == before + next.1;
    }
    assert normalized[index..] == [];
    pattern := pattern + [DOLLAR];
    EmittedReads(normalized);
  }

  // ----- reading the source back -----

  /** The syntax characters of ECMAScript regular expressions, which stand for themselves only after
      a backslash. */
  predicate SyntaxCharacter(c: Unit) {
    c in Of("^$\\.*+?()[]{}|")
  }

  /** Reads a pattern body made of the fragment's operators and literal characters. */
  function ReadAtoms(source: Text): Option<seq<Atom>> {
    if source == [] then Some([])
    else if DIRECTORIES <= source then Cons(Directories, ReadAtoms(source[8..]))
    else if ANYTHING <= source then Cons(Anything, ReadAtoms(source[2..]))
    else if ANY_IN_SEGMENT <= source then Cons(AnyInSegment, ReadAtoms(source[5..]))
    else if ONE_IN_SEGMENT <= source then Cons(OneInSegment, ReadAtoms(source[4..]))
    else if source[0] == BACKSLASH && |source| > 1 && SyntaxCharacter(source[1]) then
      Cons(Literal(source[1]), ReadAtoms(source[2..]))
    else if !SyntaxCharacter(source[0]) then Cons(Literal(source[0]), ReadAtoms(source[1..]))
    else None
  }

  function Cons(a: Atom, rest: Option<seq<Atom>>): Option<seq<Atom>> {
    if rest.Some? then Some([a] + rest.value) else None
  }

  function ReadRegExp(pattern: Text): Option<seq<Atom>> {
    if |pattern| >= 2 && pattern[0] == CARET && pattern[|pattern| - 1] == DOLLAR
    then ReadAtoms(pattern[1..|pattern| - 1])
    else None
  }

  ghost predicate NoStarLiteral(atoms: seq<Atom>) {
    forall i | 0 <= i < |atoms| :: atoms[i] != Literal(STAR)
  }

  lemma {:induction false} TranslateHasNoStarLiteral(glob: Text)
    ensures NoStarLiteral(Translate(glob))
  {
    if glob != [] {
      if glob[0] == STAR && |glob| > 1 && glob[1] == STAR {
        TranslateHasNoStarLiteral(glob[if |glob| > 2 && glob[2] == SLASH then 3 else 2..]);
      } else {
        TranslateHasNoStarLiteral(glob[1..]);
      }
    }
  }

  /** Every other syntax character is escaped, so no emitted source starts like a quantifier. */
  lemma {:induction false} SourceStart(atoms: seq<Atom>)
    requires NoStarLiteral(atoms) && atoms != []
    ensures Sources(atoms) != [] && Sources(atoms)[0] != STAR
  {
  }

  /** Escaping is enough: the emitted source reads back as exactly the emitted pieces. */
  lemma {:induction false} SourceReadsBack(atoms: seq<Atom>)
    ensures NoStarLiteral(atoms) ==> ReadAtoms(Sources(atoms)) == Some(atoms)
  {
    if NoStarLiteral(atoms) && atoms != [] {
      var first := Source(atoms[0]);
      var rest := Sources(atoms[1..]);
      var source := first + rest;
      assert NoStarLiteral(atoms[1..]);
      SourceReadsBack(atoms[1..]);
      if atoms[1..] != [] { SourceStart(atoms[1..]); }
      assert source[|first|..] == rest;
      ReadsFirst(atoms[0], rest);
      assert [atoms[0]] + atoms[1..] == atoms;
    }
  }

  lemma EmittedReads(normalized: Text)
    ensures ReadRegExp([CARET] + Sources(Translate(normalized)) + [DOLLAR]) == Some(Translate(normalized))
  {
    TranslateHasNoStarLiteral(normalized);
    SourceReadsBack(Translate(normalized));
    var pattern := [CARET] + Sources(Translate(normalized)) + [DOLLAR];
    assert pattern[1..|pattern| - 1] == Sources(Translate(normalized));
  }

  lemma ReadsFirst(a: Atom, rest: Text)
    requires a != Literal(STAR) && (rest != [] ==> rest[0] != STAR)
    ensures ReadAtoms(Source(a) + rest) == Cons(a, ReadAtoms(rest))
  {
    var source := Source(a) + rest;
    assert source[|Source(a)|..] == rest;
    match a
    case Literal(c) =>
      assert SyntaxCharacter(c) <==> Escaped(c) by { SyntaxIsEscaped(c); }
      assert source[0] == if Escaped(c) then BACKSLASH else c;
      LiteralIsNoOperator(source, c);
    case OneInSegment =>
      assert |source| >= 5 ==> source[4] == rest[0];
      assert !(ANY_IN_SEGMENT <= source);
      assert source[0] == ONE_IN_SEGMENT[0] == '[' as int;
      assert !(DIRECTORIES <= source) && !(ANYTHING <= source);
    case AnyInSegment =>
      assert source[0] == ANY_IN_SEGMENT[0] == '[' as int;
      assert !(DIRECTORIES <= source) && !(ANYTHING <= source);
    case Anything =>
      assert source[0] == ANYTHING[0] == '.' as int;
      assert !(DIRECTORIES <= source);
    case Directories =>
  }

  lemma SyntaxIsEscaped(c: Unit)
    requires c != STAR
    ensures SyntaxCharacter(c) <==> Escaped(c)
  {
    var s, e := Of("^$\\.*+?()[]{}|"), Of("|\\{}()[]^$+?.");
    assert s == [94, 36, 92, 46, 42, 43, 63, 40, 41, 91, 93, 123, 125, 124];
    assert e == [124, 92, 123, 125, 40, 41, 91, 93, 94, 36, 43, 63, 46];
  }

  lemma LiteralIsNoOperator(source: Text, c: Unit)
    requires c != STAR && source != [] && source[0] == (if Escaped(c) then BACKSLASH else c)
    ensures !(DIRECTORIES <= source) && !(ANYTHING <= source)
    ensures !(ANY_IN_SEGMENT <= source) && !(ONE_IN_SEGMENT <= source)
    ensures !Escaped(c) ==> source[0] != BACKSLASH
  {
    assert Escaped('(' as int) && Escaped('[' as int) && Escaped('.' as int) && Escaped(BACKSLASH) by {
      var e := Of("|\\{}()[]^$+?.");
      assert e[4] == '(' as int && e[6] == '[' as int && e[12] == '.' as int && e[1] == BACKSLASH;
    }
    assert DIRECTORIES[0] == '(' as int && ANYTHING[0] == '.' as int;
    assert ANY_IN_SEGMENT[0] == '[' as int && ONE_IN_SEGMENT[0] == '[' as int;
  }

  // ----- the paths an expression accepts -----

  /** What `.` refuses. */
  predicate LineTerminator(c: Unit) {
    c == NEWLINE || c == CARRIAGE || c == 0x2028 || c == 0x2029
  }

  /** Anchored at both ends. */
  predicate Accepts(atoms: seq<Atom>, path: Text)
    decreases |atoms|, |path|, 1
  {
    if atoms == [] then path == []
    else match atoms[0]
      case Literal(c) => path != [] && path[0] == c && Accepts(atoms[1..], path[1..])
      case OneInSegment => path != [] && path[0] != SLASH && Accepts(atoms[1..], path[1..])
      case AnyInSegment =>
        Accepts(atoms[1..], path) || (path != [] && path[0] != SLASH && Accepts(atoms, path[1..]))
      case Anything =>
        Accepts(atoms[1..], path) || (path != [] && !LineTerminator(path[0]) && Accepts(atoms, path[1..]))
      case Directories =>
        Accepts(atoms[1..], path) || AcceptsAfterSlash(atoms[1..], path)
  }

  /** `.*` and a slash, then `atoms`. */
  predicate AcceptsAfterSlash(atoms: seq<Atom>, path: Text)
    decreases |atoms|, |path|, 2
  {
    && path != []
    && (|| (path[0] == SLASH && Accepts(atoms, path[1..]))
        || (!LineTerminator(path[0]) && AcceptsAfterSlash(atoms, path[1..])))
  }
}
