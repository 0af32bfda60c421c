/** The texts of durable memory: characters and their escapes, the byte budget, lines, and the rendering
    in the system prompt, with what a reader makes of each. An escape never splits a character, so a cut
    between characters is a cut between escapes, and what was cut off can be told from the text alone. */
module MemoryText {
  import opened CodeUnits
  import opened Unicode
  import opened Options

  const AMP: Unit := 38
  const LESS: Unit := 60
  const GREATER: Unit := 62

  const MAX_INDEX_LINES: nat := 200
  const MAX_INDEX_BYTES: nat := 25_000

  // ----- characters -----

  /** What iterating over a string yields: surrogate pairs together, every other unit alone. */
  function Characters(text: Text): (r: seq<Text>)
    ensures forall c | c in r :: c != []
    ensures Concat(r) == text
  {
    if text == [] then []
    else
      var n := if High(text[0]) && |text| > 1 && Low(text[1]) then 2 else 1;
      assert text[..n] + text[n..] == text;
      [text[..n]] + Characters(text[n..])
  }

  function EscapeUnit(u: Unit): (t: Text)
    ensures t != [] && LESS !in t && GREATER !in t
    ensures t == [u] || forall i | 0 <= i < |t| :: t[i] < 0x80
  {
    if u == AMP then Of("&amp;")
    else if u == LESS then Of("&lt;")
    else if u == GREATER then Of("&gt;")
    else if u == '"' as int then Of("&quot;")
    else if u == '\'' as int then Of("&apos;")
    else [u]
  }

  /** `escapeXmlCharacter`: no pair is a character it changes. */
  function EscapeCharacter(c: Text): (t: Text)
    ensures c != [] ==> t != []
  {
    if |c| == 1 then EscapeUnit(c[0]) else c
  }

  function EscapeAll(characters: seq<Text>): Text {
    if characters == [] then [] else EscapeCharacter(characters[0]) + EscapeAll(characters[1..])
  }

  /** `escapeXml`. */
  function EscapeXml(text: Text): Text {
    EscapeAll(Characters(text))
  }

  // ----- reading back -----

  /** The entity that opens a text: the unit it stands for and how long it is. */
  function Entity(text: Text): (r: Option<(Unit, nat)>)
    ensures r.Some? ==> 0 < r.value.1 <= |text|
  {
    if Of("&amp;") <= text then Some((AMP, 5))
    else if Of("&lt;") <= text then Some((LESS, 4))
    else if Of("&gt;") <= text then Some((GREATER, 4))
    else if Of("&quot;") <= text then Some(('"' as int, 6))
    else if Of("&apos;") <= text then Some(('\'' as int, 6))
    else None
  }

  /** An XML reader of character data: the five entities, and no other use of `&` or `<`. */
  function Unescape(text: Text): (r: Option<Text>)
    decreases |text|
  {
    if text == [] then Some([])
    else if text[0] == AMP then
      var e := Entity(text);
      if e.None? then None else Put([e.value.0], Unescape(text[e.value.1..]))
    else if text[0] == LESS then None
    else Put([text[0]], Unescape(text[1..]))
  }

  function Put(t: Text, r: Option<Text>): Option<Text> {
    if r.Some? then Some(t + r.value) else None
  }

  lemma UnitReadsBack(u: Unit, rest: Text)
    ensures Unescape(EscapeUnit(u) + rest) == Put([u], Unescape(rest))
  {
    var escaped := EscapeUnit(u);
    var text := escaped + rest;
    assert text[|escaped|..] == rest;
    if escaped != [u] {
      assert text[..|escaped|] == escaped;
      assert text[0] == escaped[0] && text[1] == escaped[1] && text[2] == escaped[2];
    }
  }

  lemma PutPut(a: Text, b: Text, r: Option<Text>)
    ensures Put(a, Put(b, r)) == Put(a + b, r)
  {
    if r.Some? { assert a + (b + r.value) == (a + b) + r.value; }
  }

  predicate Whole(c: Text) {
    |c| == 1 || (|c| == 2 && High(c[0]) && Low(c[1]))
  }

  lemma CharacterReadsBack(c: Text, rest: Text)
    requires Whole(c)
    ensures Unescape(EscapeCharacter(c) + rest) == Put(c, Unescape(rest))
  {
    if |c| == 1 {
      assert c == [c[0]];
      UnitReadsBack(c[0], rest);
    } else {
      var text := c + rest;
      assert text[1..] == [c[1]] + rest && text[1..][1..] == rest;
      PutPut([c[0]], [c[1]], Unescape(rest));
      assert [c[0]] + [c[1]] == c;
    }
  }

  lemma {:induction false} CharactersAreWhole(text: Text)
    ensures forall c | c in Characters(text) :: Whole(c)
    ensures forall i | 0 <= i < |Characters(text)| - 1 :: !SplitsPair(Characters(text)[i], Characters(text)[i + 1])
  {
    if text != [] {
      var n := if High(text[0]) && |text| > 1 && Low(text[1]) then 2 else 1;
      var first, rest := text[..n], Characters(text[n..]);
      CharactersAreWhole(text[n..]);
      assert Characters(text) == [first] + rest;
      if rest != [] { assert rest[0][0] == text[n]; }
    }
  }

  lemma {:induction false} AllReadBack(characters: seq<Text>, rest: Text)
    requires forall c | c in characters :: Whole(c)
    ensures Unescape(EscapeAll(characters) + rest) == Put(Concat(characters), Unescape(rest))
  {
    if characters == [] {
      assert [] + rest == rest;
      if Unescape(rest).Some? { assert [] + Unescape(rest).value == Unescape(rest).value; }
    } else {
      var c, more := characters[0], characters[1..];
      var tail := EscapeAll(more) + rest;
      assert EscapeAll(characters) + rest == EscapeCharacter(c) + tail;
      assert c in characters;
      CharacterReadsBack(c, tail);
      AllReadBack(more, rest);
      PutPut(c, Concat(more), Unescape(rest));
    }
  }

  /** Whatever the text, a reader gets it back from its escape. */
  lemma EscapeReadsBack(text: Text)
    ensures Unescape(EscapeXml(text)) == Some(text)
  {
    CharactersAreWhole(text);
    AllReadBack(Characters(text), []);
    assert EscapeXml(text) + [] == EscapeXml(text) && text + [] == text;
  }

  lemma {:induction false} EscapedHasNoTags(characters: seq<Text>)
    requires forall c | c in characters :: Whole(c)
    ensures LESS !in EscapeAll(characters) && GREATER !in EscapeAll(characters)
  {
    if characters != [] {
      EscapedHasNoTags(characters[1..]);
      assert Whole(characters[0]);
    }
  }

  lemma UnitHasNoQuotes(u: Unit)
    ensures '"' as int !in EscapeUnit(u) && '\'' as int !in EscapeUnit(u)
  {
  }

  lemma {:induction false} EscapedHasNoQuotes(characters: seq<Text>)
    requires forall c | c in characters :: Whole(c)
    ensures '"' as int !in EscapeAll(characters) && '\'' as int !in EscapeAll(characters)
  {
    if characters != [] {
      EscapedHasNoQuotes(characters[1..]);
      assert Whole(characters[0]);
      if |characters[0]| == 1 { UnitHasNoQuotes(characters[0][0]); }
    }
  }

  // ----- the byte budget -----

  lemma {:induction false} EscapeAppend(characters: seq<Text>, c: Text)
    ensures EscapeAll(characters + [c]) == EscapeAll(characters) + EscapeCharacter(c)
  {
    if characters == [] {
      assert [c][1..] == [];
    } else {
      assert (characters + [c])[1..] == characters[1..] + [c];
      EscapeAppend(characters[1..], c);
    }
  }

  lemma EscapeKeepsEnds(c: Text)
    requires Whole(c)
    ensures var e := EscapeCharacter(c);
      e != [] && (Low(e[0]) ==> Low(c[0])) && (High(e[|e| - 1]) ==> High(c[|c| - 1]))
  {
    var e := EscapeCharacter(c);
    if e != c { assert e == EscapeUnit(c[0]) && e[0] < 0x80 && e[|e| - 1] < 0x80; }
  }

  predicate Separate(characters: seq<Text>) {
    && (forall c | c in characters :: Whole(c))
    && forall i | 0 <= i < |characters| - 1 :: !SplitsPair(characters[i], characters[i + 1])
  }

  /** Escapes of characters next to each other do not share bytes. */
  lemma EscapedBytesAdd(characters: seq<Text>, k: nat)
    requires k < |characters| && Separate(characters)
    ensures EscapeAll(characters[..k + 1]) == EscapeAll(characters[..k]) + EscapeCharacter(characters[k])
    ensures ByteLength(EscapeAll(characters[..k + 1]))
         == ByteLength(EscapeAll(characters[..k])) + ByteLength(EscapeCharacter(characters[k]))
  {
    var before, c := EscapeAll(characters[..k]), characters[k];
    assert characters[..k + 1] == characters[..k] + [c];
    EscapeAppend(characters[..k], c);
    EscapeKeepsEnds(c);
    if k > 0 {
      var last := characters[k - 1];
      assert characters[..k] == characters[..k - 1] + [last];
      EscapeAppend(characters[..k - 1], last);
      EscapeKeepsEnds(last);
      assert !SplitsPair(characters[k - 1], characters[k]);
      assert before[|before| - 1] == EscapeCharacter(last)[|EscapeCharacter(last)| - 1];
    }
    ByteLengthConcat(before, EscapeCharacter(c));
  }

  lemma {:induction false} EscapedBytesGrow(characters: seq<Text>, j: nat, k: nat)
    requires j <= k <= |characters| && Separate(characters)
    ensures ByteLength(EscapeAll(characters[..j])) <= ByteLength(EscapeAll(characters[..k]))
    decreases k - j
  {
    if j < k {
      EscapedBytesGrow(characters, j, k - 1);
      EscapedBytesAdd(characters, k - 1);
    }
  }

  /** `k` characters fit, escaped, and no greater number does. */
  ghost predicate Fitting(text: Text, maxBytes: nat, k: nat) {
    var characters := Characters(text);
    && k <= |characters|
    && ByteLength(EscapeAll(characters[..k])) <= maxBytes
    && forall j | k < j <= |characters| :: ByteLength(EscapeAll(characters[..j])) > maxBytes
  }

  lemma FittingIsUnique(text: Text, maxBytes: nat, j: nat, k: nat)
    requires Fitting(text, maxBytes, j) && Fitting(text, maxBytes, k)
    ensures j == k
  {
  }

  // ----- lines -----

  /** `content.split(/\r\n|\r|\n/)`. */
  function SplitLines(text: Text): (lines: seq<Text>)
    ensures lines != []
    ensures forall l | l in lines :: NEWLINE !in l && CARRIAGE !in l
  {
    if text == [] then [[]]
    else if text[0] == CARRIAGE && |text| > 1 && text[1] == NEWLINE then [[]] + SplitLines(text[2..])
    else if text[0] == CARRIAGE || text[0] == NEWLINE then [[]] + SplitLines(text[1..])
    else
      var more := SplitLines(text[1..]);
      [[text[0]] + more[0]] + more[1..]
  }

  /** `\r\n`, `\r` or `\n`. */
  predicate Terminator(t: Text) {
    t == [CARRIAGE, NEWLINE] || t == [CARRIAGE] || t == [NEWLINE]
  }

  /** Each line and what ends it. */
  function Woven(lines: seq<Text>, ends: seq<Text>): Text
    requires |lines| == |ends|
  {
    if lines == [] then [] else lines[0] + ends[0] + Woven(lines[1..], ends[1..])
  }

  /** The lines of a text with their terminators; the last has none. A carriage return and the newline
      right after it are one terminator. */
  ghost predicate CutAt(text: Text, lines: seq<Text>, ends: seq<Text>) {
    && lines != [] && |lines| == |ends| && text == Woven(lines, ends) && ends[|ends| - 1] == []
    && (forall i | 0 <= i < |ends| - 1 :: Terminator(ends[i]))
    && (forall l | l in lines :: NEWLINE !in l && CARRIAGE !in l)
    && forall i | 0 <= i < |ends| - 1 :: ends[i] == [CARRIAGE] ==>
         !(lines[i + 1] == [] && ends[i + 1] == [NEWLINE])
  }

  lemma CutMore(text: Text, lines: seq<Text>, ends: seq<Text>, end: Text)
    requires CutAt(text, lines, ends) && Terminator(end)
    requires end == [CARRIAGE] ==> text == [] || text[0] != NEWLINE
    ensures CutAt(end + text, [[]] + lines, [end] + ends)
  {
    var more, stops := [[]] + lines, [end] + ends;
    assert more[1..] == lines && stops[1..] == ends;
    assert Woven(more, stops) == [] + end + Woven(lines, ends);
    assert [] + end == end;
    forall i | 0 <= i < |stops| - 1
      ensures Terminator(stops[i]) && (stops[i] == [CARRIAGE] ==> !(more[i + 1] == [] && stops[i + 1] == [NEWLINE]))
    {
      if i > 0 { assert stops[i] == ends[i - 1] && more[i + 1] == lines[i - 1 + 1] && stops[i + 1] == ends[i - 1 + 1]; }
    }
  }

  lemma CutLonger(text: Text, lines: seq<Text>, ends: seq<Text>, u: Unit)
    requires CutAt(text, lines, ends) && u != NEWLINE && u != CARRIAGE
    ensures CutAt([u] + text, [[u] + lines[0]] + lines[1..], ends)
  {
    var more := [[u] + lines[0]] + lines[1..];
    assert more[1..] == lines[1..];
    assert [u] + lines[0] + ends[0] + Woven(lines[1..], ends[1..]) == [u] + (lines[0] + ends[0] + Woven(lines[1..], ends[1..]));
    assert forall i | 0 < i < |more| :: more[i] == lines[i];
    forall l | l in more ensures NEWLINE !in l && CARRIAGE !in l {
      if l != more[0] { assert l in lines; } else { assert lines[0] in lines; }
    }
  }

  /** The lines of a text; a final terminator opens no further line. */
  function LogicalLines(text: Text): seq<Text> {
    var lines := SplitLines(text);
    if lines[|lines| - 1] == [] then lines[..|lines| - 1] else lines
  }

  /** A text ends a line if it is empty or its last unit belongs to a terminator. */
  predicate EndsLine(text: Text) {
    text == [] || text[|text| - 1] == NEWLINE || text[|text| - 1] == CARRIAGE
  }

  lemma {:induction false} LastLineEmpty(text: Text)
    ensures var lines := SplitLines(text); lines[|lines| - 1] == [] <==> EndsLine(text)
  {
    if text == [] {
    } else if text[0] == CARRIAGE && |text| > 1 && text[1] == NEWLINE {
      LastLineEmpty(text[2..]);
    } else {
      LastLineEmpty(text[1..]);
      var more := SplitLines(text[1..]);
      if text[0] != CARRIAGE && text[0] != NEWLINE && |more| == 1 {
        assert SplitLines(text) == [[text[0]] + more[0]];
        NotEnded(text);
      }
    }
  }

  /** One line alone holds no terminator. */
  lemma {:induction false} NotEnded(text: Text)
    requires |SplitLines(text)| == 1
    ensures NEWLINE !in text && CARRIAGE !in text
  {
    if text != [] { NotEnded(text[1..]); }
  }

  function BoundLines(text: Text, maxLines: nat): (Text, bool) {
    var lines := LogicalLines(text);
    (Join(if |lines| > maxLines then lines[..maxLines] else lines, NEWLINE), |lines| > maxLines)
  }

  lemma {:induction false} JoinHasNo(lines: seq<Text>, u: Unit)
    requires u != NEWLINE && forall l | l in lines :: u !in l
    ensures u !in Join(lines, NEWLINE)
  {
    if lines != [] {
      assert lines[0] in lines;
      JoinHasNo(lines[1..], u);
    }
  }

  // ----- the prompt -----

  datatype MemoryIndex = MemoryIndex(filePath: Text, content: Text, maxLines: int, maxBytes: int, truncated: bool)

  const INTRO := "\n\nThe following memories contain durable context and preferences that should inform your work:"

  function Head(): (t: Text)
    ensures t != []
  {
    Of(INTRO) + Of("\n\n<memories>\n  <memory>\n    <location>")
  }

  function Middle(): (t: Text)
    ensures t != [] && t[0] == LESS
  {
    Of("</location>\n    <content>\n")
  }

  function Indent(): Text {
    Of("\n    ")
  }

  function Tail(): (t: Text)
    ensures t != [] && t[0] == LESS
  {
    Of("</content>\n  </memory>\n</memories>")
  }

  function Render(filePath: Text, content: Text): Text {
    Head() + (EscapeXml(filePath) + (Middle() + (content + (Indent() + Tail()))))
  }

  predicate ValidLimits(m: MemoryIndex) {
    1 <= m.maxLines <= MAX_INDEX_LINES && 1 <= m.maxBytes <= MAX_INDEX_BYTES
  }

  function Suffix(maxBytes: nat): (t: Text)
    ensures |t| == ByteLength(t) <= maxBytes
    ensures LESS !in t && GREATER !in t
  {
    if maxBytes >= 3 then Of("...") else if maxBytes == 2 then Of("..") else if maxBytes == 1 then Of(".") else []
  }

  /** The content of a memory with good limits: all its bounded lines, escaped; or, when anything was cut
      off, the longest run of whole characters that leaves room for the dots, escaped, and the dots. */
  ghost predicate ContentOf(m: MemoryIndex, content: Text)
    requires ValidLimits(m)
  {
    var (text, cut) := BoundLines(m.content, m.maxLines);
    if m.truncated || cut || ByteLength(EscapeXml(text)) > m.maxBytes then
      exists k: nat ::
        && Fitting(text, m.maxBytes - |Suffix(m.maxBytes)|, k)
        && content == EscapeAll(Characters(text)[..k]) + Suffix(m.maxBytes)
    else content == EscapeXml(text)
  }

  // ----- what the prompt says -----

  lemma {:induction false} ConcatOfPrefix(characters: seq<Text>, k: nat)
    requires k <= |characters|
    ensures Concat(characters[..k]) <= Concat(characters)
  {
    if k > 0 {
      ConcatOfPrefix(characters[1..], k - 1);
      assert characters[..k][1..] == characters[1..][..k - 1];
    }
  }

  lemma CutIsSafe(text: Text, k: nat, suffix: Text, maxBytes: nat)
    requires ByteLength(suffix) <= maxBytes && Fitting(text, maxBytes - ByteLength(suffix), k)
    requires LESS !in suffix && GREATER !in suffix
    ensures var kept := EscapeAll(Characters(text)[..k]);
      && ByteLength(kept + suffix) <= maxBytes
      && LESS !in kept + suffix && GREATER !in kept + suffix
      && Unescape(kept) == Some(Concat(Characters(text)[..k])) && Concat(Characters(text)[..k]) <= text
  {
    var characters := Characters(text);
    var kept := EscapeAll(characters[..k]);
    CharactersAreWhole(text);
    EscapedHasNoTags(characters[..k]);
    ByteLengthConcat(kept, suffix);
    AllReadBack(characters[..k], []);
    assert kept + [] == kept && Concat(characters[..k]) + [] == Concat(characters[..k]);
    ConcatOfPrefix(characters, k);
  }

  lemma UncutIsSafe(text: Text)
    ensures LESS !in EscapeXml(text) && GREATER !in EscapeXml(text)
    ensures Unescape(EscapeXml(text)) == Some(text)
  {
    CharactersAreWhole(text);
    EscapedHasNoTags(Characters(text));
    EscapeReadsBack(text);
  }

  /** All of a text, or a prefix of it before a suffix, reads back. */
  ghost predicate ReadsAsPrefix(content: Text, text: Text, suffix: Text) {
    || Unescape(content) == Some(text)
    || exists kept, prefix :: content == kept + suffix && Unescape(kept) == Some(prefix) && prefix <= text
  }

  ghost predicate CutContent(text: Text, suffix: Text, max: nat, content: Text) {
    |suffix| <= max
    && exists k: nat :: Fitting(text, max - |suffix|, k) && content == EscapeAll(Characters(text)[..k]) + suffix
  }

  lemma CutContentIsSafe(text: Text, suffix: Text, max: nat, content: Text)
    requires suffix == Suffix(max) && CutContent(text, suffix, max, content)
    ensures ByteLength(content) <= max
    ensures LESS !in content && GREATER !in content
    ensures ReadsAsPrefix(content, text, suffix)
  {
    var k: nat :| Fitting(text, max - |suffix|, k) && content == EscapeAll(Characters(text)[..k]) + suffix;
    CutIsSafe(text, k, suffix, max);
  }

  /** The text up to the next tag, and the rest from that tag on. */
  function ToTag(text: Text): Option<(Text, Text)> {
    if LESS !in text then None
    else
      var k := IndexOf(text, LESS);
      Some((text[..k], text[k..]))
  }

  function After(opening: Text, text: Text): Option<Text> {
    if opening <= text then Some(text[|opening|..]) else None
  }

  /** A reader of the rendered prompt: the two texts that end at a tag. */
  function ReadPrompt(prompt: Text): Option<(Option<Text>, Text)> {
    var r := ReadParts(Head(), Middle(), |Indent()|, Tail(), prompt);
    if r.None? then None else Some((Unescape(r.value.0), r.value.1))
  }

  function ReadParts(head: Text, middle: Text, indent: nat, tail: Text, prompt: Text): Option<(Text, Text)> {
    var start := After(head, prompt);
    var location := if start.None? then None else ToTag(start.value);
    var body := if location.None? then None else After(middle, location.value.1);
    var content := if body.None? then None else ToTag(body.value);
    if content.None? || content.value.1 != tail || |content.value.0| < indent then None
    else Some((location.value.0, content.value.0[..|content.value.0| - indent]))
  }

  lemma ToTagReads(before: Text, after: Text)
    requires LESS !in before && after != [] && after[0] == LESS
    ensures ToTag(before + after) == Some((before, after))
  {
    var text := before + after;
    assert text[|before|] == LESS;
    assert forall j | 0 <= j < |before| :: text[j] == before[j] && before[j] in before;
    Halves(before, after);
  }

  lemma AfterReads(opening: Text, rest: Text)
    ensures After(opening, opening + rest) == Some(rest)
  {
    Halves(opening, rest);
  }

  lemma PartsReadBack(head: Text, path: Text, middle: Text, content: Text, indent: Text, tail: Text)
    requires LESS !in path && LESS !in content && LESS !in indent
    requires middle != [] && middle[0] == LESS && tail != [] && tail[0] == LESS
    ensures ReadParts(head, middle, |indent|, tail, head + (path + (middle + (content + (indent + tail)))))
         == Some((path, content))
  {
    var closing := content + (indent + tail);
    AfterReads(head, path + (middle + closing));
    ToTagReads(path, middle + closing);
    AfterReads(middle, closing);
    Associates(content, indent, tail);
    ToTagReads(content + indent, tail);
    Halves(content, indent);
  }

  lemma IndentIsBlank()
    ensures LESS !in Indent()
  {
  }
}
