/** Durable memory in the system prompt: XML escaping within a byte budget. */
module MemoryPrompt {
  import opened CodeUnits
  import opened Unicode
  import opened Options
  import opened MemoryText

  /** Escaped text has neither tags nor quotes in it. */
  lemma EscapedIsInert(text: Text)
    ensures var t := EscapeXml(text); LESS !in t && GREATER !in t && '"' as int !in t && '\'' as int !in t
  {
    CharactersAreWhole(text);
    EscapedHasNoTags(Characters(text));
    EscapedHasNoQuotes(Characters(text));
  }

  method EscapeXmlWithinBytes(value: Text, maxBytes: nat) returns (content: Text, truncated: bool)
    ensures exists k: nat :: Fitting(value, maxBytes, k) && content == EscapeAll(Characters(value)[..k])
    ensures truncated <==> ByteLength(EscapeXml(value)) > maxBytes
    ensures !truncated ==> content == EscapeXml(value)
  {
    var characters := Characters(value);
    CharactersAreWhole(value);
    assert characters[..|characters|] == characters;
    var bytes: nat := 0;
    content := [];
    for i := 0 to |characters|
      invariant content == EscapeAll(characters[..i])
      invariant bytes == ByteLength(content) <= maxBytes
    {
      var escaped := EscapeCharacter(characters[i]);
      EscapedBytesAdd(characters, i);
      if bytes + ByteLength(escaped) > maxBytes {
        forall j | i < j <= |characters| ensures ByteLength(EscapeAll(characters[..j])) > maxBytes {
          EscapedBytesGrow(characters, i + 1, j);
        }
        assert Fitting(value, maxBytes, i);
        return content, true;
      }
      content := content + escaped;
      bytes := bytes + ByteLength(escaped);
    }
    assert Fitting(value, maxBytes, |characters|);
    return content, false;
  }

  /** Splitting loses nothing: the text is the lines and their terminators. */
  lemma {:induction false} SplitLinesExactly(text: Text) returns (ends: seq<Text>)
    ensures CutAt(text, SplitLines(text), ends)
  {
    if text == [] {
      ends := [[]];
      assert Woven([[]], [[]]) == [];
    } else if text[0] == CARRIAGE && |text| > 1 && text[1] == NEWLINE {
      var rest := SplitLinesExactly(text[2..]);
      CutMore(text[2..], SplitLines(text[2..]), rest, [CARRIAGE, NEWLINE]);
      assert text == [CARRIAGE, NEWLINE] + text[2..];
      ends := [[CARRIAGE, NEWLINE]] + rest;
    } else if text[0] == CARRIAGE || text[0] == NEWLINE {
      var rest := SplitLinesExactly(text[1..]);
      CutMore(text[1..], SplitLines(text[1..]), rest, [text[0]]);
      assert text == [text[0]] + text[1..];
      ends := [[text[0]]] + rest;
    } else {
      ends := SplitLinesExactly(text[1..]);
      CutLonger(text[1..], SplitLines(text[1..]), ends, text[0]);
      assert text == [text[0]] + text[1..];
    }
  }

  /** The logical lines are all of them, without the empty one after a final terminator. */
  lemma {:induction false} LogicalLinesExactly(text: Text)
    ensures SplitLines(text) == LogicalLines(text) + if EndsLine(text) then [[]] else []
  {
    LastLineEmpty(text);
  }

  /** Whatever mix of terminators the text used, what is kept is at most that many `\n`-separated lines,
      and they are the first logical lines. */
  lemma BoundedLines(text: Text, maxLines: nat)
    requires maxLines >= 1
    ensures var (kept, cut) := BoundLines(text, maxLines);
      && CARRIAGE !in kept
      && |Split(kept, NEWLINE)| <= maxLines
      && (LogicalLines(text) != [] ==> Split(kept, NEWLINE) <= LogicalLines(text))
      && (cut ==> |Split(kept, NEWLINE)| == maxLines)
      && (!cut && LogicalLines(text) != [] ==> Split(kept, NEWLINE) == LogicalLines(text))
  {
    var lines := LogicalLines(text);
    var parts := if |lines| > maxLines then lines[..maxLines] else lines;
    JoinHasNo(parts, CARRIAGE);
    if parts != [] { SplitJoin(parts, NEWLINE); }
  }

  /** The dots that say something was cut: three, or as many as there is room for. */
  lemma SuffixExactly(maxBytes: nat)
    ensures |Suffix(maxBytes)| == (if maxBytes < 3 then maxBytes else 3)
    ensures forall i | 0 <= i < |Suffix(maxBytes)| :: Suffix(maxBytes)[i] == '.' as int
  {
  }

  /** What goes between the content tags. */
  method BoundedContent(m: MemoryIndex) returns (content: Text)
    requires ValidLimits(m)
    ensures ContentOf(m, content)
  {
    var (text, cut) := BoundLines(m.content, m.maxLines);
    var escaped, over := EscapeXmlWithinBytes(text, m.maxBytes);
    if !m.truncated && !cut && !over { return escaped; }
    var suffix := Suffix(m.maxBytes);
    var kept, _ := EscapeXmlWithinBytes(text, m.maxBytes - ByteLength(suffix));
    content := kept + suffix;
  }

  /** There is only one such content. */
  lemma ContentIsUnique(m: MemoryIndex, a: Text, b: Text)
    requires ValidLimits(m) && ContentOf(m, a) && ContentOf(m, b)
    ensures a == b
  {
    var (text, cut) := BoundLines(m.content, m.maxLines);
    if m.truncated || cut || ByteLength(EscapeXml(text)) > m.maxBytes {
      var room := m.maxBytes - |Suffix(m.maxBytes)|;
      var j: nat :| Fitting(text, room, j) && a == EscapeAll(Characters(text)[..j]) + Suffix(m.maxBytes);
      var k: nat :| Fitting(text, room, k) && b == EscapeAll(Characters(text)[..k]) + Suffix(m.maxBytes);
      FittingIsUnique(text, room, j, k);
    }
  }

  /** `formatMemoryForPrompt`; none when a limit is out of its range. */
  method FormatMemoryForPrompt(memory: Option<MemoryIndex>) returns (prompt: Option<Text>)
    ensures memory.None? ==> prompt == Some([])
    ensures memory.Some? ==> (prompt.Some? <==> ValidLimits(memory.value))
    ensures memory.Some? && prompt.Some? ==>
      exists content :: ContentOf(memory.value, content) && prompt.value == Render(memory.value.filePath, content)
  {
    if memory.None? { return Some([]); }
    if !ValidLimits(memory.value) { return None; }
    var content := BoundedContent(memory.value);
    prompt := Some(Render(memory.value.filePath, content));
  }

  /** The content stays within its bytes and holds no tag, and before the dots it reads back as a
      prefix of the bounded lines, all of them when nothing was cut: no entity is ever split. */
  lemma ContentIsSafe(m: MemoryIndex, content: Text)
    requires ValidLimits(m) && ContentOf(m, content)
    ensures ByteLength(content) <= m.maxBytes
    ensures LESS !in content && GREATER !in content
    ensures ReadsAsPrefix(content, BoundLines(m.content, m.maxLines).0, Suffix(m.maxBytes))
  {
    var (text, cut) := BoundLines(m.content, m.maxLines);
    if m.truncated || cut || ByteLength(EscapeXml(text)) > m.maxBytes {
      CutContentIsSafe(text, Suffix(m.maxBytes), m.maxBytes, content);
    } else {
      UncutIsSafe(text);
    }
  }

  /** Neither the file's path nor the memory's content can end the element that holds it: a reader of
      the prompt finds both, whatever they are. */
  lemma PromptReadsBack(m: MemoryIndex, content: Text)
    requires ValidLimits(m) && ContentOf(m, content)
    ensures ReadPrompt(Render(m.filePath, content)) == Some((Some(m.filePath), content))
  {
    ContentIsSafe(m, content);
    CharactersAreWhole(m.filePath);
    EscapedHasNoTags(Characters(m.filePath));
    EscapeReadsBack(m.filePath);
    IndentIsBlank();
    PartsReadBack(Head(), EscapeXml(m.filePath), Middle(), content, Indent(), Tail());
  }

  /** Content is marked whenever something was cut off, when the index was loaded, by the line limit or by
      the byte limit, and is the whole text otherwise. */
  lemma MarkedExactly(m: MemoryIndex, content: Text)
    requires ValidLimits(m) && ContentOf(m, content)
    ensures var (text, cut) := BoundLines(m.content, m.maxLines);
      var dots := Suffix(m.maxBytes);
      if m.truncated || cut || ByteLength(EscapeXml(text)) > m.maxBytes then
        |dots| <= |content| && content[|content| - |dots|..] == dots
      else Unescape(content) == Some(text)
  {
    var (text, cut) := BoundLines(m.content, m.maxLines);
    EscapeReadsBack(text);
  }
}
