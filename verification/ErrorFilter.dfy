/** The filter between mcporter's error stream and the agent: it rewrites whole lines, whatever chunks
    they arrive in. */
module ErrorFilter {
  import opened CodeUnits
  import opened Options
  import opened Framing

  /** What the filter makes of one line: text to write, unless the line is a stack frame, and whether
      the line is about OAuth metadata. */
  datatype Emission = Emission(text: Option<Text>, sawOAuth: bool)

  type Rewriter = Text -> Emission

  /** Buffered text, the OAuth flag, and everything written so far. */
  datatype State = State(buffer: Text, sawOAuth: bool, written: seq<Text>)

  const START: State := State([], false, [])

  function Emit(rewrite: Rewriter, s: State, line: Text): State {
    var e := rewrite(line);
    s.(sawOAuth := s.sawOAuth || (e.text.Some? && e.sawOAuth),
       written := s.written + if e.text.Some? then [e.text.value] else [])
  }

  function Push(rewrite: Rewriter, s: State, chunk: Text): State {
    DrainLines(rewrite, s.(buffer := s.buffer + chunk))
  }

  function DrainLines(rewrite: Rewriter, s: State): State
    decreases |s.buffer|
  {
    if NEWLINE !in s.buffer then s
    else DrainLines(rewrite, EmitFirst(rewrite, s))
  }

  /** Emits the first complete line of the buffer. */
  function EmitFirst(rewrite: Rewriter, s: State): (r: State)
    requires NEWLINE in s.buffer
    ensures |r.buffer| < |s.buffer|
  {
    var k := IndexOf(s.buffer, NEWLINE);
    Emit(rewrite, s, s.buffer[..k + 1]).(buffer := s.buffer[k + 1..])
  }

  /** What is left counts as a last line. */
  function EmitRest(rewrite: Rewriter, s: State): State {
    if s.buffer == [] then s else Emit(rewrite, s, s.buffer).(buffer := [])
  }

  function Flush(rewrite: Rewriter, hint: Text, s: State): State {
    var last := EmitRest(rewrite, s);
    if last.sawOAuth then State([], false, last.written + [hint]) else last
  }

  function PushAll(rewrite: Rewriter, s: State, chunks: seq<Text>): State
    decreases |chunks|
  {
    if chunks == [] then s else PushAll(rewrite, Push(rewrite, s, chunks[0]), chunks[1..])
  }

  /** `createDelegatedErrorFilter`. */
  class Filter {
    const rewrite: Rewriter
    const hint: Text
    var buffer: Text
    var sawOAuth: bool
    var written: seq<Text>

    function View(): State
      reads this
    {
      State(buffer, sawOAuth, written)
    }

    constructor (rewrite: Rewriter, hint: Text)
      ensures this.rewrite == rewrite && this.hint == hint && View() == START
    {
      this.rewrite, this.hint := rewrite, hint;
      buffer, sawOAuth, written := [], false, [];
    }

    method EmitLine(line: Text)
      modifies this
      ensures View() == Emit(rewrite, old(View()), line)
    {
      var e := rewrite(line);
      if e.text.None? { return; }
      if e.sawOAuth { sawOAuth := true; }
      written := written + [e.text.value];
    }

    method PushChunk(chunk: Text)
      modifies this
      ensures View() == Push(rewrite, old(View()), chunk)
    {
      buffer := buffer + chunk;
      while NEWLINE in buffer
        invariant DrainLines(rewrite, View()) == Push(rewrite, old(View()), chunk)
        decreases |buffer|
      {
        ghost var next := EmitFirst(rewrite, View());
        var index := IndexOf(buffer, NEWLINE);
        EmitLine(buffer[..index + 1]);
        buffer := buffer[index + 1..];
        assert View() == next;
      }
    }

    method FlushRest()
      modifies this
      ensures View() == Flush(rewrite, hint, old(View()))
    {
      if buffer != [] { EmitLine(buffer); }
      buffer := [];
      if sawOAuth {
        written := written + [hint];
        sawOAuth := false;
      }
    }
  }

  lemma PrefixCut(x: Text, y: Text, k: nat)
    requires k < |x|
    ensures (x + y)[..k] == x[..k] && (x + y)[k + 1..] == x[k + 1..] + y
  {
  }

  lemma EmitFirstAppend(rewrite: Rewriter, s: State, more: Text)
    requires NEWLINE in s.buffer
    ensures NEWLINE in s.buffer + more
    ensures EmitFirst(rewrite, s.(buffer := s.buffer + more))
         == EmitFirst(rewrite, s).(buffer := EmitFirst(rewrite, s).buffer + more)
  {
    var k := IndexOf(s.buffer, NEWLINE);
    IndexOfFirst(s.buffer + more, NEWLINE, k);
    assert (s.buffer + more)[..k + 1] == s.buffer[..k + 1];
    PrefixCut(s.buffer, more, k);
  }

  lemma {:induction false} DrainLinesAppend(rewrite: Rewriter, s: State, more: Text)
    ensures NEWLINE !in DrainLines(rewrite, s).buffer
    ensures DrainLines(rewrite, s.(buffer := s.buffer + more)) == Push(rewrite, DrainLines(rewrite, s), more)
    decreases |s.buffer|
  {
    if NEWLINE in s.buffer {
      EmitFirstAppend(rewrite, s, more);
      DrainLinesAppend(rewrite, EmitFirst(rewrite, s), more);
    }
  }

  lemma {:induction false} PushAllIsOnePush(rewrite: Rewriter, s: State, chunks: seq<Text>)
    requires NEWLINE !in s.buffer
    ensures PushAll(rewrite, s, chunks) == Push(rewrite, s, Concat(chunks))
    decreases |chunks|
  {
    if chunks == [] {
      assert s.buffer + [] == s.buffer;
    } else {
      var all := s.(buffer := s.buffer + chunks[0]);
      DrainLinesAppend(rewrite, all, Concat(chunks[1..]));
      assert s.buffer + Concat(chunks) == all.buffer + Concat(chunks[1..]);
      PushAllIsOnePush(rewrite, Push(rewrite, s, chunks[0]), chunks[1..]);
    }
  }

  /** The text cut after every newline. */
  function WholeLines(text: Text): seq<Text>
    decreases |text|
  {
    if text == [] then []
    else if NEWLINE !in text then [text]
    else var k := IndexOf(text, NEWLINE); [text[..k + 1]] + WholeLines(text[k + 1..])
  }

  function EmitAll(rewrite: Rewriter, s: State, lines: seq<Text>): State
    decreases |lines|
  {
    if lines == [] then s else EmitAll(rewrite, Emit(rewrite, s, lines[0]), lines[1..])
  }

  lemma {:induction false} FirstWholeLine(text: Text)
    requires NEWLINE in text
    ensures var k := IndexOf(text, NEWLINE);
      WholeLines(text) == [text[..k + 1]] + WholeLines(text[k + 1..])
  {
  }

  lemma EmitIgnoresBuffer(rewrite: Rewriter, s: State, line: Text, buffer: Text)
    ensures Emit(rewrite, s.(buffer := buffer), line) == Emit(rewrite, s, line).(buffer := buffer)
  {
  }

  lemma {:induction false} FirstLineEmits(rewrite: Rewriter, s: State, line: Text, rest: Text)
    requires NEWLINE in s.buffer
    requires line == s.buffer[..IndexOf(s.buffer, NEWLINE) + 1] && rest == s.buffer[IndexOf(s.buffer, NEWLINE) + 1..]
    ensures EmitFirst(rewrite, s).buffer == rest
    ensures EmitFirst(rewrite, s).(buffer := []) == Emit(rewrite, s.(buffer := []), line)
  {
    EmitIgnoresBuffer(rewrite, s, line, []);
  }

  lemma {:induction false} LastLineEmits(rewrite: Rewriter, s: State)
    requires NEWLINE !in s.buffer
    ensures EmitRest(rewrite, s) == EmitAll(rewrite, s.(buffer := []), WholeLines(s.buffer))
  {
    if s.buffer == [] {
      assert WholeLines(s.buffer) == [];
    } else {
      assert WholeLines(s.buffer) == [s.buffer] && [s.buffer][1..] == [];
      EmitIgnoresBuffer(rewrite, s, s.buffer, []);
    }
  }

  lemma {:induction false} EmitAllFirst(rewrite: Rewriter, s: State, line: Text, lines: seq<Text>)
    ensures EmitAll(rewrite, s, [line] + lines) == EmitAll(rewrite, Emit(rewrite, s, line), lines)
  {
    assert ([line] + lines)[1..] == lines;
  }

  lemma {:induction false} DrainEmitsLines(rewrite: Rewriter, s: State)
    ensures EmitRest(rewrite, DrainLines(rewrite, s)) == EmitAll(rewrite, s.(buffer := []), WholeLines(s.buffer))
    decreases |s.buffer|
  {
    if NEWLINE in s.buffer {
      var k := IndexOf(s.buffer, NEWLINE) + 1;
      var line, rest := s.buffer[..k], s.buffer[k..];
      FirstLineEmits(rewrite, s, line, rest);
      FirstWholeLine(s.buffer);
      EmitAllFirst(rewrite, s.(buffer := []), line, WholeLines(rest));
      DrainEmitsLines(rewrite, EmitFirst(rewrite, s));
    } else {
      LastLineEmits(rewrite, s);
    }
  }

  lemma {:induction false} EmitAllKeepsBuffer(rewrite: Rewriter, s: State, lines: seq<Text>)
    ensures EmitAll(rewrite, s, lines).buffer == s.buffer
    decreases |lines|
  {
    if lines != [] { EmitAllKeepsBuffer(rewrite, Emit(rewrite, s, lines[0]), lines[1..]); }
  }

  /** For any chunking, the filter writes what it makes of the lines of the stream one by one, and the
      hint at the end if any of them was about OAuth metadata. */
  lemma FilterIgnoresChunking(rewrite: Rewriter, hint: Text, chunks: seq<Text>)
    ensures Flush(rewrite, hint, PushAll(rewrite, START, chunks))
         == Flush(rewrite, hint, EmitAll(rewrite, START, WholeLines(Concat(chunks))))
  {
    PushAllIsOnePush(rewrite, START, chunks);
    assert [] + Concat(chunks) == Concat(chunks);
    DrainEmitsLines(rewrite, START.(buffer := Concat(chunks)));
    EmitAllKeepsBuffer(rewrite, START, WholeLines(Concat(chunks)));
  }

  // ----- what is written -----

  /** A line ends with its only newline. */
  predicate Ends(line: Text) {
    line != [] && line[|line| - 1] == NEWLINE && NEWLINE !in line[..|line| - 1]
  }

  /** Each line ends with its newline, only the last may have none. */
  predicate AllEnd(lines: seq<Text>) {
    forall i | 0 <= i < |lines| ::
      Ends(lines[i]) || (i == |lines| - 1 && lines[i] != [] && NEWLINE !in lines[i])
  }

  lemma FirstEnds(text: Text)
    requires NEWLINE in text
    ensures Ends(text[..IndexOf(text, NEWLINE) + 1])
  {
    var k := IndexOf(text, NEWLINE);
    var line := text[..k + 1];
    assert line[..k] == text[..k] && line[k] == NEWLINE;
  }

  lemma AllEndMore(line: Text, lines: seq<Text>)
    requires Ends(line) && AllEnd(lines)
    ensures AllEnd([line] + lines)
  {
    assert forall i | 0 < i < |[line] + lines| :: ([line] + lines)[i] == lines[i - 1];
  }

  lemma ConcatMore(line: Text, lines: seq<Text>)
    ensures Concat([line] + lines) == line + Concat(lines)
  {
    assert ([line] + lines)[1..] == lines;
  }

  lemma LastLine(text: Text)
    requires text != [] && NEWLINE !in text
    ensures WholeLines(text) == [text] && Concat([text]) == text && AllEnd([text])
  {
    ConcatMore(text, []);
    assert [text] + [] == [text] && text + Concat([]) == text;
  }

  /** The lines make up the text. */
  lemma {:induction false} WholeLinesExactly(text: Text)
    ensures Concat(WholeLines(text)) == text && AllEnd(WholeLines(text))
    decreases |text|
  {
    if text == [] {
    } else if NEWLINE !in text {
      LastLine(text);
    } else {
      var k := IndexOf(text, NEWLINE);
      var line, rest := text[..k + 1], text[k + 1..];
      FirstWholeLine(text);
      FirstEnds(text);
      WholeLinesExactly(rest);
      AllEndMore(line, WholeLines(rest));
      ConcatMore(line, WholeLines(rest));
      assert text == line + rest;
    }
  }

  function WrittenFor(rewrite: Rewriter, lines: seq<Text>): seq<Text>
    decreases |lines|
  {
    if lines == [] then []
    else (if rewrite(lines[0]).text.Some? then [rewrite(lines[0]).text.value] else []) + WrittenFor(rewrite, lines[1..])
  }

  /** Some line that is written is about OAuth metadata. */
  ghost predicate SawOAuth(rewrite: Rewriter, lines: seq<Text>) {
    exists i :: 0 <= i < |lines| && rewrite(lines[i]).text.Some? && rewrite(lines[i]).sawOAuth
  }

  lemma {:induction false} EmittedAll(rewrite: Rewriter, s: State, lines: seq<Text>)
    ensures EmitAll(rewrite, s, lines).written == s.written + WrittenFor(rewrite, lines)
    ensures EmitAll(rewrite, s, lines).sawOAuth <==> s.sawOAuth || SawOAuth(rewrite, lines)
    decreases |lines|
  {
    if lines != [] {
      var rest := lines[1..];
      EmittedAll(rewrite, Emit(rewrite, s, lines[0]), rest);
      assert lines == [lines[0]] + rest;
      assert forall i | 0 <= i < |rest| :: rest[i] == lines[i + 1];
      assert forall i | 0 < i < |lines| :: lines[i] == rest[i - 1];
    }
  }

  /** Whatever the chunks: what the lines of the stream become is written, in order and without the ones
      that are dropped, and then the hint, once, exactly if one that was written is about OAuth metadata. */
  lemma FilterWrites(rewrite: Rewriter, hint: Text, chunks: seq<Text>)
    ensures var lines := WholeLines(Concat(chunks));
      Flush(rewrite, hint, PushAll(rewrite, START, chunks)).written
      == WrittenFor(rewrite, lines) + if SawOAuth(rewrite, lines) then [hint] else []
  {
    var lines := WholeLines(Concat(chunks));
    FilterIgnoresChunking(rewrite, hint, chunks);
    EmittedAll(rewrite, START, lines);
    EmitAllKeepsBuffer(rewrite, START, lines);
    assert [] + WrittenFor(rewrite, lines) == WrittenFor(rewrite, lines);
  }
}
