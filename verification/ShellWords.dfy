/** How a POSIX shell reads a simple command: word splitting and quote removal, section 2.2 of the Shell
    Command Language of IEEE 1003.1. */
module ShellWords {
  import opened CodeUnits
  import opened Options

  const SPACE: Unit := 32
  const DOUBLE: Unit := 34
  const SINGLE: Unit := 39

  predicate Blank(u: Unit) { u == SPACE || u == 9 }

  /** Units that mean something to the shell when they are not quoted, so that this reader, which expands
      nothing, gives up on them: those section 2.2 lists, and the end of the line. `=` is left out: it only
      matters before the command name. */
  predicate Special(u: Unit) {
    || u == NEWLINE || u == BACKSLASH || u == STAR || u == QUESTION || Blank(u) || u == DOUBLE || u == SINGLE
    || u == '|' as int || u == '&' as int || u == ';' as int || u == '<' as int || u == '>' as int
    || u == '(' as int || u == ')' as int || u == '$' as int || u == '`' as int
    || u == '[' as int || u == '#' as int || u == '~' as int || u == '%' as int
  }

  datatype Quoting = Unquoted | InSingle | InDouble

  /** One word, quotes removed, and what follows it; none where the reader gives up or a quote is not
      closed. */
  function ReadWord(q: Quoting, text: Text): (r: Option<(Text, Text)>)
    ensures r.Some? ==> |r.value.1| <= |text|
    decreases |text|
  {
    if text == [] then if q == Unquoted then Some(([], [])) else None
    else
      var u, rest := text[0], text[1..];
      match q
      case Unquoted =>
        if Blank(u) then Some(([], text))
        else if u == SINGLE then ReadWord(InSingle, rest)
        else if u == DOUBLE then ReadWord(InDouble, rest)
        else if Special(u) then None
        else Lead([u], ReadWord(Unquoted, rest))
      case InSingle =>
        if u == SINGLE then ReadWord(Unquoted, rest) else Lead([u], ReadWord(InSingle, rest))
      case InDouble =>
        if u == DOUBLE then ReadWord(Unquoted, rest)
        else if u == BACKSLASH || u == '$' as int || u == '`' as int then None
        else Lead([u], ReadWord(InDouble, rest))
  }

  function Lead(t: Text, r: Option<(Text, Text)>): (p: Option<(Text, Text)>)
    ensures p.Some? <==> r.Some?
    ensures p.Some? ==> p.value.1 == r.value.1
  {
    if r.Some? then Some((t + r.value.0, r.value.1)) else None
  }

  lemma LeadLead(a: Text, b: Text, r: Option<(Text, Text)>)
    ensures Lead(a, Lead(b, r)) == Lead(a + b, r)
    ensures Lead([], r) == r
  {
    if r.Some? {
      assert a + (b + r.value.0) == (a + b) + r.value.0;
      assert [] + r.value.0 == r.value.0;
    }
  }

  /** A word that starts takes at least one unit. */
  lemma WordAdvances(text: Text)
    requires text != [] && !Blank(text[0])
    ensures var r := ReadWord(Unquoted, text); r.Some? ==> |r.value.1| < |text|
  {
  }

  /** All words of a line. */
  function Words(text: Text): Option<seq<Text>>
    decreases |text|
  {
    if text == [] then Some([])
    else if Blank(text[0]) then Words(text[1..])
    else
      WordAdvances(text);
      var word := ReadWord(Unquoted, text);
      if word.None? then None
      else
        var more := Words(word.value.1);
        if more.Some? then Some([word.value.0] + more.value) else None
  }

  // ----- quoting -----

  predicate SafeUnit(u: Unit) {
    || 65 <= u <= 90 || 97 <= u <= 122 || 48 <= u <= 57
    || u == '_' as int || u == '.' as int || u == SLASH || u == ':' as int
    || u == '@' as int || u == '+' as int || u == '-' as int
  }

  /** `SAFE_SHELL_TOKEN`. */
  predicate SafeToken(t: Text) {
    t != [] && forall i | 0 <= i < |t| :: SafeUnit(t[i])
  }

  /** A single quote inside single quotes: leave them, a quoted one, enter them again. */
  const QUOTED_QUOTE: Text := [SINGLE, DOUBLE, SINGLE, DOUBLE, SINGLE]

  function QuoteInside(t: Text): Text {
    if t == [] then [] else (if t[0] == SINGLE then QUOTED_QUOTE else [t[0]]) + QuoteInside(t[1..])
  }

  /** `shellQuote`. */
  function ShellQuote(t: Text): Text {
    [SINGLE] + QuoteInside(t) + [SINGLE]
  }

  /** `shellToken`. */
  function ShellToken(t: Text): Text {
    if SafeToken(t) then t else ShellQuote(t)
  }

  lemma QuotedQuoteReads(rest: Text)
    ensures ReadWord(InSingle, QUOTED_QUOTE + rest) == Lead([SINGLE], ReadWord(InSingle, rest))
  {
    var t0 := QUOTED_QUOTE + rest;
    var t1 := [DOUBLE, SINGLE, DOUBLE, SINGLE] + rest;
    var t2 := [SINGLE, DOUBLE, SINGLE] + rest;
    var t3 := [DOUBLE, SINGLE] + rest;
    var t4 := [SINGLE] + rest;
    assert t0[1..] == t1 && t1[1..] == t2 && t2[1..] == t3 && t3[1..] == t4 && t4[1..] == rest;
    assert ReadWord(InSingle, t0) == ReadWord(Unquoted, t1);
    assert ReadWord(Unquoted, t1) == ReadWord(InDouble, t2);
    assert ReadWord(InDouble, t2) == Lead([SINGLE], ReadWord(InDouble, t3));
    assert ReadWord(InDouble, t3) == ReadWord(Unquoted, t4);
    assert ReadWord(Unquoted, t4) == ReadWord(InSingle, rest);
  }

  lemma {:induction false} InsideReadsBack(t: Text, rest: Text)
    ensures ReadWord(InSingle, QuoteInside(t) + ([SINGLE] + rest)) == Lead(t, ReadWord(Unquoted, rest))
  {
    var closing := [SINGLE] + rest;
    if t == [] {
      assert [] + closing == closing && closing[1..] == rest;
      LeadLead([], [], ReadWord(Unquoted, rest));
    } else {
      var tail := QuoteInside(t[1..]) + closing;
      InsideReadsBack(t[1..], rest);
      LeadLead([t[0]], t[1..], ReadWord(Unquoted, rest));
      assert [t[0]] + t[1..] == t;
      if t[0] == SINGLE {
        assert QuoteInside(t) + closing == QUOTED_QUOTE + tail;
        QuotedQuoteReads(tail);
      } else {
        assert QuoteInside(t) + closing == [t[0]] + tail;
        assert ([t[0]] + tail)[1..] == tail;
      }
    }
  }

  /** A quoted text, whatever its units, reads back as itself. */
  lemma QuoteReadsBack(t: Text, rest: Text)
    ensures ReadWord(Unquoted, ShellQuote(t) + rest) == Lead(t, ReadWord(Unquoted, rest))
  {
    var text := ShellQuote(t) + rest;
    assert text[0] == SINGLE && text[1..] == QuoteInside(t) + ([SINGLE] + rest);
    InsideReadsBack(t, rest);
  }

  /** So does a text without special units, as it is. */
  lemma {:induction false} PlainReadsBack(t: Text, rest: Text)
    requires forall i | 0 <= i < |t| :: !Special(t[i])
    ensures ReadWord(Unquoted, t + rest) == Lead(t, ReadWord(Unquoted, rest))
  {
    if t == [] {
      assert [] + rest == rest;
      LeadLead([], [], ReadWord(Unquoted, rest));
    } else {
      assert (t + rest)[1..] == t[1..] + rest;
      PlainReadsBack(t[1..], rest);
      LeadLead([t[0]], t[1..], ReadWord(Unquoted, rest));
      assert [t[0]] + t[1..] == t;
    }
  }

  /** The safe tokens need no quotes, and all others get them: either way the shell sees the text. */
  lemma TokenReadsBack(t: Text, rest: Text)
    ensures ReadWord(Unquoted, ShellToken(t) + rest) == Lead(t, ReadWord(Unquoted, rest))
  {
    if SafeToken(t) { PlainReadsBack(t, rest); } else { QuoteReadsBack(t, rest); }
  }

  // ----- lines -----

  /** `token` is a way of writing `word`. */
  ghost predicate Writes(token: Text, word: Text) {
    && token != [] && !Blank(token[0])
    && forall rest :: ReadWord(Unquoted, token + rest) == Lead(word, ReadWord(Unquoted, rest))
  }

  lemma WordThenRest(token: Text, word: Text, rest: Text)
    requires Writes(token, word) && (rest == [] || Blank(rest[0]))
    ensures Words(token + rest) == if Words(rest).Some? then Some([word] + Words(rest).value) else None
  {
    var text := token + rest;
    assert text[0] == token[0];
    assert ReadWord(Unquoted, rest) == Some(([], rest));
    assert word + [] == word;
  }

  /** Tokens with single spaces between them read as their words. */
  lemma {:induction false} TokensReadBack(tokens: seq<Text>, words: seq<Text>)
    requires tokens != [] && |tokens| == |words| && forall i | 0 <= i < |tokens| :: Writes(tokens[i], words[i])
    ensures Words(Join(tokens, SPACE)) == Some(words)
    decreases |tokens|
  {
    if |tokens| == 1 {
      WordThenRest(tokens[0], words[0], []);
      assert tokens[0] + [] == tokens[0] && words == [words[0]] + [];
    } else {
      var more := Join(tokens[1..], SPACE);
      TokensReadBack(tokens[1..], words[1..]);
      WordThenRest(tokens[0], words[0], [SPACE] + more);
      assert ([SPACE] + more)[1..] == more;
      assert Join(tokens, SPACE) == tokens[0] + ([SPACE] + more);
      assert words == [words[0]] + words[1..];
    }
  }

  /** Names of letters, digits and the like are printed without quotes. */
  lemma PlainNamesStay(t: Text)
    requires t != [] && forall i | 0 <= i < |t| ::
      'a' as int <= t[i] <= 'z' as int || 'A' as int <= t[i] <= 'Z' as int || '0' as int <= t[i] <= '9' as int
      || t[i] in Of("_./:@+-")
    ensures ShellToken(t) == t
  {
    var others := Of("_./:@+-");
    assert others == ['_' as int, '.' as int, '/' as int, ':' as int, '@' as int, '+' as int, '-' as int];
  }
}
