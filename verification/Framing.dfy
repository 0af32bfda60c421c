/** Newline framing between the MCP daemon and its client, however the stream is cut into chunks. */
module Framing {
  import opened CodeUnits
  import opened Unicode
  import opened CanonicalJson
  import opened OrderedJson
  import opened Options

  const MAX_FRAME_BYTES: nat := 10 * 1024 * 1024

  // ----- the client's read loop -----

  /** Lines handed on, what stays buffered, and whether the frame limit held. */
  datatype Fed = Fed(lines: seq<Text>, buffer: Text, ok: bool)

  /** `a`, and then `b` with what `a` left. */
  function Then(a: seq<Text>, b: Fed): Fed {
    Fed(a + b.lines, b.buffer, b.ok)
  }

  function NonEmpty(line: Text): seq<Text> {
    if line == [] then [] else [line]
  }

  /** The inner loop: complete lines, stopping at the first over the limit; empty lines are skipped. */
  function Drain(buffer: Text): Fed
    decreases |buffer|
  {
    if NEWLINE !in buffer then Fed([], buffer, true)
    else
      var k := IndexOf(buffer, NEWLINE);
      var line, rest := buffer[..k], buffer[k + 1..];
      if ByteLength(line) > MAX_FRAME_BYTES then Fed([], rest, false)
      else Then(NonEmpty(line), Drain(rest))
  }

  function OnChunk(buffer: Text, chunk: Text): Fed {
    var all := buffer + chunk;
    if NEWLINE !in all && ByteLength(all) > MAX_FRAME_BYTES then Fed([], all, false) else Drain(all)
  }

  /** All chunks in order, until one is refused. */
  function Feed(buffer: Text, chunks: seq<Text>): Fed
    decreases |chunks|
  {
    if chunks == [] then Fed([], buffer, true)
    else
      var first := OnChunk(buffer, chunks[0]);
      if !first.ok then first
      else Then(first.lines, Feed(first.buffer, chunks[1..]))
  }

  lemma DrainStep(delivered: seq<Text>, buffer: Text, line: Text, rest: Text)
    requires NEWLINE in buffer && line == buffer[..IndexOf(buffer, NEWLINE)]
    requires rest == buffer[IndexOf(buffer, NEWLINE) + 1..]
    ensures Then(delivered, Drain(buffer)) ==
      if ByteLength(line) > MAX_FRAME_BYTES then Fed(delivered, rest, false)
      else Then(delivered + NonEmpty(line), Drain(rest))
  {
    if ByteLength(line) > MAX_FRAME_BYTES {
      assert Drain(buffer) == Fed([], rest, false);
    } else {
      assert Drain(buffer) == Then(NonEmpty(line), Drain(rest));
      ThenThen(delivered, NonEmpty(line), Drain(rest));
    }
  }

  lemma ThenThen(a: seq<Text>, b: seq<Text>, c: Fed)
    ensures Then(a, Then(b, c)) == Then(a + b, c)
    ensures Then([], c) == c
  {
    assert a + (b + c.lines) == (a + b) + c.lines;
    assert [] + c.lines == c.lines;
  }

  /** The socket's `data` handler and the buffer it closes over. */
  class FrameReader {
    var buffer: Text
    var delivered: seq<Text>
    var refused: bool

    constructor ()
      ensures buffer == [] && delivered == [] && !refused
    {
      buffer, delivered, refused := [], [], false;
    }

    method OnData(chunk: Text)
      requires !refused
      modifies this
      ensures var fed := OnChunk(old(buffer), chunk);
        && delivered == old(delivered) + fed.lines
        && refused == !fed.ok
        && (fed.ok ==> buffer == fed.buffer)
    {
      buffer := buffer + chunk;
      if NEWLINE !in buffer && ByteLength(buffer) > MAX_FRAME_BYTES {
        refused := true;
        return;
      }
      ghost var whole := Then(delivered, Drain(buffer));
      while NEWLINE in buffer
        invariant !refused && Then(delivered, Drain(buffer)) == whole
        decreases |buffer|
      {
        var newline := IndexOf(buffer, NEWLINE);
        var line := buffer[..newline];
        ghost var next, rest := delivered + NonEmpty(line), buffer[newline + 1..];
        DrainStep(delivered, buffer, line, rest);
        buffer := buffer[newline + 1..];
        if ByteLength(line) > MAX_FRAME_BYTES {
          refused := true;
          return;
        }
        if line != [] { delivered := delivered + [line]; }
        assert delivered == next && buffer == rest;
        assert Then(delivered, Drain(buffer)) == Then(next, Drain(rest));
      }
      assert Then(delivered, Drain(buffer)) == Fed(delivered, buffer, true);
    }
  }

  // ----- chunking does not matter -----

  /** Draining in two steps. */
  lemma {:induction false} DrainFirst(x: Text, line: Text, rest: Text)
    requires NEWLINE !in line && x == line + [NEWLINE] + rest
    ensures Drain(x) == if ByteLength(line) > MAX_FRAME_BYTES then Fed([], rest, false)
                        else Then(NonEmpty(line), Drain(rest))
  {
    assert x[|line|] == NEWLINE;
    assert forall j | 0 <= j < |line| :: x[j] == line[j] && line[j] in line;
    assert IndexOf(x, NEWLINE) == |line|;
    assert x[..|line|] == line && x[|line| + 1..] == rest;
  }

  /** What `d` made of a text and `b` of what it left, followed by more, is `a`. */
  predicate Extends(d: Fed, a: Fed, b: Fed) {
    if d.ok then a == Then(d.lines, b) else a.lines == d.lines && !a.ok
  }

  lemma ExtendsThen(lines: seq<Text>, d: Fed, a: Fed, b: Fed)
    requires Extends(d, a, b)
    ensures Extends(Then(lines, d), Then(lines, a), b)
  {
    ThenThen(lines, d.lines, b);
  }

  /** One line read first: both go on from there, or both stop at it. */
  lemma ExtendsAfterLine(over: bool, lines: seq<Text>, rest: Text, more: Text, d: Fed, a: Fed, b: Fed)
    requires Extends(d, a, b)
    ensures Extends(if over then Fed([], rest, false) else Then(lines, d),
                    if over then Fed([], more, false) else Then(lines, a), b)
  {
    ExtendsThen(lines, d, a, b);
  }

  ghost predicate Continues(x: Text, y: Text) {
    Extends(Drain(x), Drain(x + y), Drain(Drain(x).buffer + y))
  }

  lemma {:induction false} DrainAppend(x: Text, y: Text)
    ensures Continues(x, y)
    decreases |x|
  {
    if NEWLINE in x {
      var k := IndexOf(x, NEWLINE);
      var line, rest := x[..k], x[k + 1..];
      assert x == line + [NEWLINE] + rest && x + y == line + [NEWLINE] + (rest + y);
      DrainFirst(x, line, rest);
      DrainFirst(x + y, line, rest + y);
      DrainAppend(rest, y);
      ExtendsAfterLine(ByteLength(line) > MAX_FRAME_BYTES, NonEmpty(line), rest, rest + y,
                       Drain(rest), Drain(rest + y), Drain(Drain(rest).buffer + y));
    } else {
      ThenThen([], [], Drain(x + y));
    }
  }

  lemma DrainedBuffer(buffer: Text)
    ensures Drain(buffer).ok ==> NEWLINE !in Drain(buffer).buffer
    decreases |buffer|
  {
    if NEWLINE in buffer { DrainedBuffer(buffer[IndexOf(buffer, NEWLINE) + 1..]); }
  }

  /** A line that has not ended but is over the limit is refused later if not now, and hands nothing on. */
  lemma OverlongPartial(partial: Text, rest: Text)
    requires NEWLINE !in partial && ByteLength(partial) > MAX_FRAME_BYTES
    ensures var fed := Drain(partial + rest);
      fed.lines == [] && (fed.ok ==> ByteLength(fed.buffer) > MAX_FRAME_BYTES)
  {
    var text := partial + rest;
    assert text[..|partial|] == partial;
    if NEWLINE in text {
      var k := IndexOf(text, NEWLINE);
      assert forall i | 0 <= i < |partial| :: text[i] == partial[i];
      assert k >= |partial|;
      ByteLengthMonotone(text, |partial|, k);
    } else {
      ByteLengthMonotone(text, |partial|, |text|);
      assert text[..|text|] == text;
    }
  }

  /** The lines handed on depend only on the stream. So does whether it is refused, unless an
      unfinished last line is over the limit. */
  lemma {:induction false} ChunkingDoesNotMatter(buffer: Text, chunks: seq<Text>)
    requires NEWLINE !in buffer
    ensures var fed, whole := Feed(buffer, chunks), Drain(buffer + Concat(chunks));
      && fed.lines == whole.lines
      && (!whole.ok ==> !fed.ok)
      && (whole.ok && ByteLength(whole.buffer) <= MAX_FRAME_BYTES ==> fed == whole)
    decreases |chunks|
  {
    if chunks == [] {
      assert buffer + Concat(chunks) == buffer;
    } else {
      var all, rest := buffer + chunks[0], Concat(chunks[1..]);
      assert buffer + Concat(chunks) == all + rest;
      if NEWLINE !in all && ByteLength(all) > MAX_FRAME_BYTES {
        OverlongPartial(all, rest);
      } else {
        DrainAppend(all, rest);
        DrainedBuffer(all);
        if Drain(all).ok { ChunkingDoesNotMatter(Drain(all).buffer, chunks[1..]); }
      }
    }
  }

  // ----- which lines are handed on -----

  function NonEmptyLines(lines: seq<Text>): seq<Text> {
    if lines == [] then [] else (if lines[0] == [] then [] else [lines[0]]) + NonEmptyLines(lines[1..])
  }

  predicate AllFit(lines: seq<Text>) {
    forall i | 0 <= i < |lines| :: ByteLength(lines[i]) <= MAX_FRAME_BYTES
  }

  /** The first line over the limit. */
  predicate FirstOver(lines: seq<Text>, k: nat) {
    k < |lines| && AllFit(lines[..k]) && ByteLength(lines[k]) > MAX_FRAME_BYTES
  }

  /** What is handed on of complete lines: all that are not empty, or those before the first over the
      limit. */
  ghost predicate HandedOn(lines: seq<Text>, fed: Fed) {
    if fed.ok then AllFit(lines) && fed.lines == NonEmptyLines(lines)
    else exists k: nat :: FirstOver(lines, k) && fed.lines == NonEmptyLines(lines[..k])
  }

  predicate CutIntoLines(text: Text, complete: seq<Text>, rest: Text) {
    Split(text, NEWLINE) == complete + [rest]
  }

  lemma LineFirst(line: Text, rest: Text, complete: seq<Text>, last: Text)
    requires NEWLINE !in line && CutIntoLines(rest, complete, last)
    ensures CutIntoLines(line + [NEWLINE] + rest, [line] + complete, last)
  {
    SplitFirst(line, NEWLINE, rest);
    assert [line] + (complete + [last]) == ([line] + complete) + [last];
  }

  /** A text is read by its complete lines, and the rest stays buffered. */
  lemma {:induction false} DrainExactly(text: Text) returns (complete: seq<Text>, last: Text)
    ensures CutIntoLines(text, complete, last)
    ensures HandedOn(complete, Drain(text)) && (Drain(text).ok ==> Drain(text).buffer == last)
    decreases |text|
  {
    if NEWLINE !in text {
      complete, last := [], text;
      assert [] + [text] == [text];
    } else {
      var k := IndexOf(text, NEWLINE);
      var line, rest := text[..k], text[k + 1..];
      assert text == line + [NEWLINE] + rest;
      complete, last := DrainExactly(rest);
      DrainFirst(text, line, rest);
      LineFirst(line, rest, complete, last);
      HandedOnMore(line, complete, rest, Drain(rest));
      complete := [line] + complete;
    }
  }

  lemma HandedOnMore(line: Text, later: seq<Text>, rest: Text, fed: Fed)
    requires HandedOn(later, fed)
    ensures HandedOn([line] + later,
                     if ByteLength(line) > MAX_FRAME_BYTES then Fed([], rest, false) else Then(NonEmpty(line), fed))
  {
    var all := [line] + later;
    assert all[1..] == later;
    assert forall i | 0 < i < |all| :: all[i] == later[i - 1];
    if ByteLength(line) > MAX_FRAME_BYTES {
      assert FirstOver(all, 0) && all[..0] == [];
    } else if !fed.ok {
      var k: nat :| FirstOver(later, k) && fed.lines == NonEmptyLines(later[..k]);
      assert all[..k + 1] == [line] + later[..k] && all[..k + 1][1..] == later[..k];
      assert all[k + 1] == later[k];
      assert FirstOver(all, k + 1);
    }
  }

  // ----- frames -----

  /** What the replacer in `serializeMcpDaemonEnvelope` counts for one key and value. */
  function Estimate(key: Text, t: Tree): nat
    decreases t
  {
    ByteLength(key) + 4 +
    match t
    case Leaf(v) => if v.String? then ByteLength(v.s) + 2 else 16
    case List(items) => EstimateItems(items, 0)
    case Record(members) => EstimateMembers(members)
  }

  function EstimateItems(items: seq<Tree>, index: nat): nat
    decreases items
  {
    if items == [] then 0 else Estimate(Decimal(index), items[0]) + EstimateItems(items[1..], index + 1)
  }

  function EstimateMembers(members: seq<Member>): nat
    decreases members
  {
    if members == [] then 0
    else Estimate(members[0].key, members[0].tree) + EstimateMembers(members[1..])
  }

  /** The keys and values that `JSON.stringify` visits: the items of an array under their indexes. */
  datatype Visit = Visit(key: Text, tree: Tree)

  function Visits(key: Text, t: Tree): seq<Visit>
    decreases t
  {
    [Visit(key, t)]
    + match t
      case Leaf(_) => []
      case List(items) => ItemVisits(items, 0)
      case Record(members) => MemberVisits(members)
  }

  function ItemVisits(items: seq<Tree>, index: nat): seq<Visit>
    decreases items
  {
    if items == [] then [] else Visits(Decimal(index), items[0]) + ItemVisits(items[1..], index + 1)
  }

  function MemberVisits(members: seq<Member>): seq<Visit>
    decreases members
  {
    if members == [] then [] else Visits(members[0].key, members[0].tree) + MemberVisits(members[1..])
  }

  /** What one visit adds: the key and four, the text of a string and two, sixteen for other scalars. */
  function Cost(v: Visit): nat {
    ByteLength(v.key) + 4
    + if !v.tree.Leaf? then 0 else if v.tree.scalar.String? then ByteLength(v.tree.scalar.s) + 2 else 16
  }

  function Costs(visits: seq<Visit>): nat {
    if visits == [] then 0 else Cost(visits[0]) + Costs(visits[1..])
  }

  lemma {:induction false} CostsAdd(a: seq<Visit>, b: seq<Visit>)
    ensures Costs(a + b) == Costs(a) + Costs(b)
  {
    if a == [] {
      assert a + b == b;
    } else {
      assert (a + b)[1..] == a[1..] + b;
      CostsAdd(a[1..], b);
    }
  }

  /** The estimate is what all visits add. */
  lemma {:induction false} EstimateExactly(key: Text, t: Tree)
    ensures Estimate(key, t) == Costs(Visits(key, t))
    decreases t, 1
  {
    var first, below := [Visit(key, t)], Visits(key, t)[1..];
    CostsAdd(first, below);
    assert first[1..] == [] && Visits(key, t) == first + below;
    match t
    case Leaf(_) => assert below == [];
    case List(items) => ItemsEstimated(items, 0); assert below == ItemVisits(items, 0);
    case Record(members) => MembersEstimated(members); assert below == MemberVisits(members);
  }

  lemma {:induction false} ItemsEstimated(items: seq<Tree>, index: nat)
    ensures EstimateItems(items, index) == Costs(ItemVisits(items, index))
    decreases items, 0
  {
    if items != [] {
      EstimateExactly(Decimal(index), items[0]);
      ItemsEstimated(items[1..], index + 1);
      CostsAdd(Visits(Decimal(index), items[0]), ItemVisits(items[1..], index + 1));
    }
  }

  lemma {:induction false} MembersEstimated(members: seq<Member>)
    ensures EstimateMembers(members) == Costs(MemberVisits(members))
    decreases members, 0
  {
    if members != [] {
      EstimateExactly(members[0].key, members[0].tree);
      MembersEstimated(members[1..]);
      CostsAdd(Visits(members[0].key, members[0].tree), MemberVisits(members[1..]));
    }
  }

  /** `serializeMcpDaemonEnvelope`; `None` where it throws. */
  function Serialize(envelope: Tree): Option<Text> {
    var text := Stringify(envelope);
    if Estimate([], envelope) > MAX_FRAME_BYTES || ByteLength(text) > MAX_FRAME_BYTES then None
    else Some(text + [NEWLINE])
  }

  lemma {:induction false} QuoteBodyIsOneLine(s: Text)
    ensures NEWLINE !in QuoteBody(s)
  {
    if s != [] {
      if High(s[0]) && |s| > 1 && Low(s[1]) { QuoteBodyIsOneLine(s[2..]); } else { QuoteBodyIsOneLine(s[1..]); }
    }
  }

  lemma ScalarIsOneLine(v: Scalar)
    ensures NEWLINE !in StableJson(v)
  {
    assert NEWLINE !in Of("null") && NEWLINE !in Of("true") && NEWLINE !in Of("false");
    if v.String? { QuoteBodyIsOneLine(v.s); }
  }

  /** JSON text has no raw newline, so it fits on one line. */
  lemma {:induction false} EnvelopeIsOneLine(t: Tree)
    ensures NEWLINE !in Stringify(t)
    decreases t, 1
  {
    match t
    case Leaf(v) => ScalarIsOneLine(v);
    case List(items) => ItemsAreOneLine(items);
    case Record(members) => MembersAreOneLine(members);
  }

  lemma {:induction false} ItemsAreOneLine(items: seq<Tree>)
    ensures NEWLINE !in StringifyItems(items)
    decreases items, 0
  {
    if items != [] {
      EnvelopeIsOneLine(items[0]);
      ItemsAreOneLine(items[1..]);
    }
  }

  lemma {:induction false} MembersAreOneLine(members: seq<Member>)
    ensures NEWLINE !in StringifyMembers(members)
    decreases members, 0
  {
    if members != [] {
      QuoteBodyIsOneLine(members[0].key);
      EnvelopeIsOneLine(members[0].tree);
      MembersAreOneLine(members[1..]);
    }
  }

  /** Envelopes sent, and their frames. */
  ghost predicate Sent(envelopes: seq<Tree>, frames: seq<Text>) {
    && |frames| == |envelopes|
    && forall i | 0 <= i < |frames| :: Serialize(envelopes[i]) == Some(frames[i])
  }

  function Lines(envelopes: seq<Tree>): (lines: seq<Text>)
    ensures |lines| == |envelopes| && forall i | 0 <= i < |lines| :: lines[i] == Stringify(envelopes[i])
  {
    seq(|envelopes|, i requires 0 <= i < |envelopes| => Stringify(envelopes[i]))
  }

  lemma {:induction false} SerializedShape(t: Tree)
    requires Serialize(t).Some?
    ensures Serialize(t).value == Stringify(t) + [NEWLINE] && ByteLength(Stringify(t)) <= MAX_FRAME_BYTES
  {
  }

  /** Lines that fit, and their frames. */
  ghost predicate Framed(lines: seq<Text>, frames: seq<Text>) {
    && |lines| == |frames|
    && forall i | 0 <= i < |lines| ::
         && frames[i] == lines[i] + [NEWLINE]
         && lines[i] != [] && NEWLINE !in lines[i] && ByteLength(lines[i]) <= MAX_FRAME_BYTES
  }

  lemma {:induction false} SentIsFramed(envelopes: seq<Tree>, frames: seq<Text>)
    requires Sent(envelopes, frames)
    ensures Framed(Lines(envelopes), frames)
  {
    forall i | 0 <= i < |envelopes|
      ensures var line := Lines(envelopes)[i];
        && frames[i] == line + [NEWLINE]
        && line != [] && NEWLINE !in line && ByteLength(line) <= MAX_FRAME_BYTES
    {
      SerializedShape(envelopes[i]);
      EnvelopeIsOneLine(envelopes[i]);
      FirstOfTree(envelopes[i]);
    }
  }

  lemma {:induction false} FramesDrain(lines: seq<Text>, frames: seq<Text>)
    requires Framed(lines, frames)
    ensures Drain(Concat(frames)) == Fed(lines, [], true)
    decreases |frames|
  {
    if frames != [] {
      FramesDrain(lines[1..], frames[1..]);
      DrainFirst(frames[0] + Concat(frames[1..]), lines[0], Concat(frames[1..]));
      assert lines == [lines[0]] + lines[1..];
    }
  }

  /** However the frames are cut into chunks, the client reads exactly what the envelopes
      sent mean. */
  lemma FramingRoundTrip(envelopes: seq<Tree>, frames: seq<Text>, chunks: seq<Text>)
    requires Sent(envelopes, frames) && Concat(chunks) == Concat(frames)
    ensures var fed := Feed([], chunks);
      && fed.ok && fed.buffer == [] && |fed.lines| == |envelopes|
      && forall i | 0 <= i < |envelopes| :: ReadValue(fed.lines[i]) == Some((Meaning(envelopes[i]), []))
  {
    SentIsFramed(envelopes, frames);
    FramesDrain(Lines(envelopes), frames);
    ChunkingDoesNotMatter([], chunks);
    assert [] + Concat(chunks) == Concat(frames);
    forall i | 0 <= i < |envelopes| ensures ReadValue(Stringify(envelopes[i])) == Some((Meaning(envelopes[i]), [])) {
      StringifyReadsBack(envelopes[i], []);
      assert Stringify(envelopes[i]) + [] == Stringify(envelopes[i]);
    }
  }
}
