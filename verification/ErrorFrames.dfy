/** The two envelopes that answer a tool call, and the sizes that decide whether an error fits a frame:
    the serializer's estimate counts the raw texts, the frame their printed form, and both add up member
    by member because every piece begins or ends with an ASCII unit. */
module ErrorFrames {
  import opened CodeUnits
  import opened Unicode
  import opened Json
  import opened CanonicalJson
  import opened OrderedJson
  import opened Framing

  function Str(s: Text): Tree { Leaf(String(s)) }

  function ErrorEnvelope(id: Text, message: Text): Tree {
    Record([Member(Of("id"), Str(id)), Member(Of("error"), Str(message))])
  }

  function ResultEnvelope(id: Text, result: Tree): Tree {
    Record([Member(Of("id"), Str(id)), Member(Of("result"), result)])
  }

  /** Units that are printed as they are. */
  predicate Printable(s: Text) {
    forall i | 0 <= i < |s| :: 0x20 <= s[i] < 0x80 && s[i] != QUOTE && s[i] != BACKSLASH
  }

  lemma {:induction false} PrintableAsIs(s: Text)
    requires Printable(s)
    ensures QuoteBody(s) == s && ByteLength(s) == |s|
  {
    if s != [] {
      PrintableAsIs(s[1..]);
      assert !High(s[0]) && QuoteUnit(s[0]) == [s[0]];
      assert s == [s[0]] + s[1..];
    }
  }

  lemma OneByte(c: Unit)
    requires c < 0x80
    ensures ByteLength([c]) == 1
  {
    assert [c][1..] == [];
  }

  /** Bytes add up where one of the neighbours is ASCII. */
  lemma BytesAdd(a: Text, b: Text)
    requires (a != [] && a[|a| - 1] < 0x80) || (b != [] && b[0] < 0x80)
    ensures ByteLength(a + b) == ByteLength(a) + ByteLength(b)
  {
    ByteLengthConcat(a, b);
  }

  lemma QuotedBytes(s: Text)
    ensures ByteLength(Quote(s)) == ByteLength(QuoteBody(s)) + 2
    ensures Quote(s)[0] == QUOTE && Quote(s)[|Quote(s)| - 1] == QUOTE
  {
    OneByte(QUOTE);
    BytesAdd([QUOTE], QuoteBody(s));
    BytesAdd([QUOTE] + QuoteBody(s), [QUOTE]);
  }

  lemma MemberBytes(key: Text, s: Text)
    requires Printable(key)
    ensures var m := StringifyMember(Member(key, Str(s)));
      && ByteLength(m) == |key| + ByteLength(QuoteBody(s)) + 5
      && m != [] && m[0] == QUOTE && m[|m| - 1] == QUOTE
  {
    PrintableAsIs(key);
    QuotedBytes(key);
    QuotedBytes(s);
    OneByte(COLON);
    BytesAdd(Quote(key), [COLON]);
    BytesAdd(Quote(key) + [COLON], Quote(s));
    assert StringifyMember(Member(key, Str(s))) == Quote(key) + [COLON] + Quote(s);
  }

  lemma PairText(a: Member, b: Member)
    ensures Stringify(Record([a, b])) == [OPEN_OBJECT] + (StringifyMember(a) + [COMMA] + StringifyMember(b)) + [CLOSE_OBJECT]
  {
    assert [a, b][1..] == [b];
    assert StringifyMembers([b]) == StringifyMember(b);
  }

  lemma PairBytes(a: Member, b: Member)
    requires var x, y := StringifyMember(a), StringifyMember(b);
      x != [] && x[|x| - 1] == QUOTE && y != [] && y[|y| - 1] == QUOTE
    ensures ByteLength(Stringify(Record([a, b]))) == ByteLength(StringifyMember(a)) + ByteLength(StringifyMember(b)) + 3
  {
    var x, y := StringifyMember(a), StringifyMember(b);
    PairText(a, b);
    OneByte(COMMA);
    OneByte(OPEN_OBJECT);
    OneByte(CLOSE_OBJECT);
    BytesAdd(x, [COMMA]);
    BytesAdd(x + [COMMA], y);
    BytesAdd([OPEN_OBJECT], x + [COMMA] + y);
    BytesAdd([OPEN_OBJECT] + (x + [COMMA] + y), [CLOSE_OBJECT]);
  }

  lemma PairEstimate(a: Member, b: Member)
    ensures Estimate([], Record([a, b])) == 4 + Estimate(a.key, a.tree) + Estimate(b.key, b.tree)
  {
    assert [a, b][1..] == [b] && [b][1..] == [];
    assert EstimateMembers([b]) == Estimate(b.key, b.tree) + EstimateMembers([]);
    assert EstimateMembers([a, b]) == Estimate(a.key, a.tree) + EstimateMembers([b]);
  }

  lemma MemberEstimate(key: Text, s: Text)
    requires Printable(key)
    ensures Estimate(key, Str(s)) == |key| + ByteLength(s) + 6
  {
    PrintableAsIs(key);
  }

  lemma TwoTexts(k1: Text, s1: Text, k2: Text, s2: Text)
    requires Printable(k1) && Printable(k2)
    ensures var t := Record([Member(k1, Str(s1)), Member(k2, Str(s2))]);
      && Estimate([], t) == |k1| + |k2| + 16 + ByteLength(s1) + ByteLength(s2)
      && ByteLength(Stringify(t)) == |k1| + |k2| + 13 + ByteLength(QuoteBody(s1)) + ByteLength(QuoteBody(s2))
  {
    var a, b := Member(k1, Str(s1)), Member(k2, Str(s2));
    MemberBytes(k1, s1);
    MemberBytes(k2, s2);
    MemberEstimate(k1, s1);
    MemberEstimate(k2, s2);
    PairBytes(a, b);
    PairEstimate(a, b);
  }

  lemma FitsWhenBothDo(t: Tree)
    ensures Serialize(t).Some? <==> Estimate([], t) <= MAX_FRAME_BYTES && ByteLength(Stringify(t)) <= MAX_FRAME_BYTES
  {
  }

  /** At most six bytes are printed for a unit. */
  lemma {:induction false} PrintedAtMost(s: Text)
    ensures ByteLength(QuoteBody(s)) <= 6 * |s| && ByteLength(s) <= 3 * |s|
  {
    if s != [] {
      if High(s[0]) && |s| > 1 && Low(s[1]) {
        PrintedAtMost(s[2..]);
        AtMostThreeEach([s[0], s[1]]);
        ByteLengthConcat([s[0], s[1]], QuoteBody(s[2..]));
      } else {
        PrintedAtMost(s[1..]);
        UnitAtMost(s[0]);
        ByteLengthConcat(QuoteUnit(s[0]), QuoteBody(s[1..]));
      }
    }
  }

  lemma {:induction false} AtMostThreeEach(s: Text)
    ensures ByteLength(s) <= 3 * |s|
    ensures (forall i | 0 <= i < |s| :: s[i] < 0x80) ==> ByteLength(s) == |s|
  {
    if s != [] {
      if High(s[0]) && |s| > 1 && Low(s[1]) { AtMostThreeEach(s[2..]); } else { AtMostThreeEach(s[1..]); }
    }
  }

  lemma UnitAtMost(u: Unit)
    ensures ByteLength(QuoteUnit(u)) <= 6
  {
    AtMostThreeEach(QuoteUnit(u));
  }

  /** A text of any length, one byte a unit. */
  function Letters(n: nat): (t: Text)
    ensures |t| == n && Printable(t)
  {
    seq(n, i requires 0 <= i < n => 'a' as int)
  }

  lemma LongTextsExist(n: nat)
    ensures ByteLength(Letters(n)) == n
  {
    PrintableAsIs(Letters(n));
  }
}
