/** Bounding the content of a tool result: the longest prefix within a byte limit, and the notice that
    replaces the rest. */
module OutputGuard {
  import opened CodeUnits
  import opened Unicode
  import opened Options
  import opened Basics
  import opened CanonicalJson

  // ----- the longest prefix that fits -----

  ghost predicate LongestPrefix(r: Text, text: Text, maxBytes: nat) {
    && r <= text && ByteLength(r) <= maxBytes
    && forall k | |r| < k <= |text| :: ByteLength(text[..k]) > maxBytes
  }

  /** `truncateUtf8`: a binary search that never looks inside the text. */
  method TruncateUtf8(text: Text, maxBytes: nat) returns (r: Text)
    ensures LongestPrefix(r, text, maxBytes)
    ensures ByteLength(text) <= maxBytes ==> r == text
  {
    if ByteLength(text) <= maxBytes { return text; }
    var low, high := 0, |text|;
    while low < high
      invariant 0 <= low <= high <= |text|
      invariant ByteLength(text[..low]) <= maxBytes
      invariant forall k | high < k <= |text| :: ByteLength(text[..k]) > maxBytes
    {
      var middle := (low + high + 1) / 2;
      if ByteLength(text[..middle]) <= maxBytes {
        low := middle;
      } else {
        forall k | middle <= k <= |text| ensures ByteLength(text[..k]) > maxBytes {
          ByteLengthMonotone(text, middle, k);
        }
        high := middle - 1;
      }
    }
    return text[..low];
  }

  /** Only one prefix is the longest, so the search decides the same as trying every length. */
  lemma LongestPrefixIsUnique(a: Text, b: Text, text: Text, maxBytes: nat)
    requires LongestPrefix(a, text, maxBytes) && LongestPrefix(b, text, maxBytes)
    ensures a == b
  {
    assert text[..|a|] == a && text[..|b|] == b;
  }

  // ----- lines -----

  function Newlines(text: Text): nat {
    if text == [] then 0 else (if text[0] == NEWLINE then 1 else 0) + Newlines(text[1..])
  }

  /** `text.split("\n").length`. */
  function LineCount(text: Text): nat {
    |Split(text, NEWLINE)|
  }

  lemma {:induction false} NewlinesConcat(a: Text, b: Text)
    ensures Newlines(a + b) == Newlines(a) + Newlines(b)
  {
    if a == [] {
      assert a + b == b;
    } else {
      assert (a + b)[1..] == a[1..] + b;
      NewlinesConcat(a[1..], b);
    }
  }

  lemma {:induction false} NewlinesNone(text: Text)
    requires NEWLINE !in text
    ensures Newlines(text) == 0
  {
    if text != [] { NewlinesNone(text[1..]); }
  }

  lemma {:induction false} NewlinesJoin(parts: seq<Text>)
    requires parts != [] && forall i | 0 <= i < |parts| :: NEWLINE !in parts[i]
    ensures Newlines(Join(parts, NEWLINE)) == |parts| - 1
  {
    NewlinesNone(parts[0]);
    if |parts| > 1 {
      var rest := Join(parts[1..], NEWLINE);
      NewlinesJoin(parts[1..]);
      NewlinesConcat(parts[0] + [NEWLINE], rest);
      NewlinesConcat(parts[0], [NEWLINE]);
      assert [NEWLINE][1..] == [];
    }
  }

  lemma LinesAreNewlines(text: Text)
    ensures LineCount(text) == 1 + Newlines(text)
  {
    NewlinesJoin(Split(text, NEWLINE));
  }

  // ----- blocks -----

  datatype Block = TextBlock(text: Text) | ImageBlock(data: Text, mimeType: Text)

  datatype Truncation = Truncation(originalBytes: nat, originalLines: nat, returnedBytes: nat, returnedLines: nat)

  /** `Buffer.byteLength(data, "base64")`. */
  function Base64Bytes(data: Text): nat {
    var unpadded := if data != [] && data[|data| - 1] == '=' as int then |data| - 1 else |data|;
    var bytes := if unpadded > 1 && data[unpadded - 1] == '=' as int then unpadded - 1 else unpadded;
    bytes * 3 / 4
  }

  /** The length of padded base64 text of `n` bytes, section 4 of RFC 4648. */
  function EncodedLength(n: nat): nat { (n + 2) / 3 * 4 }

  function Padding(n: nat): nat { if n % 3 == 0 then 0 else 3 - n % 3 }

  /** On padded base64 text it counts the bytes. */
  lemma Base64BytesCounts(data: Text, n: nat)
    requires |data| == EncodedLength(n)
    requires forall i | 0 <= i < |data| :: data[i] == '=' as int <==> i >= |data| - Padding(n)
    ensures Base64Bytes(data) == n
  {
    var q, r := n / 3, n % 3;
    assert n == 3 * q + r;
    if r == 0 {
      assert (n + 2) / 3 == q && |data| == 4 * q;
    } else {
      assert (n + 2) / 3 == q + 1 && |data| == 4 * q + 4;
    }
  }

  function Texts(content: seq<Block>): seq<Text> {
    if content == [] then []
    else (if content[0].TextBlock? then [content[0].text] else []) + Texts(content[1..])
  }

  function ImageBytes(content: seq<Block>): nat {
    if content == [] then 0
    else (if content[0].ImageBlock? then Base64Bytes(content[0].data) else 0) + ImageBytes(content[1..])
  }

  function Images(content: seq<Block>): nat {
    if content == [] then 0 else (if content[0].ImageBlock? then 1 else 0) + Images(content[1..])
  }

  function NoticeText(bytes: nat, lines: nat, images: nat): Text {
    Of("[Output truncated: ") + Decimal(bytes) + Of(" bytes, ") + Decimal(lines) + Of(" lines")
    + (if images > 0 then Of(", ") + Decimal(images) + Of(" image(s) omitted") else []) + Of(".]")
  }

  function Notice(bytes: nat, lines: nat, images: nat): Text {
    [NEWLINE, NEWLINE] + NoticeText(bytes, lines, images)
  }

  lemma NoNewline(s: string)
    requires forall i | 0 <= i < |s| :: s[i] != '\n'
    ensures NEWLINE !in Of(s)
  {
  }

  lemma NoticeIsOneLine(bytes: nat, lines: nat, images: nat)
    ensures NEWLINE !in NoticeText(bytes, lines, images)
  {
    NoNewline("[Output truncated: ");
    NoNewline(" bytes, ");
    NoNewline(" lines");
    NoNewline(", ");
    NoNewline(" image(s) omitted");
    NoNewline(".]");
  }

  lemma NoticeNewlines(bytes: nat, lines: nat, images: nat)
    ensures Newlines(Notice(bytes, lines, images)) == 2
  {
    var text := NoticeText(bytes, lines, images);
    NoticeIsOneLine(bytes, lines, images);
    NewlinesNone(text);
    NewlinesConcat([NEWLINE, NEWLINE], text);
    assert [NEWLINE, NEWLINE][1..] == [NEWLINE] && [NEWLINE][1..] == [];
  }

  /** All text blocks, one after the other. */
  function AllText(content: seq<Block>): Text {
    Join(Texts(content), NEWLINE)
  }

  function ContentBytes(content: seq<Block>): nat {
    ByteLength(AllText(content)) + ImageBytes(content)
  }

  function FirstLines(text: Text, maxLines: nat): Text {
    var lines := Split(text, NEWLINE);
    Join(lines[..if maxLines < |lines| then maxLines else |lines|], NEWLINE)
  }

  predicate WithinLimits(content: seq<Block>, maxBytes: nat, maxLines: nat) {
    ContentBytes(content) <= maxBytes && LineCount(AllText(content)) <= maxLines
  }

  function NoticeFor(content: seq<Block>): (notice: Text)
    ensures notice != [] && notice[0] == NEWLINE
  {
    Notice(ContentBytes(content), LineCount(AllText(content)), Images(content))
  }

  /** What replaces content over a limit: the longest prefix of the first lines that leaves room for
      the notice, and the notice. */
  ghost predicate Shortened(content: seq<Block>, maxBytes: nat, maxLines: nat, text: Text) {
    var notice := NoticeFor(content);
    && |notice| <= |text|
    && text[|text| - |notice|..] == notice
    && LongestPrefix(text[..|text| - |notice|], FirstLines(AllText(content), maxLines),
                     Max(maxBytes, ByteLength(notice)) - ByteLength(notice))
  }

  /** `guardContent`, with the limits taken from the environment (`positiveInteger` makes both at
      least one). */
  method GuardContent(content: seq<Block>, maxBytes: nat, maxLines: nat)
      returns (guarded: seq<Block>, truncated: Option<Truncation>)
    requires maxBytes >= 1 && maxLines >= 1
    ensures truncated.None? <==> WithinLimits(content, maxBytes, maxLines)
    ensures truncated.None? ==> guarded == content
    ensures truncated.Some? ==>
      && guarded == [TextBlock(AllText(guarded))]
      && Shortened(content, maxBytes, maxLines, AllText(guarded))
      && truncated.value == Truncation(ContentBytes(content), LineCount(AllText(content)),
                                       ByteLength(AllText(guarded)), LineCount(AllText(guarded)))
  {
    var text := AllText(content);
    var originalContentBytes := ByteLength(text) + ImageBytes(content);
    var originalLines := LineCount(text);
    if originalContentBytes <= maxBytes && originalLines <= maxLines {
      return content, None;
    }
    var linePreview := FirstLines(text, maxLines);
    var notice := NoticeFor(content);
    var preview := TruncateUtf8(linePreview, Max(maxBytes, ByteLength(notice)) - ByteLength(notice));
    var whole := preview + notice;
    guarded := [TextBlock(whole)];
    truncated := Some(Truncation(originalContentBytes, originalLines, ByteLength(whole), LineCount(whole)));
    AllTextOfOne(whole);
    assert whole[..|whole| - |notice|] == preview && whole[|whole| - |notice|..] == notice;
  }

  /** The bounds a shortened text keeps: the byte limit, unless the notice alone exceeds it, and two
      lines more than the line limit. */
  lemma ShortenedIsBounded(content: seq<Block>, maxBytes: nat, maxLines: nat, text: Text)
    requires maxLines >= 1 && Shortened(content, maxBytes, maxLines, text)
    ensures ByteLength(text) <= Max(maxBytes, ByteLength(NoticeFor(content)))
    ensures LineCount(text) <= maxLines + 2
  {
    var notice := NoticeFor(content);
    var preview := text[..|text| - |notice|];
    assert text == preview + notice;
    ByteLengthConcat(preview, notice);
    GuardedLines(AllText(content), maxLines, preview, notice);
    NoticeNewlines(ContentBytes(content), LineCount(AllText(content)), Images(content));
  }

  lemma AllTextOfOne(text: Text)
    ensures AllText([TextBlock(text)]) == text
  {
    assert Texts([TextBlock(text)]) == [text] + Texts([]);
  }

  lemma GuardedLines(text: Text, maxLines: nat, preview: Text, notice: Text)
    requires maxLines >= 1 && preview <= FirstLines(text, maxLines)
    ensures LineCount(preview + notice) <= maxLines + Newlines(notice)
  {
    var lines := Split(text, NEWLINE);
    var kept := lines[..if maxLines < |lines| then maxLines else |lines|];
    NewlinesJoin(kept);
    var whole := FirstLines(text, maxLines);
    NewlinesConcat(preview, whole[|preview|..]);
    assert whole == preview + whole[|preview|..];
    NewlinesConcat(preview, notice);
    LinesAreNewlines(preview + notice);
  }

  // ----- what the parts are -----

  lemma {:induction false} JoinPrefix(lines: seq<Text>, n: nat)
    requires 1 <= n < |lines|
    ensures Join(lines, NEWLINE) == Join(lines[..n], NEWLINE) + ([NEWLINE] + Join(lines[n..], NEWLINE))
  {
    var rest := lines[1..];
    if n == 1 {
      assert lines[..1] == [lines[0]] && lines[1..] == rest;
    } else {
      JoinPrefix(rest, n - 1);
      assert lines[..n][1..] == rest[..n - 1] && lines[n..] == rest[n - 1..];
      assert lines[..n][0] == lines[0];
    }
  }

  /** The first lines of a text are the part of it before its newline number `maxLines`, or all of it. */
  lemma {:induction false} FirstLinesExactly(text: Text, maxLines: nat)
    requires maxLines >= 1
    ensures var kept := FirstLines(text, maxLines);
      && kept <= text
      && (if Newlines(text) < maxLines then kept == text
          else Newlines(kept) == maxLines - 1 && |kept| < |text| && text[|kept|] == NEWLINE)
  {
    var lines := Split(text, NEWLINE);
    LinesAreNewlines(text);
    if maxLines < |lines| {
      JoinPrefix(lines, maxLines);
      NewlinesJoin(lines[..maxLines]);
    } else {
      assert lines[..|lines|] == lines;
    }
  }

  lemma {:induction false} TextsAdd(a: seq<Block>, b: seq<Block>)
    ensures Texts(a + b) == Texts(a) + Texts(b)
  {
    if a == [] {
      assert a + b == b;
    } else {
      TextsAdd(a[1..], b);
      assert (a + b)[1..] == a[1..] + b;
      assert (a + b)[0] == a[0];
    }
  }

  lemma {:induction false} ImagesAdd(a: seq<Block>, b: seq<Block>)
    ensures ImageBytes(a + b) == ImageBytes(a) + ImageBytes(b)
    ensures Images(a + b) == Images(a) + Images(b)
  {
    if a == [] {
      assert a + b == b;
    } else {
      ImagesAdd(a[1..], b);
      assert (a + b)[1..] == a[1..] + b;
      assert (a + b)[0] == a[0];
    }
  }

  /** The texts, the image bytes and the images of content are those of its parts, in order. */
  lemma PartsAdd(a: seq<Block>, b: seq<Block>)
    ensures Texts(a + b) == Texts(a) + Texts(b)
    ensures ImageBytes(a + b) == ImageBytes(a) + ImageBytes(b)
    ensures Images(a + b) == Images(a) + Images(b)
  {
    TextsAdd(a, b);
    ImagesAdd(a, b);
  }

  /** And of one block they are its text, or the bytes its padded base64 text encodes and one image. */
  lemma OneBlock(text: Text, data: Text, mimeType: Text, n: nat)
    requires |data| == EncodedLength(n)
    requires forall i | 0 <= i < |data| :: data[i] == '=' as int <==> i >= |data| - Padding(n)
    ensures var t, i := [TextBlock(text)], [ImageBlock(data, mimeType)];
      && Texts(t) == [text] && ImageBytes(t) == 0 && Images(t) == 0
      && Texts(i) == [] && ImageBytes(i) == n && Images(i) == 1
  {
    var t, i := [TextBlock(text)], [ImageBlock(data, mimeType)];
    Base64BytesCounts(data, n);
    assert t[1..] == [] && i[1..] == [];
  }

  /** The notice names the bytes and the lines, in this order, and the images if there are any. */
  lemma NoticeSays(bytes: nat, lines: nat, images: nat)
    ensures var counts := Of("[Output truncated: ") + Decimal(bytes) + Of(" bytes, ") + Decimal(lines) + Of(" lines");
      && counts <= NoticeText(bytes, lines, images)
      && (images > 0 ==> counts + (Of(", ") + Decimal(images)) <= NoticeText(bytes, lines, images))
  {
    var counts := Of("[Output truncated: ") + Decimal(bytes) + Of(" bytes, ") + Decimal(lines) + Of(" lines");
    var rest := if images > 0 then Of(", ") + Decimal(images) + Of(" image(s) omitted") else [];
    assert NoticeText(bytes, lines, images) == counts + rest + Of(".]");
  }
}
