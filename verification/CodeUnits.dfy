/** Text as both runtimes see it: a sequence of code units.

    The same type holds the 16-bit units of a JavaScript string, the bytes the Rust matcher works on,
    and the code points both encode. */
module CodeUnits {

  type Unit = u: int | 0 <= u < 0x11_0000

  type Text = seq<Unit>

  const NEWLINE: Unit := 10
  const CARRIAGE: Unit := 13
  const STAR: Unit := 42
  const SLASH: Unit := 47
  const QUESTION: Unit := 63
  const BACKSLASH: Unit := 92

  /** The code units of a literal. */
  function Of(s: string): (t: Text)
    ensures |t| == |s|
    ensures forall i | 0 <= i < |s| :: t[i] == s[i] as int
  {
    seq(|s|, i requires 0 <= i < |s| => s[i] as int)
  }

  /** `parts.join("")`. */
  function Concat(parts: seq<Text>): Text {
    if parts == [] then [] else parts[0] + Concat(parts[1..])
  }

  /** `text.split(sep)`: the pieces between separators; always at least one. */
  function Split(text: Text, sep: Unit): (parts: seq<Text>)
    ensures |parts| >= 1
    ensures forall i | 0 <= i < |parts| :: sep !in parts[i]
    ensures Join(parts, sep) == text
    ensures |parts| == 1 <==> sep !in text
  {
    if sep !in text then [text]
    else
      var k := IndexOf(text, sep);
      var rest := Split(text[k + 1..], sep);
      assert text == text[..k] + [sep] + text[k + 1..];
      [text[..k]] + rest
  }

  /** `text.indexOf(c)` for a unit that occurs. */
  function IndexOf(text: Text, c: Unit): (k: nat)
    requires c in text
    ensures k < |text| && text[k] == c
    ensures forall j | 0 <= j < k :: text[j] != c
  {
    if text[0] == c then 0 else 1 + IndexOf(text[1..], c)
  }

  /** `parts.join(sep)`. */
  function Join(parts: seq<Text>, sep: Unit): Text
  {
    if parts == [] then []
    else if |parts| == 1 then parts[0]
    else parts[0] + [sep] + Join(parts[1..], sep)
  }

  lemma {:induction false} IndexOfFirst(text: Text, c: Unit, k: nat)
    requires k < |text| && text[k] == c && forall j | 0 <= j < k :: text[j] != c
    ensures c in text && IndexOf(text, c) == k
  {
  }

  lemma {:induction false} SplitFirst(first: Text, sep: Unit, rest: Text)
    requires sep !in first
    ensures Split(first + [sep] + rest, sep) == [first] + Split(rest, sep)
  {
    var text := first + [sep] + rest;
    assert text[|first|] == sep;
    assert forall j | 0 <= j < |first| :: text[j] == first[j];
    IndexOfFirst(text, sep, |first|);
    assert text[..|first|] == first && text[|first| + 1..] == rest;
  }

  /** Splitting undoes joining of separator-free pieces. */
  lemma {:induction false} SplitJoin(parts: seq<Text>, sep: Unit)
    requires |parts| >= 1
    requires forall i | 0 <= i < |parts| :: sep !in parts[i]
    ensures Split(Join(parts, sep), sep) == parts
  {
    if |parts| > 1 {
      SplitJoin(parts[1..], sep);
      SplitFirst(parts[0], sep, Join(parts[1..], sep));
    }
  }

  lemma Associates(a: Text, b: Text, c: Text)
    ensures (a + b) + c == a + (b + c)
  {
  }

  lemma Halves(a: Text, b: Text)
    ensures (a + b)[..|a|] == a && (a + b)[|a|..] == b
  {
  }
}
