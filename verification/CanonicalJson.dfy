/** The canonical JSON printer behind `sameJsonText`, and a reader that recovers the value from the
    printed text whatever follows it: the first unit tells the kinds of value apart, no printed value
    begins with a closing bracket, and a number ends where the digits do. */
module CanonicalJson {
  import opened CodeUnits
  import opened Json
  import opened Options
  import opened Unicode

  const QUOTE: Unit := 34
  const COMMA: Unit := 44
  const MINUS: Unit := 45
  const COLON: Unit := 58
  const OPEN_ARRAY: Unit := 91
  const CLOSE_ARRAY: Unit := 93
  const OPEN_OBJECT: Unit := 123
  const CLOSE_OBJECT: Unit := 125

  // ----- numbers -----

  predicate Digit(c: Unit) { 48 <= c <= 57 }

  function Decimal(n: nat): (t: Text)
    ensures t != [] && forall i | 0 <= i < |t| :: Digit(t[i])
  {
    if n < 10 then [48 + n] else Decimal(n / 10) + [48 + n % 10]
  }

  function PrintNumber(n: int): Text {
    if n < 0 then [MINUS] + Decimal(-n) else Decimal(n)
  }

  function ReadDigits(acc: nat, text: Text): (r: (nat, Text))
    ensures |r.1| <= |text|
    decreases text
  {
    if text != [] && Digit(text[0]) then ReadDigits(10 * acc + (text[0] - 48), text[1..]) else (acc, text)
  }

  lemma {:induction false} DigitsReadBack(n: nat, rest: Text)
    ensures ReadDigits(0, Decimal(n) + rest) == ReadDigits(n, rest)
  {
    if n < 10 {
      assert (Decimal(n) + rest)[1..] == rest;
    } else {
      var last := [48 + n % 10] + rest;
      DigitsReadBack(n / 10, last);
      assert Decimal(n) + rest == Decimal(n / 10) + last;
      assert last[1..] == rest;
    }
  }

  // ----- strings -----

  function HexDigit(n: nat): Unit
    requires n < 16
  {
    if n < 10 then 48 + n else 87 + n
  }

  function UnicodeEscape(u: Unit): Text
    requires u < 0x1_0000
  {
    [BACKSLASH, 'u' as int, HexDigit(u / 0x1000), HexDigit(u / 0x100 % 16), HexDigit(u / 16 % 16), HexDigit(u % 16)]
  }

  /** The units `JSON.stringify` writes with a two-character escape, and the second character. */
  function ShortEscape(u: Unit): Option<Unit> {
    if u == QUOTE || u == BACKSLASH then Some(u)
    else if u == 8 then Some('b' as int)
    else if u == 9 then Some('t' as int)
    else if u == 10 then Some('n' as int)
    else if u == 12 then Some('f' as int)
    else if u == 13 then Some('r' as int)
    else None
  }

  /** One unit outside a surrogate pair. */
  function QuoteUnit(u: Unit): (t: Text)
    ensures t != [] && t[0] != QUOTE
  {
    if ShortEscape(u).Some? then [BACKSLASH, ShortEscape(u).value]
    else if u < 0x20 || High(u) || Low(u) then UnicodeEscape(u)
    else [u]
  }

  /** The inside of `JSON.stringify(s)`: pairs as they are, lone surrogates escaped. */
  function QuoteBody(s: Text): Text {
    if s == [] then []
    else if High(s[0]) && |s| > 1 && Low(s[1]) then [s[0], s[1]] + QuoteBody(s[2..])
    else QuoteUnit(s[0]) + QuoteBody(s[1..])
  }

  function Quote(s: Text): Text {
    [QUOTE] + QuoteBody(s) + [QUOTE]
  }

  function HexValue(c: Unit): Option<nat> {
    if Digit(c) then Some(c - 48) else if 97 <= c <= 102 then Some(c - 87) else None
  }

  /** One escape sequence after its backslash: section 7 of RFC 8259. */
  function ReadEscape(text: Text): (r: Option<(Unit, Text)>)
    ensures r.Some? ==> |r.value.1| < |text|
  {
    if text == [] then None
    else
      var c := text[0];
      if c == QUOTE || c == BACKSLASH || c == SLASH then Some((c, text[1..]))
      else if c == 'b' as int then Some((8, text[1..]))
      else if c == 't' as int then Some((9, text[1..]))
      else if c == 'n' as int then Some((10, text[1..]))
      else if c == 'f' as int then Some((12, text[1..]))
      else if c == 'r' as int then Some((13, text[1..]))
      else if c == 'u' as int && |text| >= 5 then
        var a, b, d, e := HexValue(text[1]), HexValue(text[2]), HexValue(text[3]), HexValue(text[4]);
        if a.Some? && b.Some? && d.Some? && e.Some?
        then Some((0x1000 * a.value + 0x100 * b.value + 16 * d.value + e.value, text[5..]))
        else None
      else None
  }

  /** A string after its opening quote, and what follows its closing quote. */
  function ReadString(text: Text): (r: Option<(Text, Text)>)
    ensures r.Some? ==> |r.value.1| < |text|
  {
    if text == [] then None
    else if text[0] == QUOTE then Some(([], text[1..]))
    else if text[0] == BACKSLASH then
      var e := ReadEscape(text[1..]);
      if e.None? then None else Prepend(e.value.0, ReadString(e.value.1))
    else if text[0] < 0x20 then None
    else Prepend(text[0], ReadString(text[1..]))
  }

  function Prepend(u: Unit, r: Option<(Text, Text)>): (p: Option<(Text, Text)>)
    ensures r.Some? ==> p.Some? && p.value.1 == r.value.1
    ensures p.Some? ==> r.Some?
  {
    if r.Some? then Some(([u] + r.value.0, r.value.1)) else None
  }

  lemma HexDigitsAddUp(u: Unit)
    requires u < 0x1_0000
    ensures 0x1000 * (u / 0x1000) + 0x100 * (u / 0x100 % 16) + 16 * (u / 16 % 16) + u % 16 == u
  {
    TwoDigits(u);
    TwoDigits(u / 16);
  }

  lemma TwoDigits(u: nat)
    ensures u / 16 / 16 == u / 256 && u / 256 == (u / 16) / 16
    ensures 16 * (u / 16) + u % 16 == u && 16 * (u / 256) + u / 16 % 16 == u / 16
  {
  }

  lemma EscapeReadsBack(u: Unit, rest: Text)
    requires u < 0x1_0000
    ensures ReadEscape(UnicodeEscape(u)[1..] + rest) == Some((u, rest))
  {
    var text := UnicodeEscape(u)[1..] + rest;
    assert text[5..] == rest && text[0] == 'u' as int;
    assert text[1] == HexDigit(u / 0x1000) && text[2] == HexDigit(u / 0x100 % 16);
    assert text[3] == HexDigit(u / 16 % 16) && text[4] == HexDigit(u % 16);
    HexDigitsAddUp(u);
  }

  lemma UnitReadsBack(u: Unit, rest: Text)
    ensures ReadString(QuoteUnit(u) + rest) == Prepend(u, ReadString(rest))
  {
    var text := QuoteUnit(u) + rest;
    if ShortEscape(u).Some? {
      assert text[1..] == [ShortEscape(u).value] + rest;
      assert ([ShortEscape(u).value] + rest)[1..] == rest;
    } else if u < 0x20 || High(u) || Low(u) {
      assert text[1..] == UnicodeEscape(u)[1..] + rest;
      EscapeReadsBack(u, rest);
    } else {
      assert text[1..] == rest;
    }
  }

  lemma PairReadsBack(a: Unit, b: Unit, tail: Text, s: Text, rest: Text)
    requires High(a) && Low(b) && ReadString(tail) == Some((s, rest))
    ensures ReadString([a, b] + tail) == Some(([a, b] + s, rest))
  {
    assert [a, b] + tail == [a] + ([b] + tail);
    RawReadsBack(a, [b] + tail);
    RawReadsBack(b, tail);
    assert [a] + ([b] + s) == [a, b] + s;
  }

  lemma ClosingReads(rest: Text)
    ensures ReadString([QUOTE] + rest) == Some(([], rest))
  {
    assert ([QUOTE] + rest)[1..] == rest;
  }

  lemma PairStep(s: Text, closing: Text)
    requires |s| > 1 && High(s[0]) && Low(s[1])
    ensures QuoteBody(s) + closing == [s[0], s[1]] + (QuoteBody(s[2..]) + closing)
  {
    Associates([s[0], s[1]], QuoteBody(s[2..]), closing);
  }

  lemma UnitStep(s: Text, closing: Text)
    requires s != [] && !(High(s[0]) && |s| > 1 && Low(s[1]))
    ensures QuoteBody(s) + closing == QuoteUnit(s[0]) + (QuoteBody(s[1..]) + closing)
  {
    Associates(QuoteUnit(s[0]), QuoteBody(s[1..]), closing);
  }

  lemma {:induction false} BodyReadsBack(s: Text, rest: Text)
    ensures ReadString(QuoteBody(s) + ([QUOTE] + rest)) == Some((s, rest))
  {
    var closing := [QUOTE] + rest;
    if s == [] {
      assert QuoteBody(s) + closing == closing;
      ClosingReads(rest);
    } else if High(s[0]) && |s| > 1 && Low(s[1]) {
      BodyReadsBack(s[2..], rest);
      PairStep(s, closing);
      PairReadsBack(s[0], s[1], QuoteBody(s[2..]) + closing, s[2..], rest);
      assert s == [s[0], s[1]] + s[2..];
    } else {
      BodyReadsBack(s[1..], rest);
      UnitStep(s, closing);
      UnitReadsBack(s[0], QuoteBody(s[1..]) + closing);
      assert s == [s[0]] + s[1..];
    }
  }

  lemma RawReadsBack(u: Unit, rest: Text)
    requires u != QUOTE && u != BACKSLASH && u >= 0x20
    ensures ReadString([u] + rest) == Prepend(u, ReadString(rest))
  {
    assert ([u] + rest)[1..] == rest;
  }

  // ----- key order -----

  /** The order of `Array.prototype.sort` on strings: by code units. */
  predicate Before(a: Text, b: Text) {
    a == [] || (b != [] && (a[0] < b[0] || (a[0] == b[0] && Before(a[1..], b[1..]))))
  }

  lemma BeforeIsTotal(a: Text, b: Text)
    ensures Before(a, b) || Before(b, a)
    ensures Before(a, b) && Before(b, a) ==> a == b
  {
    if a != [] && b != [] && a[0] == b[0] {
      BeforeIsTotal(a[1..], b[1..]);
      if a[1..] == b[1..] { assert a == [a[0]] + a[1..] && b == [b[0]] + b[1..]; }
    }
  }

  lemma BeforeIsTransitive(a: Text, b: Text, c: Text)
    requires Before(a, b) && Before(b, c)
    ensures Before(a, c)
  {
    if a != [] && a[0] == b[0] == c[0] { BeforeIsTransitive(a[1..], b[1..], c[1..]); }
  }

  ghost predicate IsLeast(k: Text, keys: set<Text>) {
    k in keys && forall j | j in keys :: Before(k, j)
  }

  lemma {:induction false} LeastExists(keys: set<Text>) returns (least: Text)
    requires keys != {}
    ensures IsLeast(least, keys)
  {
    var k :| k in keys;
    BeforeIsTotal(k, k);
    least := k;
    if keys != {k} {
      var m := LeastExists(keys - {k});
      BeforeIsTotal(k, m);
      if Before(m, k) {
        least := m;
      } else {
        forall j | j in keys ensures Before(k, j) {
          if j != k { BeforeIsTransitive(k, m, j); }
        }
      }
    }
  }

  function Least(keys: set<Text>): (k: Text)
    requires keys != {}
    ensures k in keys && forall j | j in keys :: Before(k, j)
  {
    assert exists k :: IsLeast(k, keys) by { var k := LeastExists(keys); }
    assert forall a, b | a in keys && b in keys && Before(a, b) && Before(b, a) :: a == b by {
      forall a, b | a in keys && b in keys && Before(a, b) && Before(b, a) ensures a == b { BeforeIsTotal(a, b); }
    }
    var k :| k in keys && forall j | j in keys :: Before(k, j);
    k
  }

  /** `Object.keys(record).sort()`. */
  function SortedKeys(keys: set<Text>): (r: seq<Text>)
    ensures forall k :: k in r <==> k in keys
    ensures |r| == |keys|
    ensures forall i, j | 0 <= i < j < |r| :: r[i] != r[j] && Before(r[i], r[j])
  {
    if keys == {} then [] else var k := Least(keys); [k] + SortedKeys(keys - {k})
  }

  // ----- printing -----

  function StableJson(v: Value): Text
    decreases v
  {
    match v
    case Null => Of("null")
    case Bool(b) => if b then Of("true") else Of("false")
    case Number(n) => PrintNumber(n)
    case String(s) => Quote(s)
    case Array(items) => [OPEN_ARRAY] + StableItems(items) + [CLOSE_ARRAY]
    case Object(fields) => [OPEN_OBJECT] + StableMembers(v, fields, SortedKeys(fields.Keys)) + [CLOSE_OBJECT]
  }

  function StableItems(items: seq<Value>): Text
    decreases items
  {
    if items == [] then []
    else if |items| == 1 then StableJson(items[0])
    else StableJson(items[0]) + [COMMA] + StableItems(items[1..])
  }

  function StableMembers(ghost whole: Value, fields: map<Text, Value>, keys: seq<Text>): Text
    requires forall k | k in keys :: k in fields && fields[k] < whole
    decreases whole, 0, |keys|
  {
    if keys == [] then []
    else
      var member := Quote(keys[0]) + [COLON] + StableJson(fields[keys[0]]);
      if |keys| == 1 then member else member + [COMMA] + StableMembers(whole, fields, keys[1..])
  }

  // ----- reading -----

  function ReadValue(text: Text): (r: Option<(Value, Text)>)
    ensures r.Some? ==> |r.value.1| < |text|
    decreases |text|, 0
  {
    if text == [] then None
    else if Of("null") <= text then Some((Null, text[4..]))
    else if Of("true") <= text then Some((Bool(true), text[4..]))
    else if Of("false") <= text then Some((Bool(false), text[5..]))
    else if text[0] == QUOTE then
      var s := ReadString(text[1..]);
      if s.Some? then Some((String(s.value.0), s.value.1)) else None
    else if Digit(text[0]) then
      var d := ReadDigits(0, text);
      assert |d.1| < |text| by { assert d == ReadDigits(text[0] - 48, text[1..]); }
      Some((Number(d.0), d.1))
    else if text[0] == MINUS && |text| > 1 && Digit(text[1]) then
      var d := ReadDigits(0, text[1..]);
      Some((Number(0 - d.0), d.1))
    else if text[0] == OPEN_ARRAY && |text| > 1 then
      if text[1] == CLOSE_ARRAY then Some((Array([]), text[2..]))
      else
        var items := ReadItems(text[1..]);
        if items.Some? then Some((Array(items.value.0), items.value.1)) else None
    else if text[0] == OPEN_OBJECT && |text| > 1 then
      if text[1] == CLOSE_OBJECT then Some((Object(map[]), text[2..]))
      else
        var members := ReadMembers(text[1..]);
        if members.Some? then Some((Object(members.value.0), members.value.1)) else None
    else None
  }

  function ReadItems(text: Text): (r: Option<(seq<Value>, Text)>)
    ensures r.Some? ==> |r.value.1| < |text|
    decreases |text|, 1
  {
    var v := ReadValue(text);
    if v.None? || v.value.1 == [] then None
    else if v.value.1[0] == CLOSE_ARRAY then Some(([v.value.0], v.value.1[1..]))
    else if v.value.1[0] == COMMA then
      var more := ReadItems(v.value.1[1..]);
      if more.Some? then Some(([v.value.0] + more.value.0, more.value.1)) else None
    else None
  }

  function ReadMembers(text: Text): (r: Option<(map<Text, Value>, Text)>)
    ensures r.Some? ==> |r.value.1| < |text|
    decreases |text|, 1
  {
    if text == [] || text[0] != QUOTE then None
    else
      var key := ReadString(text[1..]);
      if key.None? || key.value.1 == [] || key.value.1[0] != COLON then None
      else
        var v := ReadValue(key.value.1[1..]);
        if v.None? || v.value.1 == [] then None
        else if v.value.1[0] == CLOSE_OBJECT then Some((map[key.value.0 := v.value.0], v.value.1[1..]))
        else if v.value.1[0] == COMMA then
          var more := ReadMembers(v.value.1[1..]);
          if more.Some? then Some((map[key.value.0 := v.value.0] + more.value.0, more.value.1)) else None
        else None
  }

  // ----- round trip -----

  /** Text after which a number has certainly ended. */
  predicate EndsNumber(rest: Text) {
    rest == [] || !Digit(rest[0])
  }

  /** First units of printed values: enough to tell the kinds apart. */
  lemma FirstUnit(v: Value)
    ensures StableJson(v) != []
    ensures StableJson(v)[0] != CLOSE_ARRAY && StableJson(v)[0] != CLOSE_OBJECT
  {
    match v
    case Null => assert Of("null")[0] == 'n' as int;
    case Bool(b) => assert Of("true")[0] == 't' as int && Of("false")[0] == 'f' as int;
    case Number(n) => assert n >= 0 ==> Digit(Decimal(n)[0]);
    case _ =>
  }

  lemma NoKeyword(text: Text)
    requires text != [] && text[0] !in {'n' as int, 't' as int, 'f' as int}
    ensures !(Of("null") <= text) && !(Of("true") <= text) && !(Of("false") <= text)
  {
    assert Of("null")[0] == 'n' as int && Of("true")[0] == 't' as int && Of("false")[0] == 'f' as int;
  }

  lemma KeywordReadsBack(v: Value, rest: Text)
    requires v.Null? || v.Bool?
    ensures ReadValue(StableJson(v) + rest) == Some((v, rest))
  {
    var text := StableJson(v) + rest;
    assert Of("null")[0] == 'n' as int && Of("true")[0] == 't' as int && Of("false")[0] == 'f' as int;
    assert text[0] == StableJson(v)[0] && text[|StableJson(v)|..] == rest;
  }

  lemma DigitsRead(text: Text, n: nat, rest: Text)
    requires text == Decimal(n) + rest && EndsNumber(rest)
    ensures text != [] && Digit(text[0]) && ReadDigits(0, text) == (n, rest)
  {
    DigitsReadBack(n, rest);
    assert text[0] == Decimal(n)[0];
  }

  lemma NegativeReads(text: Text, n: nat, rest: Text)
    requires text == [MINUS] + (Decimal(n) + rest) && EndsNumber(rest)
    ensures ReadValue(text) == Some((Number(0 - n), rest))
  {
    assert text[1..] == Decimal(n) + rest;
    DigitsRead(text[1..], n, rest);
    NoKeyword(text);
  }

  lemma NumberReadsBack(n: int, rest: Text)
    requires EndsNumber(rest)
    ensures ReadValue(PrintNumber(n) + rest) == Some((Number(n), rest))
  {
    var text := PrintNumber(n) + rest;
    if n < 0 {
      Associates([MINUS], Decimal(-n), rest);
      NegativeReads(text, -n, rest);
    } else {
      DigitsRead(text, n, rest);
      NoKeyword(text);
    }
  }

  lemma StringReadsBack(s: Text, rest: Text)
    ensures ReadValue(Quote(s) + rest) == Some((String(s), rest))
  {
    var text := Quote(s) + rest;
    assert text[1..] == QuoteBody(s) + ([QUOTE] + rest);
    BodyReadsBack(s, rest);
    NoKeyword(text);
  }

  lemma ArrayReads(inner: Text)
    requires inner != []
    ensures var r := ReadValue([OPEN_ARRAY] + inner);
      if inner[0] == CLOSE_ARRAY then r == Some((Array([]), inner[1..]))
      else if ReadItems(inner).Some? then r == Some((Array(ReadItems(inner).value.0), ReadItems(inner).value.1))
      else r == None
  {
    var text := [OPEN_ARRAY] + inner;
    NoKeyword(text);
    assert text[1..] == inner && text[2..] == inner[1..];
  }

  lemma ObjectReads(inner: Text)
    requires inner != []
    ensures var r := ReadValue([OPEN_OBJECT] + inner);
      if inner[0] == CLOSE_OBJECT then r == Some((Object(map[]), inner[1..]))
      else if ReadMembers(inner).Some? then r == Some((Object(ReadMembers(inner).value.0), ReadMembers(inner).value.1))
      else r == None
  {
    var text := [OPEN_OBJECT] + inner;
    NoKeyword(text);
    assert text[1..] == inner && text[2..] == inner[1..];
  }

  lemma ItemReads(text: Text, v: Value, after: Text)
    requires after != [] && (after[0] == COMMA || after[0] == CLOSE_ARRAY)
    requires ReadValue(text) == Some((v, after))
    ensures if after[0] == CLOSE_ARRAY then ReadItems(text) == Some(([v], after[1..]))
      else if ReadItems(after[1..]).None? then ReadItems(text) == None
      else ReadItems(text) == Some(([v] + ReadItems(after[1..]).value.0, ReadItems(after[1..]).value.1))
  {
  }

  /** The printed text determines the value and where it ends. */
  lemma {:induction false} StableReadsBack(v: Value, rest: Text)
    requires EndsNumber(rest)
    ensures ReadValue(StableJson(v) + rest) == Some((v, rest))
    decreases v, 2
  {
    match v
    case Null => KeywordReadsBack(v, rest);
    case Bool(_) => KeywordReadsBack(v, rest);
    case Number(n) => NumberReadsBack(n, rest);
    case String(s) => StringReadsBack(s, rest);
    case Array(items) => ArrayReadsBack(v, rest);
    case Object(fields) => ObjectReadsBack(v, rest);
  }

  lemma {:induction false} ArrayReadsBack(v: Value, rest: Text)
    requires v.Array?
    ensures ReadValue(StableJson(v) + rest) == Some((v, rest))
    decreases v, 1
  {
    var items, closing := v.items, [CLOSE_ARRAY] + rest;
    ArrayReads(StableItems(items) + closing);
    assert StableJson(v) + rest == [OPEN_ARRAY] + (StableItems(items) + closing);
    if items == [] {
      assert StableItems(items) + closing == closing && closing[1..] == rest;
    } else {
      ItemsReadBack(items, rest);
      FirstUnit(items[0]);
      assert StableItems(items)[0] == StableJson(items[0])[0];
    }
  }

  lemma ObjectText(v: Value, rest: Text)
    requires v.Object?
    ensures StableJson(v) + rest
         == [OPEN_OBJECT] + (StableMembers(v, v.fields, SortedKeys(v.fields.Keys)) + ([CLOSE_OBJECT] + rest))
  {
  }

  lemma MembersRead(inner: Text, fields: map<Text, Value>, rest: Text)
    requires inner != [] && inner[0] == QUOTE && ReadMembers(inner) == Some((fields, rest))
    ensures ReadValue([OPEN_OBJECT] + inner) == Some((Object(fields), rest))
  {
    ObjectReads(inner);
  }

  lemma NoMembersRead(fields: map<Text, Value>, rest: Text)
    requires fields == map[]
    ensures ReadValue([OPEN_OBJECT] + ([CLOSE_OBJECT] + rest)) == Some((Object(fields), rest))
  {
    ObjectReads([CLOSE_OBJECT] + rest);
    assert ([CLOSE_OBJECT] + rest)[1..] == rest;
  }

  lemma {:induction false} ObjectReadsBack(v: Value, rest: Text)
    requires v.Object?
    ensures ReadValue(StableJson(v) + rest) == Some((v, rest))
    decreases v, 1
  {
    var keys, closing := SortedKeys(v.fields.Keys), [CLOSE_OBJECT] + rest;
    ObjectText(v, rest);
    PickedAll(v.fields, keys);
    if keys == [] {
      NoMembers(v, v.fields, closing);
      NoMembersRead(v.fields, rest);
    } else {
      MembersReadBack(v, v.fields, keys, rest);
      MembersStart(v, v.fields, keys);
      MembersRead(StableMembers(v, v.fields, keys) + closing, v.fields, rest);
    }
  }

  lemma PickedAll(fields: map<Text, Value>, keys: seq<Text>)
    requires keys == SortedKeys(fields.Keys)
    ensures Picked(fields, keys) == fields && (keys == [] ==> fields == map[])
  {
  }

  lemma NoMembers(whole: Value, fields: map<Text, Value>, closing: Text)
    ensures StableMembers(whole, fields, []) + closing == closing
  {
  }

  lemma MembersStart(whole: Value, fields: map<Text, Value>, keys: seq<Text>)
    requires keys != [] && forall k | k in keys :: k in fields && fields[k] < whole
    ensures StableMembers(whole, fields, keys) != [] && StableMembers(whole, fields, keys)[0] == QUOTE
  {
  }

  lemma ItemsAppend(items: seq<Value>, closing: Text)
    requires |items| > 1
    ensures StableItems(items) + closing
         == StableJson(items[0]) + ([COMMA] + (StableItems(items[1..]) + closing))
  {
  }

  lemma {:induction false} ItemsReadBack(items: seq<Value>, rest: Text)
    requires items != []
    ensures ReadItems(StableItems(items) + ([CLOSE_ARRAY] + rest)) == Some((items, rest))
    decreases items
  {
    var closing := [CLOSE_ARRAY] + rest;
    if |items| == 1 {
      StableReadsBack(items[0], closing);
      ItemReads(StableJson(items[0]) + closing, items[0], closing);
      assert [items[0]] == items;
    } else {
      var after := [COMMA] + (StableItems(items[1..]) + closing);
      StableReadsBack(items[0], after);
      ItemReads(StableJson(items[0]) + after, items[0], after);
      ItemsAppend(items, closing);
      ItemsReadBack(items[1..], rest);
      assert [items[0]] + items[1..] == items;
    }
  }

  lemma {:induction false} MembersReadBack(whole: Value, fields: map<Text, Value>, keys: seq<Text>, rest: Text)
    requires keys != [] && forall k | k in keys :: k in fields && fields[k] < whole
    requires forall i, j | 0 <= i < j < |keys| :: keys[i] != keys[j]
    ensures ReadMembers(StableMembers(whole, fields, keys) + ([CLOSE_OBJECT] + rest))
         == Some((Picked(fields, keys), rest))
    decreases whole, 0, |keys|
  {
    var closing := [CLOSE_OBJECT] + rest;
    var key, v := keys[0], fields[keys[0]];
    MembersAppend(whole, fields, keys, closing);
    PickedCons(fields, keys);
    if |keys| == 1 {
      StableReadsBack(v, closing);
      MemberReadsBack(key, StableJson(v), v, closing);
      assert closing[1..] == rest;
    } else {
      var after := [COMMA] + (StableMembers(whole, fields, keys[1..]) + closing);
      StableReadsBack(v, after);
      MemberReadsBack(key, StableJson(v), v, after);
      MembersReadBack(whole, fields, keys[1..], rest);
      assert after[1..] == StableMembers(whole, fields, keys[1..]) + closing;
    }
  }

  ghost function Picked(fields: map<Text, Value>, keys: seq<Text>): map<Text, Value>
    requires forall k | k in keys :: k in fields
  {
    map k | k in keys :: fields[k]
  }

  lemma PickedCons(fields: map<Text, Value>, keys: seq<Text>)
    requires keys != [] && forall k | k in keys :: k in fields
    requires forall i, j | 0 <= i < j < |keys| :: keys[i] != keys[j]
    ensures Picked(fields, keys) == map[keys[0] := fields[keys[0]]] + Picked(fields, keys[1..])
    ensures |keys| == 1 ==> Picked(fields, keys) == map[keys[0] := fields[keys[0]]]
  {
  }

  lemma MembersAppend(whole: Value, fields: map<Text, Value>, keys: seq<Text>, closing: Text)
    requires keys != [] && forall k | k in keys :: k in fields && fields[k] < whole
    ensures var after := if |keys| == 1 then closing else [COMMA] + (StableMembers(whole, fields, keys[1..]) + closing);
      StableMembers(whole, fields, keys) + closing
      == Quote(keys[0]) + ([COLON] + (StableJson(fields[keys[0]]) + after))
  {
  }

  lemma MemberReads(text: Text, key: Text, afterKey: Text, v: Value, after: Text)
    requires text != [] && text[0] == QUOTE && ReadString(text[1..]) == Some((key, afterKey))
    requires afterKey != [] && afterKey[0] == COLON && ReadValue(afterKey[1..]) == Some((v, after))
    requires after != [] && (after[0] == COMMA || after[0] == CLOSE_OBJECT)
    ensures var r := ReadMembers(text);
      if after[0] == CLOSE_OBJECT then r == Some((map[key := v], after[1..]))
      else if ReadMembers(after[1..]).None? then r == None
      else r == Some((map[key := v] + ReadMembers(after[1..]).value.0, ReadMembers(after[1..]).value.1))
  {
  }

  lemma KeyReads(key: Text, afterKey: Text)
    ensures var text := Quote(key) + afterKey;
      text != [] && text[0] == QUOTE && ReadString(text[1..]) == Some((key, afterKey))
  {
    var text := Quote(key) + afterKey;
    BodyReadsBack(key, afterKey);
    assert text[1..] == QuoteBody(key) + ([QUOTE] + afterKey);
  }

  /** One member, its colon and its value's text, before a comma or the closing brace. */
  lemma MemberReadsBack(key: Text, printed: Text, v: Value, after: Text)
    requires after != [] && (after[0] == COMMA || after[0] == CLOSE_OBJECT)
    requires ReadValue(printed + after) == Some((v, after))
    ensures var r := ReadMembers(Quote(key) + ([COLON] + (printed + after)));
      if after[0] == CLOSE_OBJECT then r == Some((map[key := v], after[1..]))
      else if ReadMembers(after[1..]).None? then r == None
      else r == Some((map[key := v] + ReadMembers(after[1..]).value.0, ReadMembers(after[1..]).value.1))
  {
    var afterKey := [COLON] + (printed + after);
    KeyReads(key, afterKey);
    assert afterKey[1..] == printed + after;
    MemberReads(Quote(key) + afterKey, key, afterKey, v, after);
  }
}
