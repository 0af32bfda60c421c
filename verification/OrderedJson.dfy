/** `JSON.stringify` of a value whose objects list their members in an order of their own, and the value
    a reader makes of the text. The order does not show in what is read, and of two members with one name
    the later one counts, as it does for `JSON.parse`. */
module OrderedJson {
  import opened CodeUnits
  import opened Json
  import opened CanonicalJson
  import opened Options

  type Scalar = v: Value | !v.Array? && !v.Object? witness Null

  datatype Tree =
    | Leaf(scalar: Scalar)
    | List(items: seq<Tree>)
    | Record(members: seq<Member>)

  datatype Member = Member(key: Text, tree: Tree)

  // ----- what it means -----

  /** The value, for which the order of members does not matter; of members with one name the last counts. */
  function Meaning(t: Tree): Value
    decreases t
  {
    match t
    case Leaf(v) => v
    case List(items) => Array(ItemsMeaning(items))
    case Record(members) => Object(MembersMeaning(members))
  }

  function ItemsMeaning(items: seq<Tree>): seq<Value>
    decreases items
  {
    if items == [] then [] else [Meaning(items[0])] + ItemsMeaning(items[1..])
  }

  function MembersMeaning(members: seq<Member>): map<Text, Value>
    decreases members
  {
    if members == [] then map[]
    else map[members[0].key := Meaning(members[0].tree)] + MembersMeaning(members[1..])
  }

  // ----- printing -----

  function Stringify(t: Tree): Text
    decreases t
  {
    match t
    case Leaf(v) => StableJson(v)
    case List(items) => [OPEN_ARRAY] + StringifyItems(items) + [CLOSE_ARRAY]
    case Record(members) => [OPEN_OBJECT] + StringifyMembers(members) + [CLOSE_OBJECT]
  }

  function StringifyItems(items: seq<Tree>): Text
    decreases items
  {
    if items == [] then []
    else if |items| == 1 then Stringify(items[0])
    else Stringify(items[0]) + [COMMA] + StringifyItems(items[1..])
  }

  function StringifyMember(member: Member): Text
    decreases member
  {
    Quote(member.key) + [COLON] + Stringify(member.tree)
  }

  function StringifyMembers(members: seq<Member>): Text
    decreases members
  {
    if members == [] then []
    else if |members| == 1 then StringifyMember(members[0])
    else StringifyMember(members[0]) + [COMMA] + StringifyMembers(members[1..])
  }

  // ----- round trip -----

  lemma FirstOfTree(t: Tree)
    ensures Stringify(t) != [] && Stringify(t)[0] != CLOSE_ARRAY && Stringify(t)[0] != CLOSE_OBJECT
  {
    if t.Leaf? { FirstUnit(t.scalar); }
  }

  /** The text of any tree determines its meaning and where it ends. */
  lemma {:induction false} StringifyReadsBack(t: Tree, rest: Text)
    requires EndsNumber(rest)
    ensures ReadValue(Stringify(t) + rest) == Some((Meaning(t), rest))
    decreases t, 2
  {
    match t
    case Leaf(v) => StableReadsBack(v, rest);
    case List(items) => ListReadsBack(items, rest);
    case Record(members) => RecordReadsBack(members, rest);
  }

  lemma {:induction false} ListReadsBack(items: seq<Tree>, rest: Text)
    ensures ReadValue(Stringify(List(items)) + rest) == Some((Array(ItemsMeaning(items)), rest))
    decreases items, 1
  {
    var closing := [CLOSE_ARRAY] + rest;
    ArrayReads(StringifyItems(items) + closing);
    assert Stringify(List(items)) + rest == [OPEN_ARRAY] + (StringifyItems(items) + closing);
    if items == [] {
      assert StringifyItems(items) + closing == closing && closing[1..] == rest;
    } else {
      TreeItemsReadBack(items, rest);
      FirstOfTree(items[0]);
      assert StringifyItems(items)[0] == Stringify(items[0])[0];
    }
  }

  lemma TreeItemsAppend(items: seq<Tree>, closing: Text)
    requires |items| > 1
    ensures StringifyItems(items) + closing
         == Stringify(items[0]) + ([COMMA] + (StringifyItems(items[1..]) + closing))
  {
    ThreeParts(Stringify(items[0]), [COMMA], StringifyItems(items[1..]), closing);
  }

  lemma ThreeParts(first: Text, comma: Text, more: Text, closing: Text)
    ensures first + comma + more + closing == first + (comma + (more + closing))
  {
  }

  lemma {:induction false} TreeItemsReadBack(items: seq<Tree>, rest: Text)
    requires items != []
    ensures ReadItems(StringifyItems(items) + ([CLOSE_ARRAY] + rest)) == Some((ItemsMeaning(items), rest))
    decreases items, 0
  {
    var closing := [CLOSE_ARRAY] + rest;
    var v := Meaning(items[0]);
    if |items| == 1 {
      StringifyReadsBack(items[0], closing);
      ItemReads(Stringify(items[0]) + closing, v, closing);
      assert items[1..] == [] && ItemsMeaning(items) == [v];
    } else {
      var after := [COMMA] + (StringifyItems(items[1..]) + closing);
      StringifyReadsBack(items[0], after);
      ItemReads(Stringify(items[0]) + after, v, after);
      TreeItemsAppend(items, closing);
      TreeItemsReadBack(items[1..], rest);
    }
  }

  lemma {:induction false} RecordReadsBack(members: seq<Member>, rest: Text)
    ensures ReadValue(Stringify(Record(members)) + rest) == Some((Object(MembersMeaning(members)), rest))
    decreases members, 1
  {
    var closing := [CLOSE_OBJECT] + rest;
    assert Stringify(Record(members)) + rest == [OPEN_OBJECT] + (StringifyMembers(members) + closing);
    if members == [] {
      assert StringifyMembers(members) + closing == closing;
      NoMembersRead(map[], rest);
    } else {
      TreeMembersReadBack(members, rest);
      assert StringifyMembers(members)[0] == QUOTE;
      MembersRead(StringifyMembers(members) + closing, MembersMeaning(members), rest);
    }
  }

  lemma TreeMembersAppend(members: seq<Member>, closing: Text)
    requires members != []
    ensures var after := if |members| == 1 then closing else [COMMA] + (StringifyMembers(members[1..]) + closing);
      StringifyMembers(members) + closing
      == Quote(members[0].key) + ([COLON] + (Stringify(members[0].tree) + after))
  {
    var key, printed := Quote(members[0].key), Stringify(members[0].tree);
    MemberText(members[0]);
    if |members| == 1 {
      FourParts(key, printed, [], [], closing);
      assert StringifyMembers(members) == StringifyMember(members[0]);
    } else {
      FourParts(key, printed, [COMMA], StringifyMembers(members[1..]), closing);
    }
  }

  lemma MemberText(m: Member)
    ensures StringifyMember(m) == Quote(m.key) + [COLON] + Stringify(m.tree)
  {
  }

  lemma FourParts(key: Text, printed: Text, comma: Text, more: Text, closing: Text)
    ensures key + [COLON] + printed + comma + more + closing == key + ([COLON] + (printed + (comma + (more + closing))))
    ensures key + [COLON] + printed + closing == key + ([COLON] + (printed + closing))
  {
  }

  lemma {:induction false} TreeMembersReadBack(members: seq<Member>, rest: Text)
    requires members != []
    ensures ReadMembers(StringifyMembers(members) + ([CLOSE_OBJECT] + rest)) == Some((MembersMeaning(members), rest))
    decreases members, 0
  {
    var closing := [CLOSE_OBJECT] + rest;
    var Member(key, t) := members[0];
    var v := Meaning(t);
    TreeMembersAppend(members, closing);
    if |members| == 1 {
      StringifyReadsBack(t, closing);
      MemberReadsBack(key, Stringify(t), v, closing);
      assert closing[1..] == rest;
      assert members[1..] == [] && MembersMeaning(members) == map[key := v];
    } else {
      var after := [COMMA] + (StringifyMembers(members[1..]) + closing);
      StringifyReadsBack(t, after);
      MemberReadsBack(key, Stringify(t), v, after);
      TreeMembersReadBack(members[1..], rest);
      assert after[1..] == StringifyMembers(members[1..]) + closing;
    }
  }

}
