/** The members of an object that `Object.fromEntries` makes, in the order in which they are printed: a name
    keeps the place where it first appeared and takes the value it was last given, and names that are array
    indexes come before the others, ascending. None of this shows in what the printed text means. */
module ObjectOrder {
  import opened CodeUnits
  import opened CanonicalJson
  import opened OrderedJson
  import opened Options

  // ----- entries -----

  predicate HasKey(members: seq<Member>, key: Text) {
    exists m :: m in members && m.key == key
  }

  predicate DistinctKeys(members: seq<Member>) {
    members == [] || (!HasKey(members[1..], members[0].key) && DistinctKeys(members[1..]))
  }

  /** A property is set: in its place if it is there, or at the end. */
  function Put(members: seq<Member>, m: Member): seq<Member> {
    if members == [] then [m]
    else if members[0].key == m.key then [m] + members[1..]
    else [members[0]] + Put(members[1..], m)
  }

  /** `Object.fromEntries`, before any reordering. */
  function FromEntries(entries: seq<Member>): seq<Member> {
    if entries == [] then [] else Put(FromEntries(entries[..|entries| - 1]), entries[|entries| - 1])
  }

  lemma HasKeyOfCons(m: Member, rest: seq<Member>)
    ensures forall k :: HasKey([m] + rest, k) <==> m.key == k || HasKey(rest, k)
  {
    assert ([m] + rest)[1..] == rest;
    HasKeyCons([m] + rest);
  }

  lemma {:induction false} PutKeepsKeys(members: seq<Member>, m: Member)
    requires DistinctKeys(members)
    ensures DistinctKeys(Put(members, m))
    ensures forall k :: HasKey(Put(members, m), k) <==> HasKey(members, k) || k == m.key
  {
    if members == [] {
      HasKeyOfCons(m, []);
      assert [m] + [] == [m] && [m][1..] == [];
    } else {
      var first, tail := members[0], members[1..];
      HasKeyCons(members);
      if first.key == m.key {
        HasKeyOfCons(m, tail);
        assert ([m] + tail)[1..] == tail;
      } else {
        PutKeepsKeys(tail, m);
        HasKeyOfCons(first, Put(tail, m));
        assert ([first] + Put(tail, m))[1..] == Put(tail, m);
      }
    }
  }

  lemma ConsMeaning(m: Member, rest: seq<Member>)
    ensures MembersMeaning([m] + rest) == map[m.key := Meaning(m.tree)] + MembersMeaning(rest)
  {
    assert ([m] + rest)[1..] == rest;
  }

  lemma MapPuts<K, V>(rest: map<K, V>, k: K, v: V, other: K, w: V)
    ensures map[other := w] + rest[k := v] == (map[other := w] + rest)[k := v]
    ensures k !in rest ==> map[k := v] + rest == (map[k := w] + rest)[k := v]
  {
  }

  lemma {:induction false} PutMeans(members: seq<Member>, m: Member)
    requires DistinctKeys(members)
    ensures MembersMeaning(Put(members, m)) == MembersMeaning(members)[m.key := Meaning(m.tree)]
  {
    if members == [] {
      assert [m] + [] == [m];
      ConsMeaning(m, []);
    } else {
      var first, tail := members[0], members[1..];
      if first.key != m.key { PutMeans(tail, m); }
      FirstMeans(members, first, tail, m);
    }
  }

  lemma {:induction false} FirstMeans(members: seq<Member>, first: Member, tail: seq<Member>, m: Member)
    requires members == [first] + tail && !HasKey(tail, first.key)
    requires first.key != m.key ==> MembersMeaning(Put(tail, m)) == MembersMeaning(tail)[m.key := Meaning(m.tree)]
    ensures MembersMeaning(Put(members, m)) == MembersMeaning(members)[m.key := Meaning(m.tree)]
  {
    assert members[1..] == tail;
    ConsMeaning(first, tail);
    MapPuts(MembersMeaning(tail), m.key, Meaning(m.tree), first.key, Meaning(first.tree));
    if first.key == m.key {
      ConsMeaning(m, tail);
      MeaningHasKeys(tail);
    } else {
      ConsMeaning(first, Put(tail, m));
    }
  }

  lemma HasKeyCons(members: seq<Member>)
    requires members != []
    ensures forall k :: HasKey(members, k) <==> members[0].key == k || HasKey(members[1..], k)
  {
    assert members == [members[0]] + members[1..];
    forall k | members[0].key == k ensures HasKey(members, k) { assert members[0] in members; }
  }

  lemma {:induction false} MeaningHasKeys(members: seq<Member>)
    ensures forall k :: k in MembersMeaning(members) <==> HasKey(members, k)
  {
    if members != [] {
      HasKeyCons(members);
      MeaningHasKeys(members[1..]);
    }
  }

  lemma {:induction false} MeaningOfLast(init: seq<Member>, last: Member)
    ensures MembersMeaning(init + [last]) == MembersMeaning(init)[last.key := Meaning(last.tree)]
  {
    if init == [] {
      assert [last][1..] == [];
    } else {
      assert (init + [last])[1..] == init[1..] + [last];
      MeaningOfLast(init[1..], last);
    }
  }

  /** The object has each name once, and its value is that of the last entry of the name. */
  lemma {:induction false} EntriesAreTheLast(entries: seq<Member>)
    ensures DistinctKeys(FromEntries(entries))
    ensures MembersMeaning(FromEntries(entries)) == MembersMeaning(entries)
  {
    if entries != [] {
      var init, last := entries[..|entries| - 1], entries[|entries| - 1];
      EntriesAreTheLast(init);
      PutKeepsKeys(FromEntries(init), last);
      PutMeans(FromEntries(init), last);
      MeaningOfLast(init, last);
      assert entries == init + [last];
    }
  }

  /** Where a name comes first. */
  function FirstAt(entries: seq<Member>, key: Text): nat {
    if entries == [] || entries[0].key == key then 0 else 1 + FirstAt(entries[1..], key)
  }

  lemma {:induction false} FirstAtOfLast(init: seq<Member>, last: Member, key: Text)
    ensures HasKey(init, key) ==> FirstAt(init, key) < |init| && FirstAt(init + [last], key) == FirstAt(init, key)
    ensures !HasKey(init, key) ==> FirstAt(init + [last], key) >= |init| && FirstAt(init, key) == |init|
    ensures last.key == key ==> FirstAt(init + [last], key) <= |init|
  {
    if init == [] {
      assert [last][1..] == [];
    } else {
      HasKeyCons(init);
      assert (init + [last])[1..] == init[1..] + [last];
      FirstAtOfLast(init[1..], last, key);
    }
  }

  ghost predicate InFirstOrder(entries: seq<Member>, members: seq<Member>) {
    && (forall m | m in members :: HasKey(entries, m.key))
    && forall i, j | 0 <= i < j < |members| :: FirstAt(entries, members[i].key) < FirstAt(entries, members[j].key)
  }

  /** Put changes the keys at most by one at the end. */
  lemma {:induction false} PutKeys(members: seq<Member>, m: Member)
    ensures |members| <= |Put(members, m)| <= |members| + 1
    ensures forall i | 0 <= i < |members| :: Put(members, m)[i].key == members[i].key
    ensures |Put(members, m)| > |members| ==> Put(members, m)[|members|] == m && !HasKey(members, m.key)
  {
    if members != [] {
      var first, tail := members[0], members[1..];
      if first.key != m.key {
        PutKeys(tail, m);
        PutOnTail(first, tail, m);
        assert members == [first] + tail;
      }
    }
  }

  lemma PutOnTail(first: Member, tail: seq<Member>, m: Member)
    requires first.key != m.key
    ensures Put([first] + tail, m) == [first] + Put(tail, m)
    ensures HasKey([first] + tail, m.key) <==> HasKey(tail, m.key)
  {
    assert ([first] + tail)[1..] == tail;
    HasKeyOfCons(first, tail);
  }

  lemma KeyPlace(init: seq<Member>, last: Member, k: Text)
    requires HasKey(init, k) || k == last.key
    ensures HasKey(init + [last], k)
    ensures if HasKey(init, k) then FirstAt(init + [last], k) == FirstAt(init, k) < |init|
            else FirstAt(init + [last], k) >= |init|
  {
    FirstAtOfLast(init, last, k);
    LastHasKey(init, last, k);
  }

  /** And the names come in the order in which they first appear. */
  lemma {:induction false} EntriesInFirstOrder(entries: seq<Member>)
    ensures InFirstOrder(entries, FromEntries(entries))
  {
    if entries != [] {
      var init, last := entries[..|entries| - 1], entries[|entries| - 1];
      assert entries == init + [last];
      EntriesInFirstOrder(init);
      SameKeys(init, last.key);
      LastInFirstOrder(init, last, FromEntries(init), FromEntries(entries));
    }
  }

  lemma {:induction false} LastInFirstOrder(init: seq<Member>, last: Member, before: seq<Member>, members: seq<Member>)
    requires members == Put(before, last) && InFirstOrder(init, before)
    requires HasKey(init, last.key) ==> HasKey(before, last.key)
    ensures InFirstOrder(init + [last], members)
  {
    PutKeys(before, last);
    InOrderByPlace(init, last, before, members);
  }

  lemma {:induction false} InOrderByPlace(init: seq<Member>, last: Member, before: seq<Member>, members: seq<Member>)
    requires InFirstOrder(init, before) && |before| <= |members| <= |before| + 1
    requires forall i | 0 <= i < |before| :: members[i].key == before[i].key
    requires |members| > |before| ==> members[|before|] == last && !HasKey(init, last.key)
    ensures InFirstOrder(init + [last], members)
  {
    var entries := init + [last];
    forall i | 0 <= i < |members|
      ensures HasKey(entries, members[i].key)
      ensures if i < |before| then FirstAt(entries, members[i].key) == FirstAt(init, before[i].key) < |init|
              else FirstAt(entries, members[i].key) >= |init|
    {
      if i < |before| { assert before[i] in before; }
      KeyPlace(init, last, members[i].key);
    }
    OrderFromPlaces(init, entries, before, members);
  }

  lemma OrderFromPlaces(init: seq<Member>, entries: seq<Member>, before: seq<Member>, members: seq<Member>)
    requires InFirstOrder(init, before) && |before| <= |members| <= |before| + 1
    requires forall i | 0 <= i < |members| ::
      && HasKey(entries, members[i].key)
      && (if i < |before| then FirstAt(entries, members[i].key) == FirstAt(init, before[i].key) < |init|
          else FirstAt(entries, members[i].key) >= |init|)
    ensures InFirstOrder(entries, members)
  {
    forall m | m in members ensures HasKey(entries, m.key) {
      var i :| 0 <= i < |members| && members[i] == m;
    }
  }

  lemma LastHasKey(init: seq<Member>, last: Member, k: Text)
    ensures HasKey(init + [last], k) <==> HasKey(init, k) || k == last.key
  {
    assert last in init + [last];
    if m :| m in init && m.key == k { assert m in init + [last]; }
  }

  lemma SameKeys(entries: seq<Member>, k: Text)
    ensures HasKey(FromEntries(entries), k) <==> HasKey(entries, k)
  {
    EntriesAreTheLast(entries);
    MeaningHasKeys(entries);
    MeaningHasKeys(FromEntries(entries));
  }

  // ----- the order of own keys -----

  /** An array index, which JavaScript keeps before the other keys. */
  function ArrayIndex(key: Text): Option<nat> {
    var d := ReadDigits(0, key);
    if key != [] && d.1 == [] && d.0 < 0xFFFF_FFFF && Decimal(d.0) == key then Some(d.0) else None
  }

  function Insert(m: Member, at: nat, sorted: seq<Member>): seq<Member> {
    if sorted == [] then [m]
    else if ArrayIndex(sorted[0].key).Some? && ArrayIndex(sorted[0].key).value < at then
      [sorted[0]] + Insert(m, at, sorted[1..])
    else [m] + sorted
  }

  /** The members at array indexes, in ascending order. */
  function Indexed(members: seq<Member>): seq<Member> {
    if members == [] then []
    else
      var at := ArrayIndex(members[0].key);
      if at.Some? then Insert(members[0], at.value, Indexed(members[1..])) else Indexed(members[1..])
  }

  function Others(members: seq<Member>): seq<Member> {
    if members == [] then []
    else (if ArrayIndex(members[0].key).Some? then [] else [members[0]]) + Others(members[1..])
  }

  /** The order in which `JSON.stringify` meets the members. */
  function OwnOrder(members: seq<Member>): seq<Member> {
    Indexed(members) + Others(members)
  }

  lemma MapsAssociate<K, V>(a: map<K, V>, b: map<K, V>, c: map<K, V>)
    ensures (a + b) + c == a + (b + c)
  {
  }

  lemma {:induction false} MeaningOfConcat(a: seq<Member>, b: seq<Member>)
    ensures MembersMeaning(a + b) == MembersMeaning(a) + MembersMeaning(b)
  {
    if a == [] {
      assert a + b == b;
    } else {
      var first, tail := a[0], a[1..];
      MeaningOfConcat(tail, b);
      assert a == [first] + tail && a + b == [first] + (tail + b);
      ConsMeaning(first, tail);
      ConsMeaning(first, tail + b);
      MapsAssociate(map[first.key := Meaning(first.tree)], MembersMeaning(tail), MembersMeaning(b));
    }
  }

  lemma {:induction false} InsertMeaning(m: Member, at: nat, sorted: seq<Member>)
    requires m.key !in MembersMeaning(sorted)
    ensures MembersMeaning(Insert(m, at, sorted)) == MembersMeaning(sorted)[m.key := Meaning(m.tree)]
  {
    if sorted != [] && Insert(m, at, sorted)[0] == sorted[0] && Insert(m, at, sorted) != [m] + sorted {
      InsertMeaning(m, at, sorted[1..]);
    } else {
      assert ([m] + sorted)[1..] == sorted;
      assert [m][1..] == [];
    }
  }

  lemma MapsMove<K, V>(a: map<K, V>, b: map<K, V>, k: K, v: V)
    requires a.Keys !! b.Keys && k !in a && k !in b
    ensures a[k := v] + b == map[k := v] + (a + b) && a[k := v].Keys !! b.Keys
    ensures a + (map[k := v] + b) == map[k := v] + (a + b) && a.Keys !! (map[k := v] + b).Keys
  {
  }

  lemma {:induction false} PartsMeaning(members: seq<Member>)
    requires DistinctKeys(members)
    ensures MembersMeaning(Indexed(members)) + MembersMeaning(Others(members)) == MembersMeaning(members)
    ensures MembersMeaning(Indexed(members)).Keys !! MembersMeaning(Others(members)).Keys
  {
    if members != [] {
      var m, rest := members[0], members[1..];
      var a, b := MembersMeaning(Indexed(rest)), MembersMeaning(Others(rest));
      PartsMeaning(rest);
      MeaningHasKeys(rest);
      assert m.key !in a + b;
      MapsMove(a, b, m.key, Meaning(m.tree));
      if ArrayIndex(m.key).Some? {
        InsertMeaning(m, ArrayIndex(m.key).value, Indexed(rest));
      } else {
        ConsMeaning(m, Others(rest));
      }
      SortedFirst(members);
    }
  }

  lemma SortedFirst(members: seq<Member>)
    requires members != []
    ensures var m, rest := members[0], members[1..];
      var at := ArrayIndex(m.key);
      && Indexed(members) == (if at.Some? then Insert(m, at.value, Indexed(rest)) else Indexed(rest))
      && Others(members) == (if at.Some? then Others(rest) else [m] + Others(rest))
  {
  }

  /** The order does not show in the meaning. */
  lemma OwnOrderMeans(members: seq<Member>)
    requires DistinctKeys(members)
    ensures MembersMeaning(OwnOrder(members)) == MembersMeaning(members)
  {
    PartsMeaning(members);
    MeaningOfConcat(Indexed(members), Others(members));
  }

  ghost predicate Ascending(members: seq<Member>) {
    && (forall m | m in members :: ArrayIndex(m.key).Some?)
    && forall i, j | 0 <= i < j < |members| :: ArrayIndex(members[i].key).value <= ArrayIndex(members[j].key).value
  }

  lemma AscendingCons(m: Member, rest: seq<Member>)
    requires ArrayIndex(m.key).Some? && Ascending(rest)
    requires forall x | x in rest :: ArrayIndex(m.key).value <= ArrayIndex(x.key).value
    ensures Ascending([m] + rest)
  {
    forall i | 0 <= i < |rest| ensures rest[i] in rest { }
  }

  lemma AscendingTail(members: seq<Member>)
    requires members != [] && Ascending(members)
    ensures ArrayIndex(members[0].key).Some? && Ascending(members[1..])
    ensures forall x | x in members[1..] :: x in members && ArrayIndex(members[0].key).value <= ArrayIndex(x.key).value
  {
    assert members[0] in members;
    forall x | x in members[1..] ensures x in members && ArrayIndex(members[0].key).value <= ArrayIndex(x.key).value {
      var i :| 0 <= i < |members[1..]| && members[1..][i] == x;
      assert members[i + 1] == x;
    }
  }

  lemma {:induction false} InsertAdds(m: Member, at: nat, sorted: seq<Member>)
    ensures multiset(Insert(m, at, sorted)) == multiset(sorted) + multiset{m}
    ensures forall x :: x in Insert(m, at, sorted) <==> x in sorted || x == m
  {
    if sorted != [] {
      assert sorted == [sorted[0]] + sorted[1..];
      InsertAdds(m, at, sorted[1..]);
    }
  }

  lemma {:induction false} InsertAscends(m: Member, at: nat, sorted: seq<Member>)
    requires ArrayIndex(m.key) == Some(at) && Ascending(sorted)
    ensures Ascending(Insert(m, at, sorted))
  {
    if sorted != [] {
      AscendingTail(sorted);
      if ArrayIndex(sorted[0].key).value < at {
        InsertAscends(m, at, sorted[1..]);
        InsertAdds(m, at, sorted[1..]);
        AscendingCons(sorted[0], Insert(m, at, sorted[1..]));
      } else {
        forall x | x in sorted ensures at <= ArrayIndex(x.key).value {
          if x != sorted[0] { assert sorted == [sorted[0]] + sorted[1..]; }
        }
        AscendingCons(m, sorted);
      }
    }
  }

  /** Array indexes first, ascending, and then the other members as they were; all members, and no more. */
  lemma {:induction false} OwnOrderShape(members: seq<Member>)
    ensures Ascending(Indexed(members))
    ensures forall m | m in Others(members) :: ArrayIndex(m.key).None?
    ensures multiset(OwnOrder(members)) == multiset(members)
  {
    if members != [] {
      var m, rest := members[0], members[1..];
      assert members == [m] + rest;
      OwnOrderShape(rest);
      assert multiset(OwnOrder(rest)) == multiset(Indexed(rest)) + multiset(Others(rest));
      if ArrayIndex(m.key).Some? {
        InsertAscends(m, ArrayIndex(m.key).value, Indexed(rest));
        InsertAdds(m, ArrayIndex(m.key).value, Indexed(rest));
      }
      SortedFirst(members);
      assert multiset(OwnOrder(members)) == multiset(Indexed(members)) + multiset(Others(members));
    }
  }

  /** No member at an array index comes after another member, nor after one at a greater index. */
  ghost predicate IndexesFirst(members: seq<Member>) {
    forall i, j | 0 <= i < j < |members| && ArrayIndex(members[j].key).Some? ::
      ArrayIndex(members[i].key).Some? && ArrayIndex(members[i].key).value <= ArrayIndex(members[j].key).value
  }

  ghost predicate Increasing(places: seq<nat>) {
    forall i, j | 0 <= i < j < |places| :: places[i] < places[j]
  }

  /** These members are some of those, in the same order. */
  ghost predicate PickedAt(members: seq<Member>, picked: seq<Member>, places: seq<nat>) {
    && |places| == |picked| && Increasing(places)
    && forall i | 0 <= i < |picked| :: places[i] < |members| && members[places[i]] == picked[i]
  }

  function Shifted(places: seq<nat>): (r: seq<nat>)
    ensures |r| == |places| && forall i | 0 <= i < |r| :: r[i] == places[i] + 1
  {
    seq(|places|, i requires 0 <= i < |places| => places[i] + 1)
  }

  lemma PickedAfter(m: Member, rest: seq<Member>, picked: seq<Member>, places: seq<nat>)
    requires PickedAt(rest, picked, places)
    ensures PickedAt([m] + rest, picked, Shifted(places))
  {
    forall i | 0 <= i < |picked| ensures Shifted(places)[i] < |[m] + rest| && ([m] + rest)[Shifted(places)[i]] == picked[i] {
      assert ([m] + rest)[places[i] + 1] == rest[places[i]];
    }
  }

  lemma PickedToo(m: Member, rest: seq<Member>, picked: seq<Member>, places: seq<nat>)
    requires PickedAt([m] + rest, picked, Shifted(places)) && |places| == |picked|
    ensures PickedAt([m] + rest, [m] + picked, [0] + Shifted(places))
  {
    var all := [0] + Shifted(places);
    forall i | 0 <= i < |all| ensures all[i] < |[m] + rest| && ([m] + rest)[all[i]] == ([m] + picked)[i] {
      if i > 0 { assert all[i] == Shifted(places)[i - 1] && ([m] + picked)[i] == picked[i - 1]; }
    }
    forall i, j | 0 <= i < j < |all| ensures all[i] < all[j] {
      assert all[j] == Shifted(places)[j - 1];
      if i > 0 { assert all[i] == Shifted(places)[i - 1]; }
    }
  }

  lemma {:induction false} OthersStay(members: seq<Member>) returns (places: seq<nat>)
    ensures PickedAt(members, Others(members), places)
  {
    if members == [] {
      places := [];
    } else {
      var rest := OthersStay(members[1..]);
      assert members == [members[0]] + members[1..];
      PickedAfter(members[0], members[1..], Others(members[1..]), rest);
      places := Shifted(rest);
      if ArrayIndex(members[0].key).None? {
        PickedToo(members[0], members[1..], Others(members[1..]), rest);
        places := [0] + places;
      }
    }
  }

  /** The order of own keys: array indexes first, ascending, and the others as they were. */
  lemma {:induction false} OwnOrderExactly(members: seq<Member>) returns (others: seq<Member>, places: seq<nat>)
    ensures IndexesFirst(OwnOrder(members)) && multiset(OwnOrder(members)) == multiset(members)
    ensures |others| <= |OwnOrder(members)| && OwnOrder(members)[|OwnOrder(members)| - |others|..] == others
    ensures PickedAt(members, others, places)
    ensures forall i | 0 <= i < |OwnOrder(members)| ::
      ArrayIndex(OwnOrder(members)[i].key).None? <==> i >= |OwnOrder(members)| - |others|
  {
    OwnOrderShape(members);
    others := Others(members);
    places := OthersStay(members);
    var a := Indexed(members);
    var all := a + others;
    forall i | 0 <= i < |all| ensures ArrayIndex(all[i].key).None? <==> i >= |a| {
      if i < |a| { assert a[i] in a; } else { assert others[i - |a|] in others; }
    }
  }
}
