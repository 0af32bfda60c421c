/** What the call policy lets through, said without its own readers: how the arguments are grouped and what
    a selector may look like. An argument is let through alone or as the value of the flag before it, so a
    list of arguments is cut from the left, one or two at a time. */
module CallSyntax {
  import opened CodeUnits
  import opened CallExamples

  // ----- arguments -----

  /** `key=value`. */
  ghost predicate Keyed(arg: Text) {
    exists key, value :: KeyedAs(arg, key, value)
  }

  predicate KeyedAs(arg: Text, key: Text, value: Text) {
    SafeKey(key) && arg == key + [EQUALS] + value
  }

  predicate ValueFlag(flag: Text) {
    flag in [Of("--json"), Of("--output"), Of("--timeout")]
  }

  /** `--flag=value`. */
  ghost predicate Flagged(arg: Text) {
    exists flag, value :: FlaggedAs(arg, flag, value)
  }

  predicate FlaggedAs(arg: Text, flag: Text, value: Text) {
    ValueFlag(flag) && arg == flag + [EQUALS] + value
  }

  /** One argument, or a flag and the argument after it; the last flag may miss its argument. */
  ghost predicate Group(group: seq<Text>, last: bool) {
    || (|group| == 1 && (Keyed(group[0]) || Flagged(group[0]) || (last && ValueFlag(group[0]))))
    || (|group| == 2 && ValueFlag(group[0]))
  }

  function Flat(groups: seq<seq<Text>>): seq<Text> {
    if groups == [] then [] else groups[0] + Flat(groups[1..])
  }

  ghost predicate Grouped(args: seq<Text>, groups: seq<seq<Text>>) {
    args == Flat(groups) && forall i | 0 <= i < |groups| :: Group(groups[i], i == |groups| - 1)
  }

  lemma FlagShape(flag: Text)
    requires ValueFlag(flag)
    ensures Dashes(flag) && |flag| > 2 && EQUALS !in flag && TakesValue(flag)
  {
    var a, b, c := Of("--json"), Of("--output"), Of("--timeout");
    assert forall i | 0 <= i < |a| :: a[i] != EQUALS;
    assert forall i | 0 <= i < |b| :: b[i] != EQUALS;
    assert forall i | 0 <= i < |c| :: c[i] != EQUALS;
  }

  lemma FlaggedShape(arg: Text, flag: Text, value: Text)
    requires FlaggedAs(arg, flag, value)
    ensures Dashes(arg) && |arg| > 2 && EQUALS in arg && FlagName(arg) == flag && TakesValue(flag)
  {
    FlagShape(flag);
    assert arg[|flag|] == EQUALS && arg[0] == flag[0] && arg[1] == flag[1];
    var k := IndexOf(arg, EQUALS);
    assert forall j | 0 <= j < |flag| :: arg[j] == flag[j];
    assert arg[..k] == flag;
  }

  lemma KeyedShape(arg: Text, key: Text, value: Text)
    requires KeyedAs(arg, key, value)
    ensures !Dashes(arg) && KeyValue(arg)
  {
    KeyRecovered(key, value);
    assert arg[0] == key[0];
  }

  lemma KeyedExactly(arg: Text)
    ensures KeyValue(arg) <==> Keyed(arg)
  {
    if KeyValue(arg) {
      var k := IndexOf(arg, EQUALS);
      assert arg == arg[..k] + [EQUALS] + arg[k + 1..];
      assert KeyedAs(arg, arg[..k], arg[k + 1..]);
    }
    if key, value :| KeyedAs(arg, key, value) { KeyedShape(arg, key, value); }
  }

  /** A first argument that begins with two dashes and is let through. */
  lemma DashedExactly(arg: Text)
    requires Dashes(arg)
    ensures TakesValue(FlagName(arg)) <==> if EQUALS in arg then Flagged(arg) else ValueFlag(arg)
  {
    if EQUALS in arg {
      var k := IndexOf(arg, EQUALS);
      assert arg == arg[..k] + [EQUALS] + arg[k + 1..];
      if TakesValue(FlagName(arg)) { assert FlaggedAs(arg, arg[..k], arg[k + 1..]); }
      if flag, value :| FlaggedAs(arg, flag, value) { FlaggedShape(arg, flag, value); }
    }
  }

  lemma GroupMore(group: seq<Text>, groups: seq<seq<Text>>)
    requires Grouped(Flat(groups), groups) && Group(group, groups == [])
    ensures Grouped(group + Flat(groups), [group] + groups)
  {
    var all := [group] + groups;
    assert all[1..] == groups;
    forall i | 0 <= i < |all| ensures Group(all[i], i == |all| - 1) {
      if i > 0 { assert all[i] == groups[i - 1] && (i == |all| - 1 <==> i - 1 == |groups| - 1); }
    }
  }

  lemma {:induction false} GoodIsGrouped(args: seq<Text>) returns (groups: seq<seq<Text>>)
    requires GoodSyntax(args)
    ensures Grouped(args, groups)
    decreases |args|
  {
    if args == [] {
      groups := [];
    } else {
      var n := 1;
      if Dashes(args[0]) {
        DashedExactly(args[0]);
        if EQUALS !in args[0] && |args| > 1 { n := 2; }
      } else {
        KeyedExactly(args[0]);
      }
      var rest := GoodIsGrouped(args[n..]);
      assert args == args[..n] + args[n..];
      assert rest == [] ==> Flat(rest) == [];
      GroupMore(args[..n], rest);
      groups := [args[..n]] + rest;
    }
  }

  lemma GroupTail(groups: seq<seq<Text>>)
    requires groups != [] && Grouped(Flat(groups), groups)
    ensures Group(groups[0], |groups| == 1) && Grouped(Flat(groups[1..]), groups[1..])
  {
    var rest := groups[1..];
    forall i | 0 <= i < |rest| ensures Group(rest[i], i == |rest| - 1) {
      assert rest[i] == groups[i + 1] && (i == |rest| - 1 <==> i + 1 == |groups| - 1);
    }
  }

  lemma {:induction false} GroupedIsGood(args: seq<Text>, groups: seq<seq<Text>>)
    requires Grouped(args, groups)
    ensures GoodSyntax(args)
    decreases |groups|
  {
    if groups != [] {
      GroupTail(groups);
      var group, rest := groups[0], Flat(groups[1..]);
      GroupedIsGood(rest, groups[1..]);
      assert args[0] == group[0] && args[|group|..] == rest;
      if |group| == 1 && Keyed(group[0]) {
        var key, value :| KeyedAs(group[0], key, value);
        KeyedShape(group[0], key, value);
      } else if |group| == 1 && Flagged(group[0]) {
        var flag, value :| FlaggedAs(group[0], flag, value);
        FlaggedShape(group[0], flag, value);
      } else {
        FlagShape(group[0]);
        if |group| == 1 { assert groups[1..] == [] && rest == []; }
      }
    }
  }

  // ----- selectors -----

  predicate Blank(t: Text) {
    forall i | 0 <= i < |t| :: WhiteSpace(t[i])
  }

  predicate NoBlankEnds(t: Text) {
    t == [] || (!WhiteSpace(t[0]) && !WhiteSpace(t[|t| - 1]))
  }

  lemma {:induction false} TrimFinds(a: Text, t: Text, b: Text)
    requires Blank(a) && Blank(b) && NoBlankEnds(t) && (t == [] ==> b == [])
    ensures Trim(a + t + b) == t
    decreases |a| + |b|
  {
    var whole := a + t + b;
    if a != [] {
      assert whole[1..] == a[1..] + t + b;
      TrimFinds(a[1..], t, b);
    } else if b != [] {
      assert whole[0] == t[0] && whole[|whole| - 1] == b[|b| - 1];
      assert whole[..|whole| - 1] == a + t + b[..|b| - 1];
      TrimFinds(a, t, b[..|b| - 1]);
    } else {
      assert whole == t;
    }
  }

  ghost predicate Cuts(value: Text, a: Text, b: Text) {
    Blank(a) && Blank(b) && NoBlankEnds(Trim(value)) && value == a + Trim(value) + b
  }

  lemma CutsMoreBefore(value: Text, a: Text, b: Text)
    requires value != [] && WhiteSpace(value[0]) && Cuts(value[1..], a, b)
    ensures Cuts(value, [value[0]] + a, b)
  {
    assert value == [value[0]] + value[1..];
    assert [value[0]] + (a + Trim(value) + b) == ([value[0]] + a) + Trim(value) + b;
  }

  lemma CutsMoreAfter(value: Text, a: Text, b: Text)
    requires value != [] && !WhiteSpace(value[0]) && WhiteSpace(value[|value| - 1]) && Cuts(value[..|value| - 1], a, b)
    ensures Cuts(value, a, b + [value[|value| - 1]])
  {
    var last := value[|value| - 1];
    assert value == value[..|value| - 1] + [last];
    assert (a + Trim(value) + b) + [last] == a + Trim(value) + (b + [last]);
  }

  lemma {:induction false} TrimCuts(value: Text) returns (a: Text, b: Text)
    ensures Cuts(value, a, b)
    decreases |value|
  {
    a, b := [], [];
    if value != [] && WhiteSpace(value[0]) {
      a, b := TrimCuts(value[1..]);
      CutsMoreBefore(value, a, b);
      a := [value[0]] + a;
    } else if value != [] && WhiteSpace(value[|value| - 1]) {
      a, b := TrimCuts(value[..|value| - 1]);
      CutsMoreAfter(value, a, b);
      b := b + [value[|value| - 1]];
    } else {
      assert [] + value + [] == value;
    }
  }

  predicate Spelled(value: Text, server: Text, tool: Text, a: Text, b: Text) {
    Blank(a) && Blank(b) && value == a + Selector(server, tool) + b
  }

  lemma SelectableHasNoBlankEnds(server: Text, tool: Text)
    requires Selectable(server, tool)
    ensures NoBlankEnds(Selector(server, tool)) && Selector(server, tool) != []
  {
    var t := Selector(server, tool);
    assert t[0] == server[0] && t[|t| - 1] == tool[|tool| - 1];
  }

  lemma TrimOfTrim(value: Text)
    ensures Trim(Trim(value)) == Trim(value)
  {
    var a, b := TrimCuts(value);
    TrimFinds([], Trim(value), []);
    assert [] + Trim(value) + [] == Trim(value);
  }

  // ----- accepted calls -----

  /** A flag that recipe sessions do not have, before any `--`. */
  ghost predicate FlagRefused(args: seq<Text>) {
    exists i :: 0 <= i < |args| && Forbidden(FlagName(args[i])) && forall j | 0 <= j <= i :: args[j] != Of("--")
  }

  lemma {:induction false} FlagRefusedExactly(args: seq<Text>)
    ensures FlagRefused(args) <==> ForbiddenFlag(args)
  {
    OptionsAreBeforeSeparator(args);
    assert Of("--") == SEPARATOR;
    var n := |OptionsOf(args)|;
    forall i | 0 <= i < |args| && Forbidden(FlagName(args[i])) && (forall j | 0 <= j <= i :: args[j] != Of("--"))
      ensures ForbiddenFlag(args)
    {
      assert i < n;
      assert OptionsOf(args)[i] == args[i];
    }
    if i :| 0 <= i < n && Forbidden(FlagName(OptionsOf(args)[i])) {
      assert OptionsOf(args)[i] == args[i];
      forall j | 0 <= j <= i ensures args[j] != Of("--") { assert OptionsOf(args)[j] == args[j]; }
    }
  }

  /** A URL, or a server with something before a slash. */
  ghost predicate Foreign(server: Text) {
    exists before, after :: before != [] && SLASH !in before && server == before + [SLASH] + after
  }

  ghost predicate Allowed(args: seq<Text>, policy: Policy, server: Text, tool: Text)
    requires |args| > 1
  {
    && Selectable(server, tool) && (exists a, b :: Spelled(args[1], server, tool, a, b))
    && !Foreign(server) && server in policy.servers && policy.allows(server, tool)
    && !FlagRefused(args[2..]) && exists groups :: Grouped(args[2..], groups)
  }
}
