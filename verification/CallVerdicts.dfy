/** Exactly which calls the policy accepts, and its complaints. */
module CallVerdicts {
  import opened CodeUnits
  import opened Options
  import opened CallExamples
  import opened CallSyntax

  /** The arguments are in order exactly when they can be cut into such groups. */
  lemma GoodSyntaxExactly(args: seq<Text>)
    ensures GoodSyntax(args) <==> exists groups :: Grouped(args, groups)
  {
    if GoodSyntax(args) { var groups := GoodIsGrouped(args); }
    if groups :| Grouped(args, groups) { GroupedIsGood(args, groups); }
  }

  /** A text is read as the selector of a server and a tool exactly when it is their selector, with white
      space around it at most, and the names are selectable. */
  lemma ToolSelectorExactly(value: Text, server: Text, tool: Text)
    ensures ToolSelector(value) == Some((server, tool))
       <==> Selectable(server, tool) && exists a, b :: Spelled(value, server, tool, a, b)
  {
    if ToolSelector(value) == Some((server, tool)) {
      var a, b := TrimCuts(value);
      var ref := Trim(value);
      var dot := IndexOf(ref, DOT);
      assert ref == ref[..dot] + [ref[dot]] + ref[dot + 1..];
      assert ref == Selector(server, tool);
      assert Spelled(value, server, tool, a, b);
      TrimOfTrim(value);
      SelectorReadsBack(server, tool);
    }
    forall a, b | Selectable(server, tool) && Spelled(value, server, tool, a, b)
      ensures ToolSelector(value) == Some((server, tool))
    {
      SelectableHasNoBlankEnds(server, tool);
      TrimFinds(a, Selector(server, tool), b);
      SelectorReadsBack(server, tool);
      TrimFinds([], Selector(server, tool), []);
      assert [] + Selector(server, tool) + [] == Selector(server, tool);
    }
  }

  lemma ForeignExactly(server: Text)
    ensures Foreign(server) <==> AdHoc(server)
  {
    if SLASH in server {
      var k := IndexOf(server, SLASH);
      assert server == server[..k] + [SLASH] + server[k + 1..];
    }
    if before, after :| before != [] && SLASH !in before && server == before + [SLASH] + after {
      assert server[|before|] == SLASH && forall j | 0 <= j < |before| :: server[j] == before[j];
      IndexOfFirst(server, SLASH, |before|);
    }
  }

  lemma SomethingSpelled(value: Text)
    requires ToolSelector(value).Some?
    ensures value != []
  {
    SelectorHasDot(value);
  }

  /** A call is accepted exactly when it spells a selectable tool that the session allows on one of its
      own servers, its arguments fall into groups, and none of them is a refused flag. */
  lemma AcceptedExactly(args: seq<Text>, policy: Policy)
    ensures ValidateCall(args, policy).Command?
       <==> |args| > 1 && exists server, tool :: Allowed(args, policy, server, tool)
  {
    if |args| > 1 {
      FlagRefusedExactly(args[2..]);
      GoodSyntaxExactly(args[2..]);
      var selector := ToolSelector(args[1]);
      if selector.Some? {
        ToolSelectorExactly(args[1], selector.value.0, selector.value.1);
        ForeignExactly(selector.value.0);
      }
      forall server, tool | Allowed(args, policy, server, tool) ensures ValidateCall(args, policy).Command? {
        ToolSelectorExactly(args[1], server, tool);
        ForeignExactly(server);
        SomethingSpelled(args[1]);
      }
      if ValidateCall(args, policy).Command? { assert Allowed(args, policy, selector.value.0, selector.value.1); }
    }
  }

  /** Which complaint a call gets that is not accepted: about the selector, the session, the tool, a flag
      or the arguments, the first of them that applies. */
  lemma ComplaintExactly(args: seq<Text>, policy: Policy, server: Text, tool: Text)
    requires |args| > 1 && Selectable(server, tool) && exists a, b :: Spelled(args[1], server, tool, a, b)
    ensures var r := ValidateCall(args, policy);
      var known := server in policy.servers && policy.allows(server, tool);
      var refused, fine := FlagRefused(args[2..]), exists groups :: Grouped(args[2..], groups);
      && (r.OutsideSession? <==> Foreign(server))
      && (r.Unavailable? <==> !Foreign(server) && !known)
      && (r.OptionUnavailable? <==> !Foreign(server) && known && refused)
      && (r.BadSyntax? <==> !Foreign(server) && known && !refused && !fine)
  {
    ToolSelectorExactly(args[1], server, tool);
    SomethingSpelled(args[1]);
    ForeignExactly(server);
    FlagRefusedExactly(args[2..]);
    GoodSyntaxExactly(args[2..]);
  }

  /** And without a selector: whether server and tool are there, but in two arguments. */
  lemma SelectorComplaintExactly(args: seq<Text>, policy: Policy)
    requires |args| > 1 ==> forall server, tool :: !(Selectable(server, tool) && exists a, b :: Spelled(args[1], server, tool, a, b))
    ensures var r := ValidateCall(args, policy);
      && (r.NeedsDottedSelector? <==>
            |args| > 2 && args[1] != [] && args[2] != [] && args[1] in policy.servers && policy.allows(args[1], args[2]))
      && (r.NeedsSelector? <==> !r.NeedsDottedSelector?)
  {
    if |args| > 1 && ToolSelector(args[1]).Some? {
      var selector := ToolSelector(args[1]).value;
      ToolSelectorExactly(args[1], selector.0, selector.1);
    }
  }
}
