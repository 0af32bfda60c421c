/** Inheritance between recipe agents: the two validators of `from` chains, and the memoized resolver. */
module Inheritance {
  import opened CodeUnits
  import opened Options
  import opened Merges

  const MAX_INHERITANCE_DEPTH: nat := 128

  type Name = Text

  /** An agent as parsed. An empty `from` counts as none, as both languages' callers treat it. */
  datatype RawAgent = RawAgent(
    from: Option<Name>,
    description: Option<Text>,
    modelConfig: Option<ModelConfig>,
    sessionConfig: Option<SessionConfig>,
    tools: Option<seq<Text>>,
    mcp: Option<Text>,
    skills: Option<seq<Text>>,
    subagents: Option<seq<Text>>,
    systemInstructions: Option<Instructions>)

  /** An agent with everything it inherits. */
  datatype Definition = Definition(
    description: Option<Text>,
    modelConfig: Option<ModelConfig>,
    sessionConfig: Option<SessionConfig>,
    tools: seq<Text>,
    mcp: Option<Text>,
    skills: seq<Text>,
    subagents: seq<Text>,
    systemInstructions: Option<Instructions>)

  type Agents = map<Name, RawAgent>

  function GetOr<T>(value: Option<T>, default: T): T {
    if value.Some? then value.value else default
  }

  const NOTHING: Definition := Definition(None, None, None, [], None, [], [], None)

  /** One agent over its base. */
  function Extend(base: Option<Definition>, raw: RawAgent): Definition {
    var b := GetOr(base, NOTHING);
    Definition(
      Or(raw.description, b.description),
      MergeModel(b.modelConfig, raw.modelConfig),
      MergeSession(b.sessionConfig, raw.sessionConfig),
      GetOr(raw.tools, b.tools),
      Or(raw.mcp, b.mcp),
      GetOr(raw.skills, b.skills),
      GetOr(raw.subagents, b.subagents),
      MergeInstructions(b.systemInstructions, raw.systemInstructions))
  }

  // ----- chains -----

  /** The agents from `name` to a root, each one's `from` being the next. */
  ghost predicate ChainToRoot(agents: Agents, name: Name, chain: seq<Name>) {
    && chain != [] && chain[0] == name
    && (forall i | 0 <= i < |chain| :: chain[i] in agents)
    && (forall i | 0 <= i < |chain| - 1 :: agents[chain[i]].from == Some(chain[i + 1]))
    && agents[chain[|chain| - 1]].from.None?
  }

  /** The chain exists and has at most the allowed number of agents. */
  ghost predicate Acceptable(agents: Agents, name: Name) {
    exists chain :: ChainToRoot(agents, name, chain) && |chain| <= MAX_INHERITANCE_DEPTH
  }

  predicate Rooted(agents: Agents, name: Name, n: nat)
    decreases n
  {
    n > 0 && name in agents && (agents[name].from.None? || Rooted(agents, agents[name].from.value, n - 1))
  }

  function ChainOf(agents: Agents, name: Name, n: nat): (chain: seq<Name>)
    requires Rooted(agents, name, n)
    ensures ChainToRoot(agents, name, chain) && |chain| <= n
    decreases n
  {
    if agents[name].from.None? then [name] else [name] + ChainOf(agents, agents[name].from.value, n - 1)
  }

  lemma {:induction false} ChainIsRooted(agents: Agents, name: Name, chain: seq<Name>, n: nat)
    requires ChainToRoot(agents, name, chain) && |chain| <= n
    ensures Rooted(agents, name, n)
    decreases n
  {
    if |chain| > 1 { ChainIsRooted(agents, chain[1], chain[1..], n - 1); }
  }

  lemma RootedIsAcceptable(agents: Agents, name: Name)
    ensures Rooted(agents, name, MAX_INHERITANCE_DEPTH) <==> Acceptable(agents, name)
  {
    if Rooted(agents, name, MAX_INHERITANCE_DEPTH) {
      var chain := ChainOf(agents, name, MAX_INHERITANCE_DEPTH);
    }
    if chain :| ChainToRoot(agents, name, chain) && |chain| <= MAX_INHERITANCE_DEPTH {
      ChainIsRooted(agents, name, chain, MAX_INHERITANCE_DEPTH);
    }
  }

  lemma ChainEnds(agents: Agents, name: Name, chain: seq<Name>)
    requires ChainToRoot(agents, name, chain)
    ensures |chain| == 1 <==> agents[name].from.None?
    ensures |chain| > 1 ==> agents[name].from == Some(chain[1])
  {
    if |chain| > 1 { assert agents[chain[0]].from == Some(chain[0 + 1]); }
  }

  lemma {:induction false} ChainIsUnique(agents: Agents, name: Name, a: seq<Name>, b: seq<Name>)
    requires ChainToRoot(agents, name, a) && ChainToRoot(agents, name, b)
    ensures a == b
    decreases |a|
  {
    ChainEnds(agents, name, a);
    ChainEnds(agents, name, b);
    if |a| > 1 {
      ChainIsUnique(agents, a[1], a[1..], b[1..]);
      assert a == [a[0]] + a[1..] && b == [b[0]] + b[1..];
    }
  }

  // ----- cycles never reach a root -----

  /** Agents whose `from`s lead round. */
  ghost predicate Cycle(agents: Agents, c: seq<Name>) {
    && c != []
    && (forall i | 0 <= i < |c| :: c[i] in agents)
    && (forall i | 0 <= i < |c| - 1 :: agents[c[i]].from == Some(c[i + 1]))
    && agents[c[|c| - 1]].from == Some(c[0])
  }

  lemma {:induction false} CycleHasNoRoot(agents: Agents, c: seq<Name>, n: nat)
    requires Cycle(agents, c)
    ensures !Rooted(agents, c[0], n)
    decreases n
  {
    if n > 0 {
      var next := c[1..] + [c[0]];
      assert forall i | 0 <= i < |next| :: next[i] == if i + 1 < |c| then c[i + 1] else c[0];
      CycleHasNoRoot(agents, next, n - 1);
    }
  }

  /** `stack` lists the agents whose `from`s led to `name`. */
  ghost predicate Leads(agents: Agents, stack: seq<Name>, name: Name) {
    && (forall i | 0 <= i < |stack| :: stack[i] in agents)
    && (forall i | 0 <= i < |stack| - 1 :: agents[stack[i]].from == Some(stack[i + 1]))
    && (stack != [] ==> agents[stack[|stack| - 1]].from == Some(name))
  }

  lemma LeadsOn(agents: Agents, stack: seq<Name>, name: Name)
    requires Leads(agents, stack, name) && name in agents && agents[name].from.Some?
    ensures Leads(agents, stack + [name], agents[name].from.value)
  {
  }

  lemma RootedIsNotOnStack(agents: Agents, stack: seq<Name>, name: Name, n: nat)
    requires Leads(agents, stack, name) && Rooted(agents, name, n)
    ensures name !in stack
  {
    if name in stack {
      var i :| 0 <= i < |stack| && stack[i] == name;
      assert Cycle(agents, stack[i..]);
      CycleHasNoRoot(agents, stack[i..], n);
    }
  }

  // ----- the validators -----

  datatype Finding = TooDeep | NotFound | Cyclic | MissingBase

  /** `inheritanceFinding`, recursive. */
  function InheritanceFinding(agents: Agents, name: Name, stack: seq<Name>): Option<Finding>
    decreases MAX_INHERITANCE_DEPTH - |stack|
  {
    if |stack| >= MAX_INHERITANCE_DEPTH then Some(TooDeep)
    else if name !in agents then Some(NotFound)
    else if agents[name].from.None? then None
    else
      var from := agents[name].from.value;
      if from in stack then Some(Cyclic)
      else if from !in agents then Some(MissingBase)
      else InheritanceFinding(agents, from, stack + [name])
  }

  lemma {:induction false} FindingMeansNotRooted(agents: Agents, name: Name, stack: seq<Name>)
    requires Leads(agents, stack, name) && |stack| <= MAX_INHERITANCE_DEPTH
    ensures InheritanceFinding(agents, name, stack).None? <==> Rooted(agents, name, MAX_INHERITANCE_DEPTH - |stack|)
    decreases MAX_INHERITANCE_DEPTH - |stack|
  {
    if |stack| < MAX_INHERITANCE_DEPTH && name in agents && agents[name].from.Some? {
      var from := agents[name].from.value;
      LeadsOn(agents, stack, name);
      if Rooted(agents, from, MAX_INHERITANCE_DEPTH - |stack| - 1) {
        RootedIsNotOnStack(agents, stack + [name], from, MAX_INHERITANCE_DEPTH - |stack| - 1);
        assert from !in stack;
      }
      FindingMeansNotRooted(agents, from, stack + [name]);
    }
  }

  /** The TypeScript validator accepts exactly the agents with an acceptable chain. */
  lemma ValidatorAccepts(agents: Agents, name: Name)
    ensures InheritanceFinding(agents, name, []).None? <==> Acceptable(agents, name)
  {
    FindingMeansNotRooted(agents, name, []);
    RootedIsAcceptable(agents, name);
  }

  /** `validate_agent_inheritance`, iterative; it says nothing about a name that is not an agent. */
  method ValidateAgentInheritance(agents: Agents, name: Name) returns (finding: Option<Finding>)
    ensures name in agents ==> (finding.None? <==> Acceptable(agents, name))
    ensures name !in agents ==> finding.None?
  {
    RootedIsAcceptable(agents, name);
    var stack: seq<Name> := [];
    var current := name;
    while true
      invariant |stack| <= MAX_INHERITANCE_DEPTH && Leads(agents, stack, current)
      invariant if name in agents then current in agents else stack == [] && current == name
      invariant Rooted(agents, name, MAX_INHERITANCE_DEPTH) <==> Rooted(agents, current, MAX_INHERITANCE_DEPTH - |stack|)
      decreases MAX_INHERITANCE_DEPTH - |stack|
    {
      if |stack| >= MAX_INHERITANCE_DEPTH { return Some(TooDeep); }
      if current !in agents { return None; }
      if agents[current].from.None? { return None; }
      var parent := agents[current].from.value;
      LeadsOn(agents, stack, current);
      if parent in stack || parent == current {
        if Rooted(agents, parent, MAX_INHERITANCE_DEPTH - |stack| - 1) {
          RootedIsNotOnStack(agents, stack + [current], parent, MAX_INHERITANCE_DEPTH - |stack| - 1);
        }
        return Some(Cyclic);
      }
      if parent !in agents { return Some(MissingBase); }
      stack := stack + [current];
      current := parent;
    }
  }

  // ----- resolution -----

  /** The fold of the merges from the root down to the first agent of the chain. */
  function FoldChain(agents: Agents, chain: seq<Name>): Definition
    requires chain != [] && forall i | 0 <= i < |chain| :: chain[i] in agents
  {
    Extend(if |chain| == 1 then None else Some(FoldChain(agents, chain[1..])), agents[chain[0]])
  }

  /** `d` is what the chain of `name`, of whatever length, folds to. */
  ghost predicate Inherits(agents: Agents, name: Name, d: Definition) {
    exists chain :: ChainToRoot(agents, name, chain) && d == FoldChain(agents, chain)
  }

  lemma InheritsRoot(agents: Agents, name: Name)
    requires name in agents && agents[name].from.None?
    ensures Inherits(agents, name, Extend(None, agents[name]))
  {
    assert ChainToRoot(agents, name, [name]);
  }

  lemma InheritsStep(agents: Agents, name: Name, base: Definition)
    requires name in agents && agents[name].from.Some? && Inherits(agents, agents[name].from.value, base)
    ensures Inherits(agents, name, Extend(Some(base), agents[name]))
  {
    var chain :| ChainToRoot(agents, agents[name].from.value, chain) && base == FoldChain(agents, chain);
    var longer := [name] + chain;
    assert longer[1..] == chain;
    assert ChainToRoot(agents, name, longer);
  }

  lemma InheritsIsUnique(agents: Agents, name: Name, a: Definition, b: Definition)
    requires Inherits(agents, name, a) && Inherits(agents, name, b)
    ensures a == b
  {
    var x :| ChainToRoot(agents, name, x) && a == FoldChain(agents, x);
    var y :| ChainToRoot(agents, name, y) && b == FoldChain(agents, y);
    ChainIsUnique(agents, name, x, y);
  }

  /** `definitionsFromSources`: the resolver and its memo. */
  class Resolver {
    const agents: Agents
    var resolved: map<Name, Definition>

    ghost predicate Valid()
      reads this
    {
      forall name | name in resolved :: Inherits(agents, name, resolved[name])
    }

    constructor (agents: Agents)
      ensures this.agents == agents && Valid() && resolved == map[]
    {
      this.agents := agents;
      resolved := map[];
    }

    /** `resolveDefinition`. Whatever is memoized already, an answer is the fold of the chain, and an
        agent whose chain fits the remaining depth gets one. */
    method ResolveDefinition(name: Name, stack: seq<Name>) returns (d: Option<Definition>)
      requires Valid() && Leads(agents, stack, name) && |stack| <= MAX_INHERITANCE_DEPTH
      modifies this
      ensures Valid() && resolved.Keys >= old(resolved).Keys
      ensures d.Some? ==> Inherits(agents, name, d.value)
      ensures Rooted(agents, name, MAX_INHERITANCE_DEPTH - |stack|) ==> d.Some?
      decreases MAX_INHERITANCE_DEPTH - |stack|
    {
      if name in resolved { return Some(resolved[name]); }
      if |stack| >= MAX_INHERITANCE_DEPTH { return None; }
      if Rooted(agents, name, MAX_INHERITANCE_DEPTH - |stack|) {
        RootedIsNotOnStack(agents, stack, name, MAX_INHERITANCE_DEPTH - |stack|);
      }
      if name in stack { return None; }
      if name !in agents { return None; }
      var raw := agents[name];
      var base: Option<Definition> := None;
      if raw.from.Some? {
        LeadsOn(agents, stack, name);
        base := ResolveDefinition(raw.from.value, stack + [name]);
        if base.None? { return None; }
        InheritsStep(agents, name, base.value);
      } else {
        InheritsRoot(agents, name);
      }
      var definition := Extend(base, raw);
      resolved := resolved[name := definition];
      return Some(definition);
    }

    /** The loop over all names, in whatever order the map yields them: every acceptable agent is
        defined, and every definition is the fold of that agent's chain. */
    method ResolveAll(order: seq<Name>) returns (definitions: map<Name, Definition>)
      requires Valid() && forall name :: name in order <==> name in agents
      modifies this
      ensures forall name | name in definitions :: name in agents && Inherits(agents, name, definitions[name])
      ensures forall name | Acceptable(agents, name) :: name in definitions
      ensures (forall name | name in agents :: Acceptable(agents, name)) ==> definitions.Keys == agents.Keys
    {
      definitions := map[];
      for i := 0 to |order|
        invariant Valid()
        invariant forall name | name in definitions :: name in agents && Inherits(agents, name, definitions[name])
        invariant forall j | 0 <= j < i && Rooted(agents, order[j], MAX_INHERITANCE_DEPTH) :: order[j] in definitions
      {
        var d := ResolveDefinition(order[i], []);
        if d.Some? { definitions := definitions[order[i] := d.value]; }
      }
      forall name | Acceptable(agents, name) ensures name in definitions {
        RootedIsAcceptable(agents, name);
        assert name in order;
      }
    }
  }

  // ----- what an inherited definition holds -----

  /** The agents of a chain, root first. */
  function RootFirst<T>(agents: Agents, chain: seq<Name>, field: RawAgent -> T): seq<T>
    requires forall i | 0 <= i < |chain| :: chain[i] in agents
  {
    if chain == [] then [] else RootFirst(agents, chain[1..], field) + [field(agents[chain[0]])]
  }

  const MODEL_CONFIG: RawAgent -> Option<ModelConfig> := (raw: RawAgent) => raw.modelConfig

  const SESSION_CONFIG: RawAgent -> Option<SessionConfig> := (raw: RawAgent) => raw.sessionConfig

  const SYSTEM_INSTRUCTIONS: RawAgent -> Option<Instructions> := (raw: RawAgent) => raw.systemInstructions

  /** The model, session and instructions of a folded chain are the folds of its agents' own. */
  lemma {:induction false} FoldChainFolds(agents: Agents, chain: seq<Name>)
    requires chain != [] && forall i | 0 <= i < |chain| :: chain[i] in agents
    ensures FoldChain(agents, chain).modelConfig == FoldModel(RootFirst(agents, chain, MODEL_CONFIG))
    ensures FoldChain(agents, chain).sessionConfig == FoldSession(RootFirst(agents, chain, SESSION_CONFIG))
    ensures FoldChain(agents, chain).systemInstructions == FoldInstructions(RootFirst(agents, chain, SYSTEM_INSTRUCTIONS))
  {
    var m, i := RootFirst(agents, chain, MODEL_CONFIG), RootFirst(agents, chain, SYSTEM_INSTRUCTIONS);
    var s := RootFirst(agents, chain, SESSION_CONFIG);
    assert m[..|m| - 1] == RootFirst(agents, chain[1..], MODEL_CONFIG);
    assert s[..|s| - 1] == RootFirst(agents, chain[1..], SESSION_CONFIG);
    assert i[..|i| - 1] == RootFirst(agents, chain[1..], SYSTEM_INSTRUCTIONS);
    if |chain| > 1 {
      FoldChainFolds(agents, chain[1..]);
    }
  }

  /** What the first agent of a chain that declares a field says. */
  function Nearest<T>(agents: Agents, chain: seq<Name>, field: RawAgent -> Option<T>): Option<T>
    requires forall i | 0 <= i < |chain| :: chain[i] in agents
  {
    if chain == [] then None
    else Or(field(agents[chain[0]]), Nearest(agents, chain[1..], field))
  }

  /** The other fields are those of the nearest agent that declares them, as a whole. */
  lemma {:induction false} NearestDeclarationWins(agents: Agents, chain: seq<Name>)
    requires chain != [] && forall i | 0 <= i < |chain| :: chain[i] in agents
    ensures var d := FoldChain(agents, chain);
      && d.description == Nearest(agents, chain, (raw: RawAgent) => raw.description)
      && d.mcp == Nearest(agents, chain, (raw: RawAgent) => raw.mcp)
      && d.tools == GetOr(Nearest(agents, chain, (raw: RawAgent) => raw.tools), [])
      && d.skills == GetOr(Nearest(agents, chain, (raw: RawAgent) => raw.skills), [])
      && d.subagents == GetOr(Nearest(agents, chain, (raw: RawAgent) => raw.subagents), [])
  {
    if |chain| > 1 {
      NearestDeclarationWins(agents, chain[1..]);
    }
  }

  /** The session modes of an agent are those of the nearest agent of its chain that sets them. */
  lemma {:induction false} InheritedModes(agents: Agents, chain: seq<Name>, mode: SessionMode)
    requires chain != [] && forall i | 0 <= i < |chain| :: chain[i] in agents
    ensures ModeOf(FoldChain(agents, chain).sessionConfig, mode)
         == Nearest(agents, chain, (raw: RawAgent) => ModeOf(raw.sessionConfig, mode))
  {
    if |chain| > 1 { InheritedModes(agents, chain[1..], mode); }
  }

  /** The agent of a chain nearest to its start that says anything about a setting. */
  ghost predicate SpeaksFirst(agents: Agents, chain: seq<Name>, path: seq<Text>, k: nat)
    requires path != [] && forall i | 0 <= i < |chain| :: chain[i] in agents
  {
    && k < |chain| && !WordAt(SettingsOf(agents[chain[k]].sessionConfig), path).Silent?
    && forall j | 0 <= j < k :: WordAt(SettingsOf(agents[chain[j]].sessionConfig), path).Silent?
  }

  /** So is each plain setting, at any path of keys. */
  lemma {:induction false} InheritedSessionSetting(agents: Agents, chain: seq<Name>, path: seq<Text>, k: nat)
    requires path != [] && chain != [] && forall i | 0 <= i < |chain| :: chain[i] in agents
    requires SpeaksFirst(agents, chain, path, k)
    ensures Leaf(WordAt(SettingsOf(FoldChain(agents, chain).sessionConfig), path))
         == Leaf(WordAt(SettingsOf(agents[chain[k]].sessionConfig), path))
  {
    var own := agents[chain[0]].sessionConfig;
    var rest := chain[1..];
    if rest != [] {
      var base := FoldChain(agents, rest).sessionConfig;
      FoldedSettings(base, own);
      MergedWord(SettingsOf(base), SettingsOf(own), path);
      if k > 0 {
        assert rest[k - 1] == chain[k];
        assert forall j | 0 <= j < k - 1 :: rest[j] == chain[j + 1];
        InheritedSessionSetting(agents, rest, path, k - 1);
      }
    }
  }

  /** The prompt an agent gets from its inherited instructions is the one its chain builds up, root
      first, when no agent of the chain has empty instructions. */
  lemma InheritedPrompt(agents: Agents, name: Name, d: Definition, prompt: Option<Text>) returns (chain: seq<Name>)
    requires Inherits(agents, name, d)
    requires forall n | n in agents :: NonEmptyInstructions(agents[n].systemInstructions)
    ensures ChainToRoot(agents, name, chain)
    ensures Apply(prompt, d.systemInstructions) == ApplyAll(prompt, RootFirst(agents, chain, SYSTEM_INSTRUCTIONS))
  {
    chain :| ChainToRoot(agents, name, chain) && d == FoldChain(agents, chain);
    FoldChainFolds(agents, chain);
    RootFirstFields(agents, chain);
    ApplyFolded(prompt, RootFirst(agents, chain, SYSTEM_INSTRUCTIONS));
  }

  lemma {:induction false} RootFirstFields(agents: Agents, chain: seq<Name>)
    requires forall i | 0 <= i < |chain| :: chain[i] in agents
    requires forall n | n in agents :: NonEmptyInstructions(agents[n].systemInstructions)
    ensures var all := RootFirst(agents, chain, SYSTEM_INSTRUCTIONS);
      forall i | 0 <= i < |all| :: NonEmptyInstructions(all[i])
  {
    if chain != [] {
      RootFirstFields(agents, chain[1..]);
      var own := agents[chain[0]].systemInstructions;
      assert SYSTEM_INSTRUCTIONS(agents[chain[0]]) == own;
      assert RootFirst(agents, chain, SYSTEM_INSTRUCTIONS) == RootFirst(agents, chain[1..], SYSTEM_INSTRUCTIONS) + [own];
      assert NonEmptyInstructions(own);
    }
  }
}
