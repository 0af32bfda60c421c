/** The merges along an agent's `from` chain: model, session and system instructions. */
module Merges {
  import opened CodeUnits
  import opened Options
  import opened Json

  type Record = map<Text, Value>

  // ----- model configuration -----

  datatype ModelConfig = ModelConfig(
    name: Option<Text>,
    thinkingLevel: Option<Text>,
    streamOptions: Option<Record>,
    openrouter: Option<Record>,
    anthropic: Option<Record>,
    vercelAiGateway: Option<Record>)

  /** One section after the spreads: merged by key, absent only if absent on both sides. */
  function MergeSection(base: Option<Record>, overlay: Option<Record>): Option<Record> {
    var merged := (if base.Some? then base.value else map[]) + (if overlay.Some? then overlay.value else map[]);
    if merged != map[] then Some(merged) else Or(overlay, base)
  }

  /** `mergeRecipeAgentModelConfig`. */
  function MergeModel(base: Option<ModelConfig>, overlay: Option<ModelConfig>): Option<ModelConfig> {
    if base.None? then overlay
    else if overlay.None? then base
    else if overlay.value.name.Some? then overlay
    else Some(Refine(base.value, overlay.value))
  }

  /** Over a base, what a configuration without a model name says. */
  function Refine(b: ModelConfig, o: ModelConfig): ModelConfig {
    ModelConfig(
      b.name,
      Or(o.thinkingLevel, b.thinkingLevel),
      MergeSection(b.streamOptions, o.streamOptions),
      MergeSection(b.openrouter, o.openrouter),
      MergeSection(b.anthropic, o.anthropic),
      MergeSection(b.vercelAiGateway, o.vercelAiGateway))
  }

  lemma MergeSectionAssociative(a: Option<Record>, b: Option<Record>, c: Option<Record>)
    ensures MergeSection(MergeSection(a, b), c) == MergeSection(a, MergeSection(b, c))
  {
    MergeSectionIsUnion(a, b);
    MergeSectionIsUnion(b, c);
    MergeSectionIsUnion(MergeSection(a, b), c);
    MergeSectionIsUnion(a, MergeSection(b, c));
    var x, y, z := Keys(a), Keys(b), Keys(c);
    assert (x + y) + z == x + (y + z);
  }

  function Keys(section: Option<Record>): Record {
    if section.Some? then section.value else map[]
  }

  lemma MergeSectionIsUnion(a: Option<Record>, b: Option<Record>)
    ensures MergeSection(a, b) == if a.None? && b.None? then None else Some(Keys(a) + Keys(b))
  {
    assert Keys(a) + Keys(b) == map[] ==> Keys(a) == map[] && Keys(b) == map[] by {
      if Keys(a) + Keys(b) == map[] {
        assert (Keys(a) + Keys(b)).Keys == Keys(a).Keys + Keys(b).Keys;
        assert Keys(a).Keys == {} && Keys(b).Keys == {};
      }
    }
  }

  lemma RefineAssociative(a: ModelConfig, b: ModelConfig, c: ModelConfig)
    ensures Refine(Refine(a, b), c) == Refine(a, Refine(b, c))
  {
    MergeSectionAssociative(a.streamOptions, b.streamOptions, c.streamOptions);
    MergeSectionAssociative(a.openrouter, b.openrouter, c.openrouter);
    MergeSectionAssociative(a.anthropic, b.anthropic, c.anthropic);
    MergeSectionAssociative(a.vercelAiGateway, b.vercelAiGateway, c.vercelAiGateway);
  }

  lemma MergeModelAssociative(a: Option<ModelConfig>, b: Option<ModelConfig>, c: Option<ModelConfig>)
    ensures MergeModel(MergeModel(a, b), c) == MergeModel(a, MergeModel(b, c))
  {
    if a.Some? && b.Some? && c.Some? { RefineAssociative(a.value, b.value, c.value); }
  }

  /** Root first. */
  function FoldModel(chain: seq<Option<ModelConfig>>): Option<ModelConfig> {
    if chain == [] then None else MergeModel(FoldModel(chain[..|chain| - 1]), chain[|chain| - 1])
  }

  predicate NamesModel(m: Option<ModelConfig>) {
    m.Some? && m.value.name.Some?
  }

  /** An agent that names a model starts afresh: what its ancestors configured is gone. */
  lemma {:induction false} NearestNamingAgentStartsAfresh(chain: seq<Option<ModelConfig>>, k: nat)
    requires k < |chain| && NamesModel(chain[k])
    ensures FoldModel(chain) == FoldModel(chain[k..])
    decreases |chain|
  {
    var before, last := chain[..|chain| - 1], chain[|chain| - 1];
    if k == |chain| - 1 {
      assert chain[k..] == [last] && [last][..0] == [];
    } else {
      NearestNamingAgentStartsAfresh(before, k);
      assert chain[k..][..|chain[k..]| - 1] == before[k..];
      assert chain[k..][|chain[k..]| - 1] == last;
    }
  }

  lemma {:induction false} FoldModelNames(chain: seq<Option<ModelConfig>>)
    ensures NamesModel(FoldModel(chain)) <==> exists k :: 0 <= k < |chain| && NamesModel(chain[k])
    decreases |chain|
  {
    if chain != [] {
      var before := chain[..|chain| - 1];
      FoldModelNames(before);
      if k :| 0 <= k < |chain| && NamesModel(chain[k]) {
        if k < |before| { assert before[k] == chain[k]; }
      }
    }
  }

  /** The name of a folded configuration is that of the nearest agent that gives one. */
  lemma {:induction false} NearestNameWins(chain: seq<Option<ModelConfig>>, k: nat)
    requires k < |chain| && NamesModel(chain[k]) && forall j | k < j < |chain| :: !NamesModel(chain[j])
    ensures FoldModel(chain).Some? && FoldModel(chain).value.name == chain[k].value.name
    decreases |chain|
  {
    var before := chain[..|chain| - 1];
    if k < |before| { NearestNameWins(before, k); }
  }

  datatype Section = StreamOptions | OpenRouter | Anthropic | VercelAiGateway

  /** One thing a model configuration can set. */
  datatype Setting = ThinkingLevel | OptionOf(section: Section, key: Text)

  function SectionOf(m: ModelConfig, section: Section): Option<Record> {
    match section
    case StreamOptions => m.streamOptions
    case OpenRouter => m.openrouter
    case Anthropic => m.anthropic
    case VercelAiGateway => m.vercelAiGateway
  }

  function SettingOf(m: Option<ModelConfig>, setting: Setting): Option<Value> {
    if m.None? then None
    else match setting
      case ThinkingLevel => if m.value.thinkingLevel.Some? then Some(String(m.value.thinkingLevel.value)) else None
      case OptionOf(section, key) =>
        if key in Keys(SectionOf(m.value, section)) then Some(Keys(SectionOf(m.value, section))[key]) else None
  }

  /** What the agent nearest to the end of a chain says, looking no further back than the nearest agent
      that names a model. */
  function NearestSetting(chain: seq<Option<ModelConfig>>, setting: Setting): Option<Value> {
    if chain == [] then None
    else
      var last := chain[|chain| - 1];
      if SettingOf(last, setting).Some? then SettingOf(last, setting)
      else if NamesModel(last) then None
      else NearestSetting(chain[..|chain| - 1], setting)
  }

  lemma RefinedSetting(b: ModelConfig, o: ModelConfig, setting: Setting)
    ensures SettingOf(Some(Refine(b, o)), setting) == Or(SettingOf(Some(o), setting), SettingOf(Some(b), setting))
  {
    if setting.OptionOf? {
      MergeSectionIsUnion(SectionOf(b, setting.section), SectionOf(o, setting.section));
    }
  }

  /** Each setting of a folded configuration is the nearest agent's: a child overrides one option
      without restating the others. */
  lemma {:induction false} NearestAgentWins(chain: seq<Option<ModelConfig>>, setting: Setting)
    ensures SettingOf(FoldModel(chain), setting) == NearestSetting(chain, setting)
    decreases |chain|
  {
    if chain != [] {
      var base, last := FoldModel(chain[..|chain| - 1]), chain[|chain| - 1];
      NearestAgentWins(chain[..|chain| - 1], setting);
      if base.Some? && last.Some? && last.value.name.None? {
        RefinedSetting(base.value, last.value, setting);
      }
    }
  }

  // ----- session configuration -----

  /** `mergeObjects`: records merge by key, anything else is replaced. */
  function MergeObjects(base: Record, overlay: Record): Record
    decreases Object(overlay)
  {
    map k | k in base.Keys + overlay.Keys ::
      if k !in overlay then base[k]
      else if k in base && base[k].Object? && overlay[k].Object? then
        Object(MergeObjects(base[k].fields, overlay[k].fields))
      else overlay[k]
  }

  /** The loop of `mergeObjects`, over the overlay's entries in any order. */
  method RunMergeObjects(base: Record, overlay: Record) returns (merged: Record)
    ensures merged == MergeObjects(base, overlay)
    decreases Object(overlay)
  {
    merged := base;
    var rest := overlay.Keys;
    while rest != {}
      invariant rest <= overlay.Keys
      invariant merged.Keys == base.Keys + (overlay.Keys - rest)
      invariant forall k | k in merged ::
        merged[k] == if k in rest then base[k] else MergeObjects(base, overlay)[k]
      decreases rest
    {
      var key :| key in rest;
      if key in merged && merged[key].Object? && overlay[key].Object? {
        var nested := RunMergeObjects(merged[key].fields, overlay[key].fields);
        merged := merged[key := Object(nested)];
      } else {
        merged := merged[key := overlay[key]];
      }
      rest := rest - {key};
    }
  }

  datatype SessionConfig = SessionConfig(
    steeringMode: Option<Text>,
    followUpMode: Option<Text>,
    toolExecution: Option<Text>,
    settings: Option<Record>)

  /** `mergeRecipeAgentSessionConfig`. */
  function MergeSession(base: Option<SessionConfig>, overlay: Option<SessionConfig>): Option<SessionConfig> {
    if base.None? then overlay
    else if overlay.None? then base
    else
      var b, o := base.value, overlay.value;
      var settings := MergeObjects(Keys(b.settings), Keys(o.settings));
      Some(SessionConfig(
        Or(o.steeringMode, b.steeringMode),
        Or(o.followUpMode, b.followUpMode),
        Or(o.toolExecution, b.toolExecution),
        if settings != map[] then Some(settings) else Or(o.settings, b.settings)))
  }

  /** Root first. */
  function FoldSession(chain: seq<Option<SessionConfig>>): Option<SessionConfig> {
    if chain == [] then None else MergeSession(FoldSession(chain[..|chain| - 1]), chain[|chain| - 1])
  }

  /** Which keys hold nested sections and which hold plain values. */
  datatype Shape = Plain | Section(keys: map<Text, Shape>)

  predicate Fits(r: Record, shape: map<Text, Shape>)
    decreases Object(r)
  {
    forall k | k in r ::
      && k in shape
      && match shape[k]
         case Plain => !r[k].Object?
         case Section(keys) => r[k].Object? && Fits(r[k].fields, keys)
  }

  lemma {:induction false} MergeFits(a: Record, b: Record, shape: map<Text, Shape>)
    requires Fits(a, shape) && Fits(b, shape)
    ensures Fits(MergeObjects(a, b), shape)
    decreases Object(b)
  {
    var m := MergeObjects(a, b);
    forall k | k in m
      ensures k in shape
      ensures match shape[k]
        case Plain => !m[k].Object?
        case Section(keys) => m[k].Object? && Fits(m[k].fields, keys)
    {
      if k in a && k in b && shape[k].Section? { MergeFits(a[k].fields, b[k].fields, shape[k].keys); }
    }
  }

  /** `z` has a value for everything `x` has, down through the sections they share. */
  predicate Covers(z: Record, x: Record)
    decreases Object(x)
  {
    forall k | k in x :: k in z && (x[k].Object? && z[k].Object? ==> Covers(z[k].fields, x[k].fields))
  }

  lemma {:induction false} CoveredChangesNothing(x: Record, z: Record)
    ensures MergeObjects(x, z) == z <==> Covers(z, x)
    decreases Object(x)
  {
    var m := MergeObjects(x, z);
    forall k | k in x && k in z && x[k].Object? && z[k].Object?
      ensures m[k] == z[k] <==> Covers(z[k].fields, x[k].fields)
    {
      CoveredChangesNothing(x[k].fields, z[k].fields);
      assert m[k] == Object(MergeObjects(x[k].fields, z[k].fields));
    }
    if Covers(z, x) { assert m.Keys == z.Keys; }
  }

  /** Where two sections have a plain value of the same key between them, the later section must make up
      for all of the earlier one. */
  predicate Coherent(a: Record, b: Record, c: Record)
    decreases Object(c), 1
  {
    forall k | k in a.Keys * b.Keys * c.Keys :: CoherentAt(a, b, c, k)
  }

  predicate CoherentAt(a: Record, b: Record, c: Record, k: Text)
    requires k in a && k in b && k in c
    decreases Object(c), 0
  {
    a[k].Object? && c[k].Object? ==>
      if b[k].Object? then Coherent(a[k].fields, b[k].fields, c[k].fields)
      else Covers(c[k].fields, a[k].fields)
  }

  lemma {:induction false} AssociatesAt(a: Record, b: Record, c: Record, k: Text)
    requires k in a.Keys + b.Keys + c.Keys
    ensures MergeObjects(MergeObjects(a, b), c)[k] == MergeObjects(a, MergeObjects(b, c))[k]
       <==> (k in a && k in b && k in c ==> CoherentAt(a, b, c, k))
    decreases Object(c), 0
  {
    if k in a && k in b && k in c && a[k].Object? && c[k].Object? {
      var x, z := a[k].fields, c[k].fields;
      if b[k].Object? {
        var y := b[k].fields;
        AssociatesExactly(x, y, z);
        assert MergeObjects(a, b)[k] == Object(MergeObjects(x, y));
        assert MergeObjects(b, c)[k] == Object(MergeObjects(y, z));
        assert MergeObjects(MergeObjects(a, b), c)[k] == Object(MergeObjects(MergeObjects(x, y), z));
        assert MergeObjects(a, MergeObjects(b, c))[k] == Object(MergeObjects(x, MergeObjects(y, z)));
      } else {
        CoveredChangesNothing(x, z);
        assert MergeObjects(a, b)[k] == b[k] && MergeObjects(b, c)[k] == c[k];
        assert MergeObjects(MergeObjects(a, b), c)[k] == c[k];
        assert MergeObjects(a, MergeObjects(b, c))[k] == Object(MergeObjects(x, z));
      }
    }
  }

  /** When merging settings is associative. */
  lemma {:induction false} AssociatesExactly(a: Record, b: Record, c: Record)
    ensures MergeObjects(MergeObjects(a, b), c) == MergeObjects(a, MergeObjects(b, c)) <==> Coherent(a, b, c)
    decreases Object(c), 1
  {
    var left, right := MergeObjects(MergeObjects(a, b), c), MergeObjects(a, MergeObjects(b, c));
    var keys := a.Keys + b.Keys + c.Keys;
    assert left.Keys == keys && right.Keys == keys;
    if Coherent(a, b, c) {
      forall k | k in keys ensures left[k] == right[k] { AssociatesAt(a, b, c, k); }
    }
    if left == right {
      forall k | k in a.Keys * b.Keys * c.Keys ensures CoherentAt(a, b, c, k) { AssociatesAt(a, b, c, k); }
    }
  }

  lemma {:induction false} FittingIsCoherent(a: Record, b: Record, c: Record, shape: map<Text, Shape>)
    requires Fits(a, shape) && Fits(b, shape) && Fits(c, shape)
    ensures Coherent(a, b, c)
    decreases Object(c)
  {
    forall k | k in a.Keys * b.Keys * c.Keys ensures CoherentAt(a, b, c, k) {
      if a[k].Object? && c[k].Object? {
        FittingIsCoherent(a[k].fields, b[k].fields, c[k].fields, shape[k].keys);
      }
    }
  }

  predicate SessionFits(s: Option<SessionConfig>, shape: map<Text, Shape>) {
    s.Some? ==> Fits(Keys(s.value.settings), shape)
  }

  lemma MergeSettingsKeys(b: SessionConfig, o: SessionConfig)
    ensures Keys(MergeSession(Some(b), Some(o)).value.settings) == MergeObjects(Keys(b.settings), Keys(o.settings))
    ensures MergeSession(Some(b), Some(o)).value.settings.None? <==> b.settings.None? && o.settings.None?
  {
    var m := MergeObjects(Keys(b.settings), Keys(o.settings));
    assert m.Keys == Keys(b.settings).Keys + Keys(o.settings).Keys;
    if m == map[] {
      assert m.Keys == {} && Keys(b.settings).Keys == {} && Keys(o.settings).Keys == {};
      assert Keys(b.settings) == map[] && Keys(o.settings) == map[];
    }
  }

  /** Merging session configurations is associative exactly where merging their settings is. */
  lemma SessionAssociatesExactly(a: Option<SessionConfig>, b: Option<SessionConfig>, c: Option<SessionConfig>)
    ensures MergeSession(MergeSession(a, b), c) == MergeSession(a, MergeSession(b, c))
       <==> (a.Some? && b.Some? && c.Some? ==>
              Coherent(Keys(a.value.settings), Keys(b.value.settings), Keys(c.value.settings)))
  {
    if a.Some? && b.Some? && c.Some? {
      var ab, bc := MergeSession(a, b).value, MergeSession(b, c).value;
      MergeSettingsKeys(a.value, b.value);
      MergeSettingsKeys(b.value, c.value);
      MergeSettingsKeys(ab, c.value);
      MergeSettingsKeys(a.value, bc);
      AssociatesExactly(Keys(a.value.settings), Keys(b.value.settings), Keys(c.value.settings));
    }
  }

  /** So it is associative on what the parser produces, settings of one shape. */
  lemma MergeSessionAssociative(
      a: Option<SessionConfig>, b: Option<SessionConfig>, c: Option<SessionConfig>, shape: map<Text, Shape>)
    requires SessionFits(a, shape) && SessionFits(b, shape) && SessionFits(c, shape)
    ensures MergeSession(MergeSession(a, b), c) == MergeSession(a, MergeSession(b, c))
  {
    SessionAssociatesExactly(a, b, c);
    if a.Some? && b.Some? && c.Some? {
      FittingIsCoherent(Keys(a.value.settings), Keys(b.value.settings), Keys(c.value.settings), shape);
    }
  }

  ghost predicate AllFit(chain: seq<Option<SessionConfig>>, shape: map<Text, Shape>) {
    forall i | 0 <= i < |chain| :: SessionFits(chain[i], shape)
  }

  lemma MergeSessionFits(base: Option<SessionConfig>, overlay: Option<SessionConfig>, shape: map<Text, Shape>)
    requires SessionFits(base, shape) && SessionFits(overlay, shape)
    ensures SessionFits(MergeSession(base, overlay), shape)
  {
    if base.Some? && overlay.Some? {
      MergeSettingsKeys(base.value, overlay.value);
      MergeFits(Keys(base.value.settings), Keys(overlay.value.settings), shape);
    }
  }

  lemma {:induction false} FoldFits(chain: seq<Option<SessionConfig>>, shape: map<Text, Shape>)
    requires AllFit(chain, shape)
    ensures SessionFits(FoldSession(chain), shape)
  {
    if chain != [] {
      FoldFits(chain[..|chain| - 1], shape);
      MergeSessionFits(FoldSession(chain[..|chain| - 1]), chain[|chain| - 1], shape);
    }
  }

  /** A chain of session configurations of one shape keeps the shape, and folds in parts: the upper part
      and the lower part first, and then the two. */
  lemma {:induction false} FoldSessionInParts(upper: seq<Option<SessionConfig>>, lower: seq<Option<SessionConfig>>, shape: map<Text, Shape>)
    requires AllFit(upper, shape) && AllFit(lower, shape)
    ensures SessionFits(FoldSession(upper + lower), shape)
    ensures FoldSession(upper + lower) == MergeSession(FoldSession(upper), FoldSession(lower))
    decreases |lower|
  {
    FoldFits(upper, shape);
    FoldFits(lower, shape);
    if lower == [] {
      assert upper + lower == upper;
    } else {
      var before, last := lower[..|lower| - 1], lower[|lower| - 1];
      FoldFits(before, shape);
      FoldSessionInParts(upper, before, shape);
      assert (upper + lower)[..|upper + lower| - 1] == upper + before;
      MergeSessionAssociative(FoldSession(upper), FoldSession(before), last, shape);
    }
    MergeSessionFits(FoldSession(upper), FoldSession(lower), shape);
  }

  // ----- what the nearest agent says -----

  datatype SessionMode = Steering | FollowUp | ToolExecution

  function ModeOf(s: Option<SessionConfig>, mode: SessionMode): Option<Text> {
    if s.None? then None
    else match mode
      case Steering => s.value.steeringMode
      case FollowUp => s.value.followUpMode
      case ToolExecution => s.value.toolExecution
  }

  /** The last agent of a chain that sets a mode. */
  ghost predicate SetsLast(chain: seq<Option<SessionConfig>>, mode: SessionMode, k: nat) {
    && k < |chain| && ModeOf(chain[k], mode).Some?
    && forall j | k < j < |chain| :: ModeOf(chain[j], mode).None?
  }

  /** Each mode of a folded configuration is that of the nearest agent that sets it, and there is none if
      nobody does. */
  lemma {:induction false} NearestModeWins(chain: seq<Option<SessionConfig>>, mode: SessionMode)
    ensures forall k: nat | SetsLast(chain, mode, k) :: ModeOf(FoldSession(chain), mode) == ModeOf(chain[k], mode)
    ensures (forall k | 0 <= k < |chain| :: ModeOf(chain[k], mode).None?) ==> ModeOf(FoldSession(chain), mode).None?
    decreases |chain|
  {
    if chain != [] {
      var before, last := chain[..|chain| - 1], chain[|chain| - 1];
      NearestModeWins(before, mode);
      assert ModeOf(FoldSession(chain), mode) == Or(ModeOf(last, mode), ModeOf(FoldSession(before), mode));
      forall k: nat | SetsLast(chain, mode, k) ensures ModeOf(FoldSession(chain), mode) == ModeOf(chain[k], mode) {
        if k < |before| { assert SetsLast(before, mode, k) && before[k] == chain[k]; }
      }
    }
  }

  /** What a record says of the plain setting at a path of keys: nothing, a value, or that there is none,
      because something else stands on the path or at its end. */
  datatype Word = Silent | Plainly(value: Value) | Blocked

  function WordAt(r: Record, path: seq<Text>): Word
    requires path != []
    decreases |path|
  {
    if path[0] !in r then Silent
    else if |path| == 1 then if r[path[0]].Object? then Blocked else Plainly(r[path[0]])
    else if r[path[0]].Object? then WordAt(r[path[0]].fields, path[1..])
    else Blocked
  }

  function Leaf(w: Word): Option<Value> {
    if w.Plainly? then Some(w.value) else None
  }

  lemma {:induction false} MergedWord(a: Record, b: Record, path: seq<Text>)
    requires path != []
    ensures Leaf(WordAt(MergeObjects(a, b), path))
         == if WordAt(b, path).Silent? then Leaf(WordAt(a, path)) else Leaf(WordAt(b, path))
    decreases |path|
  {
    var k := path[0];
    if |path| > 1 && k in b && b[k].Object? && k in a && a[k].Object? {
      MergedWord(a[k].fields, b[k].fields, path[1..]);
    }
  }

  function SettingsOf(s: Option<SessionConfig>): Record {
    if s.None? then map[] else Keys(s.value.settings)
  }

  /** The last agent of a chain that says anything about the setting at a path. */
  ghost predicate SpeaksLast(chain: seq<Option<SessionConfig>>, path: seq<Text>, k: nat)
    requires path != []
  {
    && k < |chain| && !WordAt(SettingsOf(chain[k]), path).Silent?
    && forall j | k < j < |chain| :: WordAt(SettingsOf(chain[j]), path).Silent?
  }

  lemma FoldedSettings(base: Option<SessionConfig>, overlay: Option<SessionConfig>)
    ensures SettingsOf(MergeSession(base, overlay)) == MergeObjects(SettingsOf(base), SettingsOf(overlay))
  {
    MergeObjectsUnit(SettingsOf(base));
    MergeObjectsUnit(SettingsOf(overlay));
    if base.Some? && overlay.Some? { MergeSettingsKeys(base.value, overlay.value); }
  }

  /** Each plain setting of a folded configuration, at any path of keys, is what the nearest agent says that
      says anything about it, and there is none if nobody does. */
  lemma {:induction false} NearestSessionSettingWins(chain: seq<Option<SessionConfig>>, path: seq<Text>)
    requires path != []
    ensures forall k: nat | SpeaksLast(chain, path, k) ::
      Leaf(WordAt(SettingsOf(FoldSession(chain)), path)) == Leaf(WordAt(SettingsOf(chain[k]), path))
    ensures (forall k | 0 <= k < |chain| :: WordAt(SettingsOf(chain[k]), path).Silent?)
      ==> Leaf(WordAt(SettingsOf(FoldSession(chain)), path)).None?
    decreases |chain|
  {
    if chain != [] {
      var before, last := chain[..|chain| - 1], chain[|chain| - 1];
      NearestSessionSettingWins(before, path);
      FoldedSettings(FoldSession(before), last);
      MergedWord(SettingsOf(FoldSession(before)), SettingsOf(last), path);
      forall k: nat | SpeaksLast(chain, path, k)
        ensures Leaf(WordAt(SettingsOf(FoldSession(chain)), path)) == Leaf(WordAt(SettingsOf(chain[k]), path))
      {
        if k < |before| { assert SpeaksLast(before, path, k) && before[k] == chain[k]; }
      }
    }
  }

  /** Where a plain value comes between two sections, grouping matters: the plain value forgets the
      first section only if it is merged with it first. */
  lemma MixedShapesDoNotAssociate(k: Text, x: Text, y: Text, plain: Value, v: Value)
    requires !plain.Object? && x != y
    ensures var a, b, c := map[k := Object(map[x := v])], map[k := plain], map[k := Object(map[y := v])];
      MergeObjects(MergeObjects(a, b), c) != MergeObjects(a, MergeObjects(b, c))
  {
    var a, b, c := map[k := Object(map[x := v])], map[k := plain], map[k := Object(map[y := v])];
    assert MergeObjects(MergeObjects(a, b), c)[k] == c[k];
    assert MergeObjects(b, c)[k] == c[k];
    assert x in MergeObjects(a, MergeObjects(b, c))[k].fields;
  }

  // ----- system instructions -----

  datatype Mode = Append | Replace

  datatype Instructions = Instructions(mode: Mode, content: Text)

  const BLANK_LINE: Text := [NEWLINE, NEWLINE]

  /** `mergeSystemInstructions`. */
  function MergeInstructions(base: Option<Instructions>, child: Option<Instructions>): Option<Instructions> {
    if base.None? then child
    else if child.None? then base
    else if child.value.mode.Replace? then child
    else Some(Instructions(base.value.mode, base.value.content + BLANK_LINE + child.value.content))
  }

  /** `[base, content].filter(Boolean).join("\n\n")`. */
  function JoinPresent(base: Option<Text>, content: Text): Text {
    if base.None? || base.value == [] then content
    else if content == [] then base.value
    else base.value + BLANK_LINE + content
  }

  /** `applySystemInstructions`. */
  function Apply(prompt: Option<Text>, instructions: Option<Instructions>): Option<Text> {
    if instructions.None? then prompt
    else if instructions.value.mode.Replace? then Some(instructions.value.content)
    else Some(JoinPresent(prompt, instructions.value.content))
  }

  lemma MergeInstructionsAssociative(a: Option<Instructions>, b: Option<Instructions>, c: Option<Instructions>)
    ensures MergeInstructions(MergeInstructions(a, b), c) == MergeInstructions(a, MergeInstructions(b, c))
  {
    if a.Some? && b.Some? && c.Some? && b.value.mode.Append? && c.value.mode.Append? {
      var x, y, z := a.value.content, b.value.content, c.value.content;
      assert (x + BLANK_LINE + y) + BLANK_LINE + z == x + BLANK_LINE + (y + BLANK_LINE + z);
    }
  }

  /** Merging and then applying is applying one after the other, for every prompt, exactly when the
      child replaces or neither side is empty. */
  lemma MergeThenApply(a: Instructions, b: Instructions)
    ensures (forall prompt :: Apply(prompt, MergeInstructions(Some(a), Some(b))) == Apply(Apply(prompt, Some(a)), Some(b)))
       <==> b.mode.Replace? || (a.content != [] && b.content != [])
  {
    if b.mode.Replace? || (a.content != [] && b.content != []) {
      forall prompt ensures Apply(prompt, MergeInstructions(Some(a), Some(b))) == Apply(Apply(prompt, Some(a)), Some(b)) {
        AppliesOneByOne(prompt, a, b);
      }
    } else {
      var prompt: Option<Text> := None;
      assert |Apply(prompt, MergeInstructions(Some(a), Some(b))).value| == |a.content| + 2 + |b.content|;
      assert |Apply(Apply(prompt, Some(a)), Some(b)).value| == |a.content| + |b.content|;
    }
  }

  lemma AppliesOneByOne(prompt: Option<Text>, a: Instructions, b: Instructions)
    requires b.mode.Replace? || (a.content != [] && b.content != [])
    ensures Apply(prompt, MergeInstructions(Some(a), Some(b))) == Apply(Apply(prompt, Some(a)), Some(b))
  {
    if b.mode.Append? && prompt.Some? {
      var p, x, y := prompt.value, a.content, b.content;
      assert p + BLANK_LINE + (x + BLANK_LINE + y) == (p + BLANK_LINE + x) + BLANK_LINE + y;
    }
  }

  function FoldInstructions(chain: seq<Option<Instructions>>): Option<Instructions> {
    if chain == [] then None else MergeInstructions(FoldInstructions(chain[..|chain| - 1]), chain[|chain| - 1])
  }

  function ApplyAll(prompt: Option<Text>, chain: seq<Option<Instructions>>): Option<Text> {
    if chain == [] then prompt else Apply(ApplyAll(prompt, chain[..|chain| - 1]), chain[|chain| - 1])
  }

  predicate NonEmptyInstructions(i: Option<Instructions>) {
    i.Some? ==> i.value.content != []
  }

  /** Applying what a chain inherits equals applying each agent's own instructions, root first. */
  lemma {:induction false} ApplyFolded(prompt: Option<Text>, chain: seq<Option<Instructions>>)
    requires forall i | 0 <= i < |chain| :: NonEmptyInstructions(chain[i])
    ensures NonEmptyInstructions(FoldInstructions(chain))
    ensures Apply(prompt, FoldInstructions(chain)) == ApplyAll(prompt, chain)
    decreases |chain|
  {
    if chain != [] {
      var before, last := chain[..|chain| - 1], chain[|chain| - 1];
      ApplyFolded(prompt, before);
      if FoldInstructions(before).Some? && last.Some? {
        AppliesOneByOne(prompt, FoldInstructions(before).value, last.value);
      }
    }
  }

  // ----- the prompt a chain builds up -----

  /** The texts that are not empty, with a blank line between any two. */
  function Paragraphs(texts: seq<Text>): Text {
    if texts == [] then []
    else
      var before, last := Paragraphs(texts[..|texts| - 1]), texts[|texts| - 1];
      if last == [] then before else if before == [] then last else before + BLANK_LINE + last
  }

  function Contents(chain: seq<Option<Instructions>>): seq<Text> {
    if chain == [] then []
    else
      var last := chain[|chain| - 1];
      Contents(chain[..|chain| - 1]) + if last.Some? then [last.value.content] else []
  }

  predicate Replaces(i: Option<Instructions>) { i.Some? && i.value.mode.Replace? }

  /** The last agent of a chain that replaces the prompt. */
  ghost predicate ReplacesLast(chain: seq<Option<Instructions>>, k: nat) {
    k < |chain| && Replaces(chain[k]) && forall j | k < j < |chain| :: !Replaces(chain[j])
  }

  lemma AppliedParagraph(base: Text, prompt: Option<Text>, i: Instructions)
    requires i.mode.Append? && prompt == Some(base)
    ensures Apply(prompt, Some(i)) == Some(if i.content == [] then base else if base == [] then i.content
                                           else base + BLANK_LINE + i.content)
  {
  }

  lemma ParagraphsOfLast(texts: seq<Text>, last: Text)
    ensures var before := Paragraphs(texts);
      Paragraphs(texts + [last])
      == if last == [] then before else if before == [] then last else before + BLANK_LINE + last
  {
    assert (texts + [last])[..|texts|] == texts;
  }

  lemma ContentsOfLast(chain: seq<Option<Instructions>>, last: Option<Instructions>)
    ensures Contents(chain + [last]) == Contents(chain) + if last.Some? then [last.value.content] else []
  {
    assert (chain + [last])[..|chain|] == chain;
  }

  /** One more agent that does not replace. */
  lemma OneMoreParagraph(part: seq<Option<Instructions>>, last: Option<Instructions>, prompt: Option<Text>)
    requires !Replaces(last) && prompt == Some(Paragraphs(Contents(part)))
    ensures Apply(prompt, last) == Some(Paragraphs(Contents(part + [last])))
  {
    ContentsOfLast(part, last);
    if last.Some? {
      AppliedParagraph(prompt.value, prompt, last.value);
      ParagraphsOfLast(Contents(part), last.value.content);
    } else {
      assert Contents(part) + [] == Contents(part);
    }
  }

  lemma FirstParagraph(i: Instructions)
    ensures Paragraphs(Contents([Some(i)])) == i.content
  {
    ContentsOfLast([], Some(i));
    assert [] + [Some(i)] == [Some(i)] && Contents([]) + [i.content] == [] + [i.content];
    ParagraphsOfLast([], i.content);
  }

  /** The prompt that replaces begins anew with its text, and every later text that is not empty is a
      paragraph more. */
  lemma {:induction false} ReplacedPrompt(prompt: Option<Text>, chain: seq<Option<Instructions>>, k: nat)
    requires ReplacesLast(chain, k)
    ensures ApplyAll(prompt, chain) == Some(Paragraphs(Contents(chain[k..])))
    decreases |chain|
  {
    var before, last := chain[..|chain| - 1], chain[|chain| - 1];
    if k == |chain| - 1 {
      assert chain[k..] == [Some(last.value)];
      FirstParagraph(last.value);
    } else {
      assert ReplacesLast(before, k);
      ReplacedPrompt(prompt, before, k);
      assert chain[k..] == before[k..] + [last];
      OneMoreParagraph(before[k..], last, ApplyAll(prompt, before));
    }
  }

  function BaseText(prompt: Option<Text>): seq<Text> {
    if prompt.Some? then [prompt.value] else []
  }

  /** Without one the base prompt comes first, if there is one; and without any text there is no prompt. */
  lemma {:induction false} ExtendedPrompt(prompt: Option<Text>, chain: seq<Option<Instructions>>)
    requires forall j | 0 <= j < |chain| :: !Replaces(chain[j])
    ensures var texts := BaseText(prompt) + Contents(chain);
      ApplyAll(prompt, chain) == if texts == [] then None else Some(Paragraphs(texts))
    decreases |chain|
  {
    if chain == [] {
      if prompt.Some? {
        ParagraphsOfLast([], prompt.value);
        assert BaseText(prompt) + Contents(chain) == [] + [prompt.value];
      }
    } else {
      var before, last := chain[..|chain| - 1], chain[|chain| - 1];
      ExtendedPrompt(prompt, before);
      assert chain == before + [last];
      ContentsOfLast(before, last);
      var texts := BaseText(prompt) + Contents(before);
      if last.Some? {
        ParagraphsOfLast(texts, last.value.content);
        assert BaseText(prompt) + Contents(chain) == texts + [last.value.content];
        if texts != [] { AppliedParagraph(Paragraphs(texts), ApplyAll(prompt, before), last.value); }
      } else {
        assert BaseText(prompt) + Contents(chain) == texts;
      }
    }
  }

  // ----- units -----

  lemma {:induction false} MergeObjectsUnit(a: Record)
    ensures MergeObjects(a, map[]) == a && MergeObjects(map[], a) == a
  {
  }

  /** An agent that configures nothing, or only an empty record of settings, changes nothing, wherever it
      stands in the chain. */
  lemma MergesHaveUnits(m: Option<ModelConfig>, s: SessionConfig, i: Option<Instructions>, empty: SessionConfig)
    requires Keys(empty.settings) == map[]
    ensures MergeModel(None, m) == m && MergeModel(m, None) == m
    ensures MergeSession(None, Some(s)) == Some(s) && MergeSession(Some(s), None) == Some(s)
    ensures MergeInstructions(None, i) == i && MergeInstructions(i, None) == i
    ensures Keys(MergeSession(Some(s), Some(empty)).value.settings) == Keys(s.settings)
    ensures Keys(MergeSession(Some(empty), Some(s)).value.settings) == Keys(s.settings)
  {
    MergeObjectsUnit(Keys(s.settings));
    MergeSettingsKeys(s, empty);
    MergeSettingsKeys(empty, s);
  }
}
