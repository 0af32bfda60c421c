/** Inlining of local `$ref`s in a JSON Schema: when it returns, and what the inlined schema says. */
module Dereference {
  import opened CodeUnits
  import opened Json
  import opened JsonPointer
  import opened Options

  const REF: Text := [36, 114, 101, 102]                                              // $ref
  const DEFS: Text := [36, 100, 101, 102, 115]                                        // $defs
  const DEFINITIONS: Text := [100, 101, 102, 105, 110, 105, 116, 105, 111, 110, 115]  // definitions

  /** What the references of one document point at: an object, or nothing usable. */
  type Resolver = Text -> Option<Record>

  /** The reference an object carries. */
  function RefOf(fields: Record): Option<Text> {
    if REF in fields && fields[REF].String? then Some(fields[REF].s) else None
  }

  /** The entries beside a `$ref`. */
  function Own(fields: Record): Record {
    if RefOf(fields).Some? then fields - {REF} else fields
  }

  /** The keys of those entries that are not definition sections. */
  function Kept(fields: Record): (keys: set<Text>)
    ensures forall k :: k in keys <==>
      k in fields && k != DEFS && k != DEFINITIONS && (RefOf(fields).Some? ==> k != REF)
  {
    Own(fields).Keys - {DEFS, DEFINITIONS}
  }

  // ----- termination: references not yet on the stack, then the size of the value -----

  /** Every string under a `$ref` key, at any depth, is in `refs`. */
  ghost predicate Within(v: Value, refs: set<Text>) {
    match v
    case Array(items) => forall i | 0 <= i < |items| :: Within(items[i], refs)
    case Object(fields) =>
      (RefOf(fields).Some? ==> RefOf(fields).value in refs) && forall k | k in fields :: Within(fields[k], refs)
    case _ => true
  }

  ghost predicate Bounded(resolve: Resolver, refs: set<Text>) {
    forall r | resolve(r).Some? :: Within(Object(resolve(r).value), refs)
  }

  ghost function Unused(refs: set<Text>, stack: seq<Text>): nat {
    |refs - set s | s in stack|
  }

  lemma UnusedShrinks(refs: set<Text>, stack: seq<Text>, r: Text)
    requires r in refs && r !in stack
    ensures Unused(refs, stack + [r]) < Unused(refs, stack)
  {
    var before := refs - set s | s in stack;
    assert refs - (set s | s in stack + [r]) == before - {r};
  }

  // ----- the transformation -----

  /** `dereferenceSchema`; `None` where it throws. */
  function Dereferenced(resolve: Resolver, ghost refs: set<Text>, v: Value, stack: seq<Text>): (r: Option<Value>)
    requires Bounded(resolve, refs) && Within(v, refs)
    ensures r.Some? ==> (r.value.Object? <==> v.Object?)
    decreases Unused(refs, stack), v, 1
  {
    match v
    case Array(items) =>
      var all := DereferencedItems(resolve, refs, v, stack);
      if all.Some? then Some(Array(all.value)) else None
    case Object(fields) =>
      var siblings := DereferencedFields(resolve, refs, v, stack);
      if RefOf(fields).None? then
        if siblings.Some? then Some(Object(siblings.value)) else None
      else
        var reference := RefOf(fields).value;
        if reference in stack || resolve(reference).None? then None
        else
          UnusedShrinks(refs, stack, reference);
          var target := Dereferenced(resolve, refs, Object(resolve(reference).value), stack + [reference]);
          if target.Some? && siblings.Some? then Some(Object(target.value.fields + siblings.value)) else None
    case _ => Some(v)
  }

  function DereferencedItems(resolve: Resolver, ghost refs: set<Text>, v: Value, stack: seq<Text>): (r: Option<seq<Value>>)
    requires Bounded(resolve, refs) && Within(v, refs) && v.Array?
    ensures r.Some? <==> forall i | 0 <= i < |v.items| :: Dereferenced(resolve, refs, v.items[i], stack).Some?
    ensures r.Some? ==>
      && |r.value| == |v.items|
      && forall i | 0 <= i < |v.items| :: Some(r.value[i]) == Dereferenced(resolve, refs, v.items[i], stack)
    decreases Unused(refs, stack), v, 0
  {
    if forall i | 0 <= i < |v.items| :: Dereferenced(resolve, refs, v.items[i], stack).Some?
    then Some(seq(|v.items|, i requires 0 <= i < |v.items| => Dereferenced(resolve, refs, v.items[i], stack).value))
    else None
  }

  function DereferencedFields(resolve: Resolver, ghost refs: set<Text>, v: Value, stack: seq<Text>): (r: Option<Record>)
    requires Bounded(resolve, refs) && Within(v, refs) && v.Object?
    ensures r.Some? <==> forall k | k in Kept(v.fields) :: Dereferenced(resolve, refs, v.fields[k], stack).Some?
    ensures r.Some? ==>
      && r.value.Keys == Kept(v.fields)
      && forall k | k in Kept(v.fields) :: Some(r.value[k]) == Dereferenced(resolve, refs, v.fields[k], stack)
    decreases Unused(refs, stack), v, 0
  {
    if forall k | k in Kept(v.fields) :: Dereferenced(resolve, refs, v.fields[k], stack).Some?
    then Some(map k | k in Kept(v.fields) :: Dereferenced(resolve, refs, v.fields[k], stack).value)
    else None
  }

  // ----- when it returns -----

  /** `r` is met in `v` without following any reference. */
  ghost predicate Exposes(v: Value, r: Text) {
    match v
    case Array(items) => exists i | 0 <= i < |items| :: Exposes(items[i], r)
    case Object(fields) => RefOf(fields) == Some(r) || exists k | k in Kept(fields) :: Exposes(fields[k], r)
    case _ => false
  }

  /** References followed one after the other, starting in `v`. */
  ghost predicate Chain(resolve: Resolver, v: Value, c: seq<Text>)
    decreases c
  {
    c != [] ==>
      && Exposes(v, c[0])
      && (|c| > 1 ==> resolve(c[0]).Some? && Chain(resolve, Object(resolve(c[0]).value), c[1..]))
  }

  /** Every link resolves, none is on the stack, none repeats. */
  ghost predicate Harmless(resolve: Resolver, stack: seq<Text>, c: seq<Text>)
    decreases c
  {
    c != [] ==> c[0] !in stack && resolve(c[0]).Some? && Harmless(resolve, stack + [c[0]], c[1..])
  }

  ghost predicate AllHarmless(resolve: Resolver, v: Value, stack: seq<Text>) {
    forall c | Chain(resolve, v, c) :: Harmless(resolve, stack, c)
  }

  lemma PartIsHarmless(resolve: Resolver, whole: Value, part: Value, stack: seq<Text>)
    requires AllHarmless(resolve, whole, stack)
    requires forall r | Exposes(part, r) :: Exposes(whole, r)
    ensures AllHarmless(resolve, part, stack)
  {
    forall c | Chain(resolve, part, c) ensures Harmless(resolve, stack, c) {
      assert Chain(resolve, whole, c);
    }
  }

  lemma TargetIsHarmless(resolve: Resolver, v: Value, r: Text, stack: seq<Text>)
    requires AllHarmless(resolve, v, stack) && Exposes(v, r)
    ensures r !in stack && resolve(r).Some? && AllHarmless(resolve, Object(resolve(r).value), stack + [r])
  {
    assert Chain(resolve, v, [r]);
    forall c | Chain(resolve, Object(resolve(r).value), c) ensures Harmless(resolve, stack + [r], c) {
      assert ([r] + c)[1..] == c;
      assert Chain(resolve, v, [r] + c);
      assert Harmless(resolve, stack, [r] + c);
    }
  }

  lemma {:induction false} ReturnsWhenHarmless(resolve: Resolver, refs: set<Text>, v: Value, stack: seq<Text>)
    requires Bounded(resolve, refs) && Within(v, refs)
    requires AllHarmless(resolve, v, stack)
    ensures Dereferenced(resolve, refs, v, stack).Some?
    decreases Unused(refs, stack), v
  {
    if v.Array? {
      forall i | 0 <= i < |v.items| ensures Dereferenced(resolve, refs, v.items[i], stack).Some? {
        PartIsHarmless(resolve, v, v.items[i], stack);
        ReturnsWhenHarmless(resolve, refs, v.items[i], stack);
      }
    } else if v.Object? {
      forall k | k in Kept(v.fields) ensures Dereferenced(resolve, refs, v.fields[k], stack).Some? {
        PartIsHarmless(resolve, v, v.fields[k], stack);
        ReturnsWhenHarmless(resolve, refs, v.fields[k], stack);
      }
      if RefOf(v.fields).Some? {
        var r := RefOf(v.fields).value;
        TargetIsHarmless(resolve, v, r, stack);
        UnusedShrinks(refs, stack, r);
        ReturnsWhenHarmless(resolve, refs, Object(resolve(r).value), stack + [r]);
      }
    }
  }

  lemma {:induction false} HarmlessWhenReturns(
      resolve: Resolver, refs: set<Text>, v: Value, stack: seq<Text>, c: seq<Text>)
    requires Bounded(resolve, refs) && Within(v, refs)
    requires Dereferenced(resolve, refs, v, stack).Some? && Chain(resolve, v, c)
    ensures Harmless(resolve, stack, c)
    decreases Unused(refs, stack), v
  {
    if c == [] {
    } else if v.Array? {
      var i :| 0 <= i < |v.items| && Exposes(v.items[i], c[0]);
      HarmlessWhenReturns(resolve, refs, v.items[i], stack, c);
    } else if RefOf(v.fields) == Some(c[0]) {
      UnusedShrinks(refs, stack, c[0]);
      if |c| > 1 { HarmlessWhenReturns(resolve, refs, Object(resolve(c[0]).value), stack + [c[0]], c[1..]); }
    } else {
      var k :| k in Kept(v.fields) && Exposes(v.fields[k], c[0]);
      HarmlessWhenReturns(resolve, refs, v.fields[k], stack, c);
    }
  }

  /** A reference that following references from `v` can arrive at. */
  ghost predicate Reaches(resolve: Resolver, v: Value, r: Text) {
    exists c :: Chain(resolve, v, c) && c != [] && c[|c| - 1] == r
  }

  ghost predicate OnCycle(resolve: Resolver, r: Text) {
    resolve(r).Some? && Reaches(resolve, Object(resolve(r).value), r)
  }

  ghost predicate Acyclic(resolve: Resolver, v: Value) {
    forall r | Reaches(resolve, v, r) :: resolve(r).Some? && !OnCycle(resolve, r)
  }

  lemma {:induction false} ChainAppend(resolve: Resolver, v: Value, c: seq<Text>, d: seq<Text>)
    requires c != [] && Chain(resolve, v, c) && resolve(c[|c| - 1]).Some?
    requires Chain(resolve, Object(resolve(c[|c| - 1]).value), d)
    ensures Chain(resolve, v, c + d)
    decreases c
  {
    if |c| == 1 {
      assert (c + d)[1..] == d;
    } else {
      assert (c + d)[1..] == c[1..] + d;
      ChainAppend(resolve, Object(resolve(c[0]).value), c[1..], d);
    }
  }

  lemma {:induction false} HarmlessAvoids(resolve: Resolver, stack: seq<Text>, c: seq<Text>, i: nat)
    requires Harmless(resolve, stack, c) && i < |c|
    ensures resolve(c[i]).Some? && c[i] !in stack && forall j | 0 <= j < i :: c[j] != c[i]
    decreases c
  {
    if i > 0 {
      HarmlessAvoids(resolve, stack + [c[0]], c[1..], i - 1);
      forall j | 0 <= j < i ensures c[j] != c[i] {
        if j > 0 { assert c[j] == c[1..][j - 1] && c[i] == c[1..][i - 1]; }
      }
    }
  }

  lemma AcyclicWhenReturns(resolve: Resolver, refs: set<Text>, v: Value, r: Text)
    requires Bounded(resolve, refs) && Within(v, refs)
    requires Dereferenced(resolve, refs, v, []).Some? && Reaches(resolve, v, r)
    ensures resolve(r).Some? && !OnCycle(resolve, r)
  {
    var c :| Chain(resolve, v, c) && c != [] && c[|c| - 1] == r;
    HarmlessWhenReturns(resolve, refs, v, [], c);
    HarmlessAvoids(resolve, [], c, |c| - 1);
    if OnCycle(resolve, r) {
      var d :| Chain(resolve, Object(resolve(r).value), d) && d != [] && d[|d| - 1] == r;
      ChainAppend(resolve, v, c, d);
      assert (c + d)[|c| - 1] == r && (c + d)[|c + d| - 1] == r;
      HarmlessWhenReturns(resolve, refs, v, [], c + d);
      HarmlessAvoids(resolve, [], c + d, |c + d| - 1);
    }
  }

  /** `s` lists references passed on the way to `v`, each with a way from its target to `v`. */
  ghost predicate Passed(resolve: Resolver, stack: seq<Text>, v: Value) {
    forall s | s in stack ::
      resolve(s).Some? && forall r | Exposes(v, r) :: Reaches(resolve, Object(resolve(s).value), r)
  }

  lemma PassedOn(resolve: Resolver, stack: seq<Text>, v: Value, r: Text)
    requires Passed(resolve, stack, v) && Exposes(v, r) && resolve(r).Some?
    ensures Passed(resolve, stack + [r], Object(resolve(r).value))
  {
    var target := Object(resolve(r).value);
    forall s, q | s in stack + [r] && Exposes(target, q)
      ensures resolve(s).Some? && Reaches(resolve, Object(resolve(s).value), q)
    {
      if s in stack {
        var c :| Chain(resolve, Object(resolve(s).value), c) && c != [] && c[|c| - 1] == r;
        assert Chain(resolve, target, [q]);
        ChainAppend(resolve, Object(resolve(s).value), c, [q]);
        assert (c + [q])[|c + [q]| - 1] == q;
      } else {
        assert Chain(resolve, target, [q]) && [q][|[q]| - 1] == q;
      }
    }
  }

  lemma {:induction false} HarmlessWhenAcyclic(
      resolve: Resolver, start: Value, v: Value, stack: seq<Text>, c: seq<Text>)
    requires Acyclic(resolve, start) && Passed(resolve, stack, v) && Chain(resolve, v, c)
    requires forall r | Exposes(v, r) :: Reaches(resolve, start, r)
    ensures Harmless(resolve, stack, c)
    decreases c
  {
    if c != [] {
      assert Reaches(resolve, start, c[0]);
      assert resolve(c[0]).Some? && !OnCycle(resolve, c[0]);
      PassedOn(resolve, stack, v, c[0]);
      var target := Object(resolve(c[0]).value);
      forall q | Exposes(target, q) ensures Reaches(resolve, start, q) {
        var d :| Chain(resolve, start, d) && d != [] && d[|d| - 1] == c[0];
        assert Chain(resolve, target, [q]);
        ChainAppend(resolve, start, d, [q]);
        assert (d + [q])[|d + [q]| - 1] == q;
      }
      HarmlessWhenAcyclic(resolve, start, target, stack + [c[0]], c[1..]);
    }
  }

  /** The transformation returns exactly when every reachable reference points at an object and does
      not lead back to itself. */
  lemma ReturnsExactly(resolve: Resolver, refs: set<Text>, v: Value)
    requires Bounded(resolve, refs) && Within(v, refs)
    ensures Dereferenced(resolve, refs, v, []).Some? <==> Acyclic(resolve, v)
  {
    if Dereferenced(resolve, refs, v, []).Some? {
      forall r | Reaches(resolve, v, r) ensures resolve(r).Some? && !OnCycle(resolve, r) {
        AcyclicWhenReturns(resolve, refs, v, r);
      }
    }
    if Acyclic(resolve, v) {
      forall r | Exposes(v, r) ensures Reaches(resolve, v, r) {
        assert Chain(resolve, v, [r]) && [r][|[r]| - 1] == r;
      }
      forall c | Chain(resolve, v, c) ensures Harmless(resolve, [], c) {
        HarmlessWhenAcyclic(resolve, v, v, [], c);
      }
      ReturnsWhenHarmless(resolve, refs, v, []);
    }
  }

  // ----- what it returns -----

  /** No string `$ref` and no definition section, anywhere. */
  ghost predicate Clean(v: Value) {
    match v
    case Array(items) => forall i | 0 <= i < |items| :: Clean(items[i])
    case Object(fields) =>
      RefOf(fields).None? && DEFS !in fields && DEFINITIONS !in fields && forall k | k in fields :: Clean(fields[k])
    case _ => true
  }

  lemma {:induction false} ResultIsClean(resolve: Resolver, refs: set<Text>, v: Value, stack: seq<Text>)
    requires Bounded(resolve, refs) && Within(v, refs) && Dereferenced(resolve, refs, v, stack).Some?
    ensures Clean(Dereferenced(resolve, refs, v, stack).value)
    ensures !v.String? ==> !Dereferenced(resolve, refs, v, stack).value.String?
    decreases Unused(refs, stack), v
  {
    if v.Array? {
      forall i | 0 <= i < |v.items| ensures Clean(Dereferenced(resolve, refs, v.items[i], stack).value) {
        ResultIsClean(resolve, refs, v.items[i], stack);
      }
    } else if v.Object? {
      forall k | k in Kept(v.fields)
        ensures Clean(Dereferenced(resolve, refs, v.fields[k], stack).value)
        ensures !v.fields[k].String? ==> !Dereferenced(resolve, refs, v.fields[k], stack).value.String?
      {
        ResultIsClean(resolve, refs, v.fields[k], stack);
      }
      if RefOf(v.fields).Some? {
        var r := RefOf(v.fields).value;
        UnusedShrinks(refs, stack, r);
        ResultIsClean(resolve, refs, Object(resolve(r).value), stack + [r]);
      }
    }
  }

  /** A clean schema is left as it is, whatever the root, so transforming twice changes nothing. */
  lemma {:induction false} CleanIsFixed(resolve: Resolver, refs: set<Text>, v: Value, stack: seq<Text>)
    requires Bounded(resolve, refs) && Within(v, refs) && Clean(v)
    ensures Dereferenced(resolve, refs, v, stack) == Some(v)
    decreases v
  {
    if v.Array? {
      forall i | 0 <= i < |v.items| ensures Dereferenced(resolve, refs, v.items[i], stack) == Some(v.items[i]) {
        CleanIsFixed(resolve, refs, v.items[i], stack);
      }
      assert DereferencedItems(resolve, refs, v, stack).value == v.items;
    } else if v.Object? {
      forall k | k in v.fields ensures Dereferenced(resolve, refs, v.fields[k], stack) == Some(v.fields[k]) {
        CleanIsFixed(resolve, refs, v.fields[k], stack);
      }
      assert DereferencedFields(resolve, refs, v, stack).value == v.fields;
    }
  }

  /** The stack only decides whether the transformation throws. */
  lemma {:induction false} StackDoesNotShow(
      resolve: Resolver, refs: set<Text>, v: Value, a: seq<Text>, b: seq<Text>)
    requires Bounded(resolve, refs) && Within(v, refs)
    requires Dereferenced(resolve, refs, v, a).Some? && Dereferenced(resolve, refs, v, b).Some?
    ensures Dereferenced(resolve, refs, v, a) == Dereferenced(resolve, refs, v, b)
    decreases Unused(refs, a), v
  {
    if v.Array? {
      forall i | 0 <= i < |v.items|
        ensures Dereferenced(resolve, refs, v.items[i], a) == Dereferenced(resolve, refs, v.items[i], b)
      {
        StackDoesNotShow(resolve, refs, v.items[i], a, b);
      }
      assert DereferencedItems(resolve, refs, v, a).value == DereferencedItems(resolve, refs, v, b).value;
    } else if v.Object? {
      forall k | k in Kept(v.fields)
        ensures Dereferenced(resolve, refs, v.fields[k], a) == Dereferenced(resolve, refs, v.fields[k], b)
      {
        StackDoesNotShow(resolve, refs, v.fields[k], a, b);
      }
      assert DereferencedFields(resolve, refs, v, a).value == DereferencedFields(resolve, refs, v, b).value;
      if RefOf(v.fields).Some? {
        var r := RefOf(v.fields).value;
        UnusedShrinks(refs, a, r);
        StackDoesNotShow(resolve, refs, Object(resolve(r).value), a + [r], b + [r]);
      }
    }
  }

  // ----- inlining preserves what a reader of the schema sees -----

  lemma {:induction false} FewerOnStack(resolve: Resolver, a: seq<Text>, b: seq<Text>, c: seq<Text>)
    requires Harmless(resolve, a, c) && forall s | s in b :: s in a
    ensures Harmless(resolve, b, c)
    decreases c
  {
    if c != [] { FewerOnStack(resolve, a + [c[0]], b + [c[0]], c[1..]); }
  }

  /** What succeeds under some stack succeeds, with the same result, under the empty one. */
  lemma EmptyStackSuffices(resolve: Resolver, refs: set<Text>, v: Value, stack: seq<Text>)
    requires Bounded(resolve, refs) && Within(v, refs) && Dereferenced(resolve, refs, v, stack).Some?
    ensures Dereferenced(resolve, refs, v, []) == Dereferenced(resolve, refs, v, stack)
  {
    forall c | Chain(resolve, v, c) ensures Harmless(resolve, [], c) {
      HarmlessWhenReturns(resolve, refs, v, stack, c);
      FewerOnStack(resolve, stack, [], c);
    }
    ReturnsWhenHarmless(resolve, refs, v, []);
    StackDoesNotShow(resolve, refs, v, stack, []);
  }

  /** One property, looked up on demand: beside the `$ref` first, then behind it. */
  function Field(resolve: Resolver, ghost refs: set<Text>, v: Value, key: Text, stack: seq<Text>): (r: Option<Value>)
    requires Bounded(resolve, refs) && Within(v, refs)
    ensures r.Some? ==> Within(r.value, refs)
    decreases Unused(refs, stack)
  {
    if !v.Object? then None
    else if key in Kept(v.fields) then Some(v.fields[key])
    else if RefOf(v.fields).None? then None
    else
      var r := RefOf(v.fields).value;
      if r in stack || resolve(r).None? then None
      else
        UnusedShrinks(refs, stack, r);
        Field(resolve, refs, Object(resolve(r).value), key, stack + [r])
  }

  lemma {:induction false} FieldPreserved(resolve: Resolver, refs: set<Text>, v: Value, key: Text, stack: seq<Text>)
    requires Bounded(resolve, refs) && Within(v, refs) && v.Object?
    requires Dereferenced(resolve, refs, v, stack).Some?
    ensures var out, field := Dereferenced(resolve, refs, v, stack).value, Field(resolve, refs, v, key, stack);
      && (key in out.fields <==> field.Some?)
      && (field.Some? ==> Dereferenced(resolve, refs, field.value, []) == Some(out.fields[key]))
    decreases Unused(refs, stack)
  {
    if key in Kept(v.fields) {
      EmptyStackSuffices(resolve, refs, v.fields[key], stack);
    } else if RefOf(v.fields).Some? {
      var r := RefOf(v.fields).value;
      UnusedShrinks(refs, stack, r);
      FieldPreserved(resolve, refs, Object(resolve(r).value), key, stack + [r]);
    }
  }

  datatype Step = Key(key: Text) | Index(index: nat)

  /** A path into a schema as it stands. */
  function At(v: Value, path: seq<Step>): Option<Value> {
    if path == [] then Some(v)
    else match path[0]
      case Key(k) => if v.Object? && k in v.fields then At(v.fields[k], path[1..]) else None
      case Index(i) => if v.Array? && i < |v.items| then At(v.items[i], path[1..]) else None
  }

  /** A path into a schema, following references on demand. */
  function Look(resolve: Resolver, ghost refs: set<Text>, v: Value, path: seq<Step>): (r: Option<Value>)
    requires Bounded(resolve, refs) && Within(v, refs)
    ensures r.Some? ==> Within(r.value, refs)
    decreases path
  {
    if path == [] then Some(v)
    else match path[0]
      case Key(k) =>
        var field := Field(resolve, refs, v, k, []);
        if field.Some? then Look(resolve, refs, field.value, path[1..]) else None
      case Index(i) =>
        if v.Array? && i < |v.items| then Look(resolve, refs, v.items[i], path[1..]) else None
  }

  /** At every path, the result holds exactly what following references on demand finds there. */
  lemma {:induction false} MeaningPreserved(resolve: Resolver, refs: set<Text>, v: Value, path: seq<Step>)
    requires Bounded(resolve, refs) && Within(v, refs) && Dereferenced(resolve, refs, v, []).Some?
    ensures var found := Look(resolve, refs, v, path);
      At(Dereferenced(resolve, refs, v, []).value, path)
      == if found.Some? then Dereferenced(resolve, refs, found.value, []) else None
    decreases path
  {
    if path != [] {
      match path[0]
      case Key(k) =>
        if v.Object? {
          FieldPreserved(resolve, refs, v, k, []);
          var field := Field(resolve, refs, v, k, []);
          if field.Some? { MeaningPreserved(resolve, refs, field.value, path[1..]); }
        }
      case Index(i) =>
        if v.Array? && i < |v.items| { MeaningPreserved(resolve, refs, v.items[i], path[1..]); }
    }
  }

  // ----- one document -----

  /** The object a reference points at in a document, if it is local and resolves to one. */
  function Target(root: Record, reference: Text): Option<Record> {
    var v := Resolve(root, reference);
    if v.Some? && v.value.Object? then Some(v.value.fields) else None
  }

  function Targets(root: Record): Resolver {
    r => Target(root, r)
  }

  ghost function RefsIn(v: Value): set<Text> {
    match v
    case Array(items) => set i, r | 0 <= i < |items| && r in RefsIn(items[i]) :: r
    case Object(fields) =>
      (if RefOf(fields).Some? then {RefOf(fields).value} else {})
      + set k, r | k in fields && r in RefsIn(fields[k]) :: r
    case _ => {}
  }

  lemma {:induction false} WithinItsRefs(v: Value, refs: set<Text>)
    requires RefsIn(v) <= refs
    ensures Within(v, refs)
  {
    if v.Array? {
      forall i | 0 <= i < |v.items| ensures Within(v.items[i], refs) {
        assert RefsIn(v.items[i]) <= RefsIn(v);
        WithinItsRefs(v.items[i], refs);
      }
    } else if v.Object? {
      forall k | k in v.fields ensures Within(v.fields[k], refs) {
        assert RefsIn(v.fields[k]) <= RefsIn(v);
        WithinItsRefs(v.fields[k], refs);
      }
    }
  }

  lemma {:induction false} WalkStaysWithin(v: Value, keys: seq<Text>, refs: set<Text>)
    requires Within(v, refs)
    ensures Walk(v, keys).Some? ==> Within(Walk(v, keys).value, refs)
    decreases keys
  {
    if keys != [] && v.Object? && keys[0] in v.fields { WalkStaysWithin(v.fields[keys[0]], keys[1..], refs); }
  }

  /** Every document has finitely many references, so the transformation terminates on it. */
  ghost function DocumentRefs(root: Record, v: Value): (refs: set<Text>)
    ensures Bounded(Targets(root), refs) && Within(v, refs)
  {
    var refs := RefsIn(Object(root)) + RefsIn(v);
    WithinItsRefs(v, refs);
    WithinItsRefs(Object(root), refs);
    assert Bounded(Targets(root), refs) by {
      forall r | Targets(root)(r).Some? ensures Within(Object(Targets(root)(r).value), refs) {
        WalkStaysWithin(Object(root), UnescapeAll(Split(r[2..], SLASH)), refs);
      }
    }
    refs
  }

  function DereferenceSchema(root: Record, v: Value): Option<Value> {
    Dereferenced(Targets(root), DocumentRefs(root, v), v, [])
  }

  lemma DereferenceSchemaCorrect(root: Record, v: Value)
    ensures DereferenceSchema(root, v).Some? <==> Acyclic(Targets(root), v)
    ensures DereferenceSchema(root, v).Some? ==> Clean(DereferenceSchema(root, v).value)
    ensures DereferenceSchema(root, v).Some? ==>
      forall other :: DereferenceSchema(other, DereferenceSchema(root, v).value) == DereferenceSchema(root, v)
  {
    ReturnsExactly(Targets(root), DocumentRefs(root, v), v);
    if DereferenceSchema(root, v).Some? {
      ResultIsClean(Targets(root), DocumentRefs(root, v), v, []);
      var out := DereferenceSchema(root, v).value;
      forall other ensures DereferenceSchema(other, out) == Some(out) {
        CleanIsFixed(Targets(other), DocumentRefs(other, out), out, []);
      }
    }
  }
}
