/** A schema document read by hand, by its own keys and the pointers in it, against what inlining makes
    of it. What a reader sees speaks neither of the stack, the resolver nor the order of the transformation;
    each notion is then tied to its counterpart there. */
module SchemaReading {
  import opened CodeUnits
  import opened Json
  import opened JsonPointer
  import opened Options
  import opened Dereference

  // ----- what a reader sees -----

  /** A property as it stands: not a definition section, and not the reference. */
  predicate HasOwn(v: Value, key: Text) {
    && v.Object? && key in v.fields && key != Of("$defs") && key != Of("definitions")
    && (key == Of("$ref") ==> !v.fields[key].String?)
  }

  /** The object has this reference. */
  predicate Refers(v: Value, reference: Text) {
    v.Object? && Of("$ref") in v.fields && v.fields[Of("$ref")] == String(reference)
  }

  /** A reference points at this object of the document. */
  ghost predicate PointsAt(root: Record, reference: Text, target: Value) {
    target.Object? && exists keys :: PointsAlong(reference, keys) && Walk(Object(root), keys) == Some(target)
  }

  ghost predicate Follows(root: Record, v: Value, next: Value) {
    exists reference :: Refers(v, reference) && PointsAt(root, reference, next)
  }

  /** From `v` along references to the first object that has the property itself. */
  ghost predicate Trail(root: Record, v: Value, key: Text, trail: seq<Value>) {
    && trail != [] && trail[0] == v && HasOwn(trail[|trail| - 1], key)
    && forall i | 0 <= i < |trail| - 1 :: !HasOwn(trail[i], key) && Follows(root, trail[i], trail[i + 1])
  }

  // ----- the same in the terms of the transformation -----

  lemma TheNames()
    ensures Of("$ref") == REF && Of("$defs") == DEFS && Of("definitions") == DEFINITIONS
  {
  }

  lemma OwnIsKept(v: Value, key: Text)
    requires v.Object?
    ensures HasOwn(v, key) <==> key in Kept(v.fields)
    ensures forall r :: Refers(v, r) <==> RefOf(v.fields) == Some(r)
  {
    TheNames();
  }

  lemma TargetExactly(root: Record, reference: Text, target: Value)
    ensures PointsAt(root, reference, target) <==> target.Object? && Targets(root)(reference) == Some(target.fields)
  {
    ResolvesExactly(root, reference, target);
    if Targets(root)(reference).Some? {
      var v := Object(Target(root, reference).value);
      assert Resolve(root, reference) == Some(v);
    }
  }

  /** The set that bounds the references does not show in the result. */
  lemma {:induction false} BoundDoesNotShow(resolve: Resolver, a: set<Text>, b: set<Text>, v: Value, stack: seq<Text>)
    requires Bounded(resolve, a) && Within(v, a) && Bounded(resolve, b) && Within(v, b)
    ensures Dereferenced(resolve, a, v, stack) == Dereferenced(resolve, b, v, stack)
    decreases Unused(a, stack), v
  {
    if v.Array? {
      forall i | 0 <= i < |v.items|
        ensures Dereferenced(resolve, a, v.items[i], stack) == Dereferenced(resolve, b, v.items[i], stack)
      {
        BoundDoesNotShow(resolve, a, b, v.items[i], stack);
      }
      var x, y := DereferencedItems(resolve, a, v, stack), DereferencedItems(resolve, b, v, stack);
      assert x.Some? ==> x.value == y.value;
    } else if v.Object? {
      forall k | k in v.fields
        ensures Dereferenced(resolve, a, v.fields[k], stack) == Dereferenced(resolve, b, v.fields[k], stack)
      {
        BoundDoesNotShow(resolve, a, b, v.fields[k], stack);
      }
      var x, y := DereferencedFields(resolve, a, v, stack), DereferencedFields(resolve, b, v, stack);
      assert x.Some? <==> y.Some?;
      assert x.Some? ==> x.value == y.value;
      if RefOf(v.fields).Some? {
        var r := RefOf(v.fields).value;
        if r !in stack && resolve(r).Some? {
          UnusedShrinks(a, stack, r);
          BoundDoesNotShow(resolve, a, b, Object(resolve(r).value), stack + [r]);
        }
      }
    }
  }

  lemma WholeDocument(root: Record, refs: set<Text>, v: Value)
    requires Bounded(Targets(root), refs) && Within(v, refs)
    ensures Dereferenced(Targets(root), refs, v, []) == DereferenceSchema(root, v)
  {
    BoundDoesNotShow(Targets(root), refs, DocumentRefs(root, v), v, []);
  }

  // ----- properties -----

  lemma TrailTail(root: Record, v: Value, key: Text, trail: seq<Value>)
    requires Trail(root, v, key, trail) && |trail| > 1
    ensures !HasOwn(v, key) && Follows(root, v, trail[1]) && Trail(root, trail[1], key, trail[1..])
  {
    assert !HasOwn(trail[0], key) && Follows(root, trail[0], trail[0 + 1]);
    var rest := trail[1..];
    forall i | 0 <= i < |rest| - 1 ensures !HasOwn(rest[i], key) && Follows(root, rest[i], rest[i + 1]) {
      assert rest[i] == trail[i + 1] && rest[i + 1] == trail[i + 1 + 1];
    }
  }

  lemma FollowedTarget(root: Record, v: Value, next: Value)
    requires Follows(root, v, next)
    ensures v.Object? && next.Object? && RefOf(v.fields).Some?
    ensures Targets(root)(RefOf(v.fields).value) == Some(next.fields)
  {
    var r :| Refers(v, r) && PointsAt(root, r, next);
    OwnIsKept(v, []);
    TargetExactly(root, r, next);
  }

  /** A trail ends where the field found on demand is. */
  lemma {:induction false} TrailFinds(root: Record, refs: set<Text>, v: Value, key: Text, stack: seq<Text>, trail: seq<Value>)
    requires Bounded(Targets(root), refs) && Within(v, refs) && Trail(root, v, key, trail)
    requires Dereferenced(Targets(root), refs, v, stack).Some?
    ensures Field(Targets(root), refs, v, key, stack) == Some(trail[|trail| - 1].fields[key])
    decreases |trail|
  {
    if |trail| == 1 {
      OwnIsKept(v, key);
    } else {
      TrailTail(root, v, key, trail);
      FollowedTarget(root, v, trail[1]);
      OwnIsKept(v, key);
      var r := RefOf(v.fields).value;
      UnusedShrinks(refs, stack, r);
      TrailFinds(root, refs, trail[1], key, stack + [r], trail[1..]);
      assert trail[1..][|trail| - 2] == trail[|trail| - 1];
    }
  }

  /** And whatever is found on demand is at the end of a trail. */
  lemma {:induction false} FoundHasTrail(root: Record, refs: set<Text>, v: Value, key: Text, stack: seq<Text>)
      returns (trail: seq<Value>)
    requires Bounded(Targets(root), refs) && Within(v, refs) && Field(Targets(root), refs, v, key, stack).Some?
    ensures Trail(root, v, key, trail)
    decreases Unused(refs, stack)
  {
    OwnIsKept(v, key);
    if HasOwn(v, key) {
      trail := [v];
    } else {
      var r := RefOf(v.fields).value;
      var target := Object(Targets(root)(r).value);
      TargetExactly(root, r, target);
      UnusedShrinks(refs, stack, r);
      var rest := FoundHasTrail(root, refs, target, key, stack + [r]);
      trail := [v] + rest;
      assert Refers(v, r) && PointsAt(root, r, target);
      assert Follows(root, v, target);
      forall i | 0 <= i < |trail| - 1 ensures !HasOwn(trail[i], key) && Follows(root, trail[i], trail[i + 1]) {
        if i > 0 { assert trail[i] == rest[i - 1] && trail[i + 1] == rest[i]; }
      }
    }
  }

  // ----- references alone -----

  function Reference(reference: Text): Value {
    Object(map[Of("$ref") := String(reference)])
  }

  lemma ReferenceParts(reference: Text)
    ensures var fields := Reference(reference).fields;
      RefOf(fields) == Some(reference) && Kept(fields) == {}
  {
    TheNames();
  }

  /** What a lone reference returns: what its target does with the reference on the stack. */
  lemma ReferenceStep(resolve: Resolver, refs: set<Text>, reference: Text)
    requires Bounded(resolve, refs) && Within(Reference(reference), refs)
    requires Dereferenced(resolve, refs, Reference(reference), []).Some?
    ensures resolve(reference).Some?
    ensures Dereferenced(resolve, refs, Reference(reference), [])
         == Dereferenced(resolve, refs, Object(resolve(reference).value), [reference])
  {
    var v := Reference(reference);
    ReferenceParts(reference);
    var inner := Dereferenced(resolve, refs, Object(resolve(reference).value), [] + [reference]);
    assert [] + [reference] == [reference];
    assert DereferencedFields(resolve, refs, v, []).value == map[];
    assert inner.value.fields + map[] == inner.value.fields;
  }

  lemma {:induction false} ReferenceReturns(root: Record, reference: Text)
    requires DereferenceSchema(root, Reference(reference)).Some?
    ensures Target(root, reference).Some?
    ensures DereferenceSchema(root, Reference(reference)) == DereferenceSchema(root, Object(Target(root, reference).value))
  {
    var resolve, refs := Targets(root), DocumentRefs(root, Reference(reference));
    ReferenceStep(resolve, refs, reference);
    var target := Object(resolve(reference).value);
    EmptyStackSuffices(resolve, refs, target, [reference]);
    WholeDocument(root, refs, target);
  }

  // ----- when it returns -----

  /** A path that inlining goes along: no definition section on it. */
  predicate OpenPath(path: seq<Step>) {
    forall i | 0 <= i < |path| :: path[i] != Key(Of("$defs")) && path[i] != Key(Of("definitions"))
  }

  /** An object somewhere in `v`, outside its definition sections, has this reference. */
  ghost predicate Mentions(v: Value, reference: Text) {
    exists path :: OpenPath(path) && At(v, path).Some? && Refers(At(v, path).value, reference)
  }

  lemma {:induction false} MentionedIsExposed(v: Value, path: seq<Step>, reference: Text)
    requires OpenPath(path) && At(v, path).Some? && Refers(At(v, path).value, reference)
    ensures Exposes(v, reference)
    decreases path
  {
    if path == [] {
      OwnIsKept(v, []);
    } else {
      var rest := path[1..];
      assert forall i | 0 <= i < |rest| :: rest[i] == path[i + 1];
      match path[0]
      case Key(k) =>
        MentionedIsExposed(v.fields[k], rest, reference);
        OwnIsKept(v, k);
        TheNames();
      case Index(i) =>
        MentionedIsExposed(v.items[i], rest, reference);
    }
  }

  lemma {:induction false} ExposedIsMentioned(v: Value, reference: Text) returns (path: seq<Step>)
    requires Exposes(v, reference)
    ensures OpenPath(path) && At(v, path).Some? && Refers(At(v, path).value, reference)
  {
    TheNames();
    if v.Array? {
      var i: nat :| 0 <= i < |v.items| && Exposes(v.items[i], reference);
      var rest := ExposedIsMentioned(v.items[i], reference);
      path := [Index(i)] + rest;
      assert path[1..] == rest;
    } else if RefOf(v.fields) == Some(reference) {
      path := [];
    } else {
      var k :| k in Kept(v.fields) && Exposes(v.fields[k], reference);
      var rest := ExposedIsMentioned(v.fields[k], reference);
      path := [Key(k)] + rest;
      assert path[1..] == rest;
    }
  }

  lemma MentionsExactly(v: Value, reference: Text)
    ensures Mentions(v, reference) <==> Exposes(v, reference)
  {
    if Mentions(v, reference) {
      var path :| OpenPath(path) && At(v, path).Some? && Refers(At(v, path).value, reference);
      MentionedIsExposed(v, path, reference);
    }
    if Exposes(v, reference) {
      var path := ExposedIsMentioned(v, reference);
    }
  }

  /** References followed one after the other from `v`, with the objects they are met in. */
  ghost predicate Chased(root: Record, v: Value, references: seq<Text>, met: seq<Value>) {
    && |met| == |references| && (met != [] ==> met[0] == v)
    && (forall i | 0 <= i < |references| :: Mentions(met[i], references[i]))
    && forall i | 0 <= i < |references| - 1 :: PointsAt(root, references[i], met[i + 1])
  }

  lemma {:induction false} ChasedIsChain(root: Record, v: Value, references: seq<Text>, met: seq<Value>)
    requires Chased(root, v, references, met)
    ensures Chain(Targets(root), v, references)
    decreases |references|
  {
    if references != [] {
      assert Mentions(met[0], references[0]);
      MentionsExactly(v, references[0]);
      if |references| > 1 {
        assert PointsAt(root, references[0], met[0 + 1]);
        TargetExactly(root, references[0], met[1]);
        assert forall i | 0 <= i < |met| - 1 :: met[1..][i] == met[i + 1] && references[1..][i] == references[i + 1];
        ChasedIsChain(root, met[1], references[1..], met[1..]);
      }
    }
  }

  lemma ChasedOn(root: Record, v: Value, first: Text, target: Value, references: seq<Text>, met: seq<Value>)
    requires Mentions(v, first) && (references != [] ==> PointsAt(root, first, target))
    requires Chased(root, target, references, met)
    ensures Chased(root, v, [first] + references, [v] + met)
  {
    var all, objects := [first] + references, [v] + met;
    forall i | 0 <= i < |all| ensures Mentions(objects[i], all[i]) {
      MentionOn(v, first, references, met, i);
    }
    forall i | 0 <= i < |all| - 1 ensures PointsAt(root, all[i], objects[i + 1]) {
      PointerOn(root, v, first, references, met, i);
    }
  }

  lemma MentionOn(v: Value, first: Text, references: seq<Text>, met: seq<Value>, i: nat)
    requires |met| == |references| && i <= |references| && Mentions(v, first)
    requires forall j | 0 <= j < |references| :: Mentions(met[j], references[j])
    ensures Mentions(([v] + met)[i], ([first] + references)[i])
  {
    if i > 0 { assert Mentions(met[i - 1], references[i - 1]); }
  }

  lemma PointerOn(root: Record, v: Value, first: Text, references: seq<Text>, met: seq<Value>, i: nat)
    requires |met| == |references| && i < |references| && PointsAt(root, first, met[0])
    requires forall j | 0 <= j < |references| - 1 :: PointsAt(root, references[j], met[j + 1])
    ensures PointsAt(root, ([first] + references)[i], ([v] + met)[i + 1])
  {
    if i > 0 { assert PointsAt(root, references[i - 1], met[i - 1 + 1]); }
  }

  lemma ChainHead(root: Record, v: Value, references: seq<Text>) returns (target: Value)
    requires Chain(Targets(root), v, references) && references != []
    ensures Mentions(v, references[0])
    ensures |references| > 1 ==>
      PointsAt(root, references[0], target) && Chain(Targets(root), target, references[1..])
  {
    MentionsExactly(v, references[0]);
    target := v;
    if |references| > 1 {
      target := Object(Targets(root)(references[0]).value);
      TargetExactly(root, references[0], target);
    }
  }

  lemma {:induction false} ChainIsChased(root: Record, v: Value, references: seq<Text>) returns (met: seq<Value>)
    requires Chain(Targets(root), v, references)
    ensures Chased(root, v, references, met)
    decreases |references|
  {
    if references == [] {
      met := [];
    } else {
      var target := ChainHead(root, v, references);
      var rest := references[1..];
      var last := [];
      if rest != [] { last := ChainIsChased(root, target, rest); }
      ChasedOn(root, v, references[0], target, rest, last);
      assert references == [references[0]] + rest;
      met := [v] + last;
    }
  }

  /** The last reference points at no object, or was followed before. */
  ghost predicate DeadEnd(root: Record, references: seq<Text>) {
    && references != []
    && var last := references[|references| - 1];
       (forall target :: !PointsAt(root, last, target)) || last in references[..|references| - 1]
  }

  ghost predicate Fails(root: Record, v: Value, references: seq<Text>, met: seq<Value>) {
    Chased(root, v, references, met) && DeadEnd(root, references)
  }

  lemma {:induction false} ChainSuffix(resolve: Resolver, v: Value, c: seq<Text>, j: nat)
    requires Chain(resolve, v, c) && j < |c| - 1
    ensures resolve(c[j]).Some? && Chain(resolve, Object(resolve(c[j]).value), c[j + 1..])
    decreases c
  {
    if j > 0 {
      ChainSuffix(resolve, Object(resolve(c[0]).value), c[1..], j - 1);
      assert c[1..][j..] == c[j + 1..];
    }
  }

  predicate EndsRepeated(c: seq<Text>) {
    c != [] && c[|c| - 1] in c[..|c| - 1]
  }

  lemma RepeatIsCycle(resolve: Resolver, v: Value, c: seq<Text>)
    requires Chain(resolve, v, c) && EndsRepeated(c)
    ensures OnCycle(resolve, c[|c| - 1])
  {
    var last := c[|c| - 1];
    var j: nat :| j < |c| - 1 && c[..|c| - 1][j] == last;
    ChainSuffix(resolve, v, c, j);
    var d := c[j + 1..];
    assert d[|d| - 1] == last && Chain(resolve, Object(resolve(last).value), d);
  }

  lemma {:induction false} CycleRepeats(resolve: Resolver, v: Value, r: Text) returns (c: seq<Text>)
    requires Reaches(resolve, v, r) && OnCycle(resolve, r)
    ensures Chain(resolve, v, c) && EndsRepeated(c)
  {
    var a :| Chain(resolve, v, a) && a != [] && a[|a| - 1] == r;
    var d :| Chain(resolve, Object(resolve(r).value), d) && d != [] && d[|d| - 1] == r;
    ChainAppend(resolve, v, a, d);
    c := a + d;
    assert c[|c| - 1] == r && c[..|c| - 1][|a| - 1] == r;
  }

  lemma UnresolvedExactly(root: Record, reference: Text)
    ensures Targets(root)(reference).None? <==> forall target :: !PointsAt(root, reference, target)
  {
    forall target ensures PointsAt(root, reference, target) ==> Targets(root)(reference).Some? {
      TargetExactly(root, reference, target);
    }
    if Targets(root)(reference).Some? {
      var target := Object(Targets(root)(reference).value);
      TargetExactly(root, reference, target);
      assert PointsAt(root, reference, target);
    }
  }

  lemma {:induction false} FailureIsNoReturn(root: Record, v: Value, references: seq<Text>, met: seq<Value>)
    requires Fails(root, v, references, met)
    ensures !Acyclic(Targets(root), v)
  {
    var last := references[|references| - 1];
    ChasedIsChain(root, v, references, met);
    assert Reaches(Targets(root), v, last);
    UnresolvedExactly(root, last);
    if EndsRepeated(references) { RepeatIsCycle(Targets(root), v, references); }
  }

  lemma {:induction false} NoReturnFails(root: Record, v: Value) returns (references: seq<Text>, met: seq<Value>)
    requires !Acyclic(Targets(root), v)
    ensures Fails(root, v, references, met)
  {
    var r :| Reaches(Targets(root), v, r) && (Targets(root)(r).None? || OnCycle(Targets(root), r));
    if Targets(root)(r).None? {
      references :| Chain(Targets(root), v, references) && references != [] && references[|references| - 1] == r;
      UnresolvedExactly(root, r);
    } else {
      references := CycleRepeats(Targets(root), v, r);
    }
    met := ChainIsChased(root, v, references);
    assert DeadEnd(root, references);
  }
}
