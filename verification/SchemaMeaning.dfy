/** What inlining makes of a schema document, read by hand. */
module SchemaMeaning {
  import opened CodeUnits
  import opened Json
  import opened JsonPointer
  import opened Options
  import opened Dereference
  import opened SchemaReading

  /** An inlined object has exactly the properties that a reader finds on it or along its references, and
      each is what inlining makes of the value found first. */
  lemma PropertiesByHand(root: Record, v: Value, key: Text)
    requires v.Object? && DereferenceSchema(root, v).Some?
    ensures var out := DereferenceSchema(root, v).value;
      && out.Object?
      && (key in out.fields <==> exists trail :: Trail(root, v, key, trail))
      && forall trail: seq<Value> | Trail(root, v, key, trail) ::
           DereferenceSchema(root, trail[|trail| - 1].fields[key]) == Some(out.fields[key])
  {
    var resolve, refs := Targets(root), DocumentRefs(root, v);
    FieldPreserved(resolve, refs, v, key, []);
    var field := Field(resolve, refs, v, key, []);
    if field.Some? {
      var trail := FoundHasTrail(root, refs, v, key, []);
      WholeDocument(root, refs, field.value);
    }
    forall trail: seq<Value> | Trail(root, v, key, trail) ensures field == Some(trail[|trail| - 1].fields[key]) {
      TrailFinds(root, refs, v, key, [], trail);
    }
  }

  /** An inlined array has the inlined items, and everything else stays as it is. */
  lemma ItemsByHand(root: Record, v: Value)
    requires !v.Object? && DereferenceSchema(root, v).Some?
    ensures var out := DereferenceSchema(root, v).value;
      if v.Array? then
        && out.Array? && |out.items| == |v.items|
        && forall i | 0 <= i < |v.items| :: DereferenceSchema(root, v.items[i]) == Some(out.items[i])
      else out == v
  {
    if v.Array? {
      var refs := DocumentRefs(root, v);
      forall i | 0 <= i < |v.items|
        ensures DereferenceSchema(root, v.items[i]) == Dereferenced(Targets(root), refs, v.items[i], [])
      {
        WholeDocument(root, refs, v.items[i]);
      }
    }
  }

  /** A reference written for a path of keys never returns unless there is an object at the path, and
      then returns, if at all, what that object does. */
  lemma ReferenceToPath(root: Record, keys: seq<Text>)
    requires keys != []
    ensures var at := Walk(Object(root), keys);
      var out := DereferenceSchema(root, Reference(PointerTo(keys)));
      if at.None? || !at.value.Object? then out == None
      else out.Some? ==> out == DereferenceSchema(root, at.value)
  {
    PointerRoundTrip(root, keys);
    var reference := PointerTo(keys);
    if DereferenceSchema(root, Reference(reference)).Some? { ReferenceReturns(root, reference); }
  }

  /** A reference that does not begin with `#/` never returns. */
  lemma ForeignReference(root: Record, reference: Text)
    requires !(Of("#/") <= reference)
    ensures DereferenceSchema(root, Reference(reference)) == None
  {
    assert Of("#/") == [HASH, SLASH];
    if DereferenceSchema(root, Reference(reference)).Some? { ReferenceReturns(root, reference); }
  }

  /** Inlining returns exactly when no chase of references through the document ends at one that points
      at no object or that was followed before. */
  lemma ReturnsByHand(root: Record, v: Value)
    ensures DereferenceSchema(root, v).Some? <==> !exists references, met :: Fails(root, v, references, met)
  {
    ReturnsExactly(Targets(root), DocumentRefs(root, v), v);
    if references, met :| Fails(root, v, references, met) { FailureIsNoReturn(root, v, references, met); }
    if !Acyclic(Targets(root), v) {
      var references, met := NoReturnFails(root, v);
    }
  }
}
