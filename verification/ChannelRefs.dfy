/** The session's opaque references: messages and files by identity, and cursors bound to a scope. */
module ChannelRefs {
  import opened CodeUnits
  import opened Options
  import opened Json
  import opened CanonicalJson
  import opened JsonEquality

  type Handle = Text

  /** A provider message; an absent thread and a null one are the same. */
  datatype Message = Message(
    conversation: Text,
    id: Text,
    thread: Option<Text>,
    authoredByAgent: bool,
    permalink: Option<Text>)

  datatype File = File(conversation: Text, id: Text, thread: Option<Text>)

  datatype Cursor = Cursor(value: Text, scope: Option<Text>)

  datatype Lookup<T> = Found(value: T) | Unknown | NotAuthored | OtherScope

  function OrNull(t: Option<Text>): Value {
    if t.Some? then String(t.value) else Null
  }

  /** The key both identity maps use. */
  function Key(conversation: Text, thread: Option<Text>, id: Text): Text {
    StableJson(Array([String(conversation), OrNull(thread), String(id)]))
  }

  function MessageKey(m: Message): Text { Key(m.conversation, m.thread, m.id) }

  function FileKey(f: File): Text { Key(f.conversation, f.thread, f.id) }

  predicate SameMessage(a: Message, b: Message) {
    a.conversation == b.conversation && a.thread == b.thread && a.id == b.id
  }

  /** The printed key separates all identities. */
  lemma KeysAreIdentities(c1: Text, t1: Option<Text>, i1: Text, c2: Text, t2: Option<Text>, i2: Text)
    requires Key(c1, t1, i1) == Key(c2, t2, i2)
    ensures c1 == c2 && t1 == t2 && i1 == i2
  {
    var a, b := [String(c1), OrNull(t1), String(i1)], [String(c2), OrNull(t2), String(i2)];
    StableIsInjective(Array(a), Array(b));
    assert a[0] == b[0] && a[1] == b[1] && a[2] == b[2];
  }

  // ----- the store -----

  datatype Store = Store(
    messages: map<Handle, Message>,
    byIdentity: map<Text, Handle>,
    cursors: map<Handle, Cursor>,
    files: map<Handle, File>,
    byFileIdentity: map<Text, Handle>)

  const EMPTY: Store := Store(map[], map[], map[], map[], map[])

  /** What a store remembers of a message seen again. */
  function Remember(previous: Message, seen: Message): Message {
    seen.(authoredByAgent := previous.authoredByAgent || seen.authoredByAgent,
          permalink := if seen.permalink.Some? then seen.permalink else previous.permalink)
  }

  ghost predicate Inverse<T>(values: map<Handle, T>, handles: map<Text, Handle>, key: T -> Text) {
    && (forall k | k in handles :: handles[k] in values && key(values[handles[k]]) == k)
    && (forall h | h in values :: key(values[h]) in handles && handles[key(values[h])] == h)
  }

  ghost predicate Inv(s: Store) {
    Inverse(s.messages, s.byIdentity, MessageKey) && Inverse(s.files, s.byFileIdentity, FileKey)
  }

  /** `message`, with the handle it would mint. */
  function RegisterMessage(s: Store, m: Message, minted: Handle): (Store, Handle)
    requires Inv(s)
  {
    var key := MessageKey(m);
    if key in s.byIdentity then
      var h := s.byIdentity[key];
      (s.(messages := s.messages[h := Remember(s.messages[h], m)]), h)
    else (s.(messages := s.messages[minted := m], byIdentity := s.byIdentity[key := minted]), minted)
  }

  function RegisterFile(s: Store, f: File, minted: Handle): (Store, Handle) {
    var key := FileKey(f);
    if key in s.byFileIdentity then (s, s.byFileIdentity[key])
    else (s.(files := s.files[minted := f], byFileIdentity := s.byFileIdentity[key := minted]), minted)
  }

  function RegisterCursor(s: Store, c: Cursor, minted: Handle): Store {
    s.(cursors := s.cursors[minted := c])
  }

  function ResolveAuthored(s: Store, h: Handle): Lookup<Message> {
    if h !in s.messages then Unknown
    else if !s.messages[h].authoredByAgent then NotAuthored
    else Found(s.messages[h])
  }

  function ResolveCursor(s: Store, h: Handle, scope: Option<Text>): Lookup<Text> {
    if h !in s.cursors then Unknown
    else if s.cursors[h].scope != scope then OtherScope
    else Found(s.cursors[h].value)
  }

  class ChannelRefStore {
    var messages: map<Handle, Message>
    var byIdentity: map<Text, Handle>
    var cursors: map<Handle, Cursor>
    var files: map<Handle, File>
    var byFileIdentity: map<Text, Handle>

    ghost function View(): Store
      reads this
    {
      Store(messages, byIdentity, cursors, files, byFileIdentity)
    }

    constructor ()
      ensures View() == EMPTY
    {
      messages, byIdentity, cursors, files, byFileIdentity := map[], map[], map[], map[], map[];
    }

    method DoMessage(identity: Message, minted: Handle) returns (ref: Handle)
      requires Inv(View())
      modifies this
      ensures (View(), ref) == RegisterMessage(old(View()), identity, minted)
    {
      var key := MessageKey(identity);
      if key in byIdentity {
        var existing := byIdentity[key];
        var previous := messages[existing];
        messages := messages[existing := Remember(previous, identity)];
        return existing;
      }
      messages := messages[minted := identity];
      byIdentity := byIdentity[key := minted];
      return minted;
    }

    method DoFile(identity: File, minted: Handle) returns (ref: Handle)
      modifies this
      ensures (View(), ref) == RegisterFile(old(View()), identity, minted)
    {
      var key := FileKey(identity);
      if key in byFileIdentity { return byFileIdentity[key]; }
      files := files[minted := identity];
      byFileIdentity := byFileIdentity[key := minted];
      return minted;
    }

    method DoCursor(value: Text, scope: Option<Text>, minted: Handle) returns (cursor: Handle)
      modifies this
      ensures View() == RegisterCursor(old(View()), Cursor(value, scope), minted) && cursor == minted
    {
      cursors := cursors[minted := Cursor(value, scope)];
      return minted;
    }

    method DoResolveAuthored(ref: Handle) returns (r: Lookup<Message>)
      ensures r == ResolveAuthored(View(), ref)
    {
      if ref !in messages { return Unknown; }
      if !messages[ref].authoredByAgent { return NotAuthored; }
      return Found(messages[ref]);
    }

    method DoResolveCursor(cursor: Handle, scope: Option<Text>) returns (r: Lookup<Text>)
      ensures r == ResolveCursor(View(), cursor, scope)
    {
      if cursor !in cursors { return Unknown; }
      if cursors[cursor].scope != scope { return OtherScope; }
      return Found(cursors[cursor].value);
    }
  }

  // ----- sequences of registrations -----

  datatype Event =
    | SeesMessage(message: Message, minted: Handle)
    | SeesFile(file: File, minted: Handle)
    | PagesWith(cursor: Cursor, minted: Handle)

  /** Random handles are taken to be new. */
  predicate Fresh(s: Store, e: Event) {
    e.minted !in s.messages && e.minted !in s.files && e.minted !in s.cursors
  }

  function Do(s: Store, e: Event): Store
    requires Inv(s)
  {
    match e
    case SeesMessage(m, minted) => RegisterMessage(s, m, minted).0
    case SeesFile(f, minted) => RegisterFile(s, f, minted).0
    case PagesWith(c, minted) => RegisterCursor(s, c, minted)
  }

  lemma MessageKeeps(s: Store, m: Message, minted: Handle)
    requires Inv(s) && minted !in s.messages
    ensures Inv(RegisterMessage(s, m, minted).0)
  {
    var key := MessageKey(m);
    if key in s.byIdentity {
      var h := s.byIdentity[key];
      KeysAreIdentities(m.conversation, m.thread, m.id, s.messages[h].conversation, s.messages[h].thread, s.messages[h].id);
    }
  }

  lemma StepKeeps(s: Store, e: Event)
    requires Inv(s) && Fresh(s, e)
    ensures Inv(Do(s, e))
  {
    if e.SeesMessage? { MessageKeeps(s, e.message, e.minted); }
  }

  predicate CanRun(s: Store, run: seq<Event>)
    requires Inv(s)
    decreases |run|
  {
    run == [] || (Fresh(s, run[0]) && (StepKeeps(s, run[0]); CanRun(Do(s, run[0]), run[1..])))
  }

  function After(s: Store, run: seq<Event>): (t: Store)
    requires Inv(s) && CanRun(s, run)
    ensures Inv(t)
    decreases |run|
  {
    if run == [] then s else StepKeeps(s, run[0]); After(Do(s, run[0]), run[1..])
  }

  predicate Known(s: Store, m: Message) {
    MessageKey(m) in s.byIdentity
  }

  function HandleOf(s: Store, m: Message): Handle
    requires Known(s, m)
  {
    s.byIdentity[MessageKey(m)]
  }

  predicate Authored(s: Store, m: Message)
    requires Inv(s)
  {
    Known(s, m) && s.messages[HandleOf(s, m)].authoredByAgent
  }

  predicate Sees(e: Event, m: Message) {
    e.SeesMessage? && SameMessage(e.message, m)
  }

  ghost predicate EverSeen(run: seq<Event>, m: Message) {
    exists i :: 0 <= i < |run| && Sees(run[i], m)
  }

  /** Some registration of this message said that the agent wrote it. */
  ghost predicate EverAuthored(run: seq<Event>, m: Message) {
    exists i :: 0 <= i < |run| && Sees(run[i], m) && run[i].message.authoredByAgent
  }

  lemma SameKey(a: Message, b: Message)
    ensures MessageKey(a) == MessageKey(b) <==> SameMessage(a, b)
  {
    if MessageKey(a) == MessageKey(b) {
      KeysAreIdentities(a.conversation, a.thread, a.id, b.conversation, b.thread, b.id);
    }
  }

  lemma SightingTracks(s: Store, seen: Message, minted: Handle, m: Message)
    requires Inv(s) && minted !in s.messages
    ensures var t := RegisterMessage(s, seen, minted).0;
      && Inv(t)
      && (Known(t, m) <==> Known(s, m) || SameMessage(seen, m))
      && (Known(s, m) ==> HandleOf(t, m) == HandleOf(s, m))
      && (Authored(t, m) <==> Authored(s, m) || (SameMessage(seen, m) && seen.authoredByAgent))
  {
    MessageKeeps(s, seen, minted);
    SameKey(seen, m);
    if Known(s, seen) { assert HandleOf(s, seen) in s.messages; }
    if Known(s, m) { assert MessageKey(s.messages[HandleOf(s, m)]) == MessageKey(m); }
  }

  lemma StepTracks(s: Store, e: Event, m: Message)
    requires Inv(s) && Fresh(s, e)
    ensures Inv(Do(s, e))
    ensures Known(Do(s, e), m) <==> Known(s, m) || Sees(e, m)
    ensures Known(s, m) ==> HandleOf(Do(s, e), m) == HandleOf(s, m)
    ensures Authored(Do(s, e), m) <==> Authored(s, m) || (Sees(e, m) && e.message.authoredByAgent)
  {
    StepKeeps(s, e);
    if e.SeesMessage? { SightingTracks(s, e.message, e.minted, m); }
  }

  lemma {:induction false} RunTracks(s: Store, run: seq<Event>, m: Message)
    requires Inv(s) && CanRun(s, run)
    ensures Known(After(s, run), m) <==> Known(s, m) || EverSeen(run, m)
    ensures Known(s, m) ==> HandleOf(After(s, run), m) == HandleOf(s, m)
    ensures Authored(After(s, run), m) <==> Authored(s, m) || EverAuthored(run, m)
    decreases |run|
  {
    if run != [] {
      StepTracks(s, run[0], m);
      RunTracks(Do(s, run[0]), run[1..], m);
      SplitEver(run, m);
    }
  }

  lemma SplitEver(run: seq<Event>, m: Message)
    requires run != []
    ensures EverSeen(run, m) <==> Sees(run[0], m) || EverSeen(run[1..], m)
    ensures EverAuthored(run, m) <==> (Sees(run[0], m) && run[0].message.authoredByAgent) || EverAuthored(run[1..], m)
  {
    forall i | 0 < i < |run| ensures run[i] == run[1..][i - 1] {
    }
    forall i | 0 <= i < |run[1..]| ensures run[1..][i] == run[i + 1] {
    }
  }

  /** After any registrations the message maps are each other's inverses: every message seen, and no
      other, has a handle, and two messages have the same one exactly when they are the same. */
  lemma OneHandlePerMessage(run: seq<Event>, a: Message, b: Message)
    requires CanRun(EMPTY, run)
    ensures var s := After(EMPTY, run);
      && Inv(s)
      && (Known(s, a) <==> EverSeen(run, a))
      && (Known(s, a) && Known(s, b) ==> (HandleOf(s, a) == HandleOf(s, b) <==> SameMessage(a, b)))
  {
    RunTracks(EMPTY, run, a);
    SameKey(a, b);
  }

  /** A message may be edited or retracted exactly when some registration of it, early or late, said the
      agent wrote it; and what is found is that message. */
  lemma AuthorshipIsExact(run: seq<Event>, m: Message)
    requires CanRun(EMPTY, run) && EverSeen(run, m)
    ensures var s := After(EMPTY, run);
      && Known(s, m)
      && (ResolveAuthored(s, HandleOf(s, m)).Found? <==> EverAuthored(run, m))
      && (EverAuthored(run, m) ==> SameMessage(ResolveAuthored(s, HandleOf(s, m)).value, m))
  {
    RunTracks(EMPTY, run, m);
    var s := After(EMPTY, run);
    assert MessageKey(s.messages[HandleOf(s, m)]) == MessageKey(m);
    SameKey(s.messages[HandleOf(s, m)], m);
  }

  /** The last permalink any registration of a message gave. */
  function LastPermalink(run: seq<Event>, m: Message): Option<Text> {
    if run == [] then None
    else Or(LastPermalink(run[1..], m), if Sees(run[0], m) then run[0].message.permalink else None)
  }

  function PermalinkOf(s: Store, m: Message): Option<Text>
    requires Inv(s)
  {
    if Known(s, m) then s.messages[HandleOf(s, m)].permalink else None
  }

  lemma SightingPermalink(s: Store, seen: Message, minted: Handle, m: Message)
    requires Inv(s) && minted !in s.messages
    ensures var t := RegisterMessage(s, seen, minted).0;
      && Inv(t)
      && PermalinkOf(t, m) == Or(if SameMessage(seen, m) then seen.permalink else None, PermalinkOf(s, m))
  {
    MessageKeeps(s, seen, minted);
    SameKey(seen, m);
    if Known(s, seen) { assert HandleOf(s, seen) in s.messages; }
    if Known(s, m) { assert MessageKey(s.messages[HandleOf(s, m)]) == MessageKey(m); }
  }

  lemma StepPermalink(s: Store, e: Event, m: Message)
    requires Inv(s) && Fresh(s, e)
    ensures Inv(Do(s, e))
    ensures PermalinkOf(Do(s, e), m)
         == Or(if Sees(e, m) then e.message.permalink else None, PermalinkOf(s, m))
  {
    StepKeeps(s, e);
    if e.SeesMessage? { SightingPermalink(s, e.message, e.minted, m); }
  }

  lemma {:induction false} PermalinkTracks(s: Store, run: seq<Event>, m: Message)
    requires Inv(s) && CanRun(s, run)
    ensures PermalinkOf(After(s, run), m) == Or(LastPermalink(run, m), PermalinkOf(s, m))
    decreases |run|
  {
    if run != [] {
      StepPermalink(s, run[0], m);
      PermalinkTracks(Do(s, run[0]), run[1..], m);
    }
  }

  /** A message keeps the last permalink it was seen with, when later sightings bring none. */
  lemma PermalinkIsTheLast(run: seq<Event>, m: Message)
    requires CanRun(EMPTY, run)
    ensures PermalinkOf(After(EMPTY, run), m) == LastPermalink(run, m)
  {
    PermalinkTracks(EMPTY, run, m);
  }

  /** A handle nobody minted finds nothing. */
  lemma InventedHandlesFindNothing(run: seq<Event>, h: Handle)
    requires CanRun(EMPTY, run)
    requires forall i | 0 <= i < |run| :: run[i].minted != h
    ensures Unused(After(EMPTY, run), h)
  {
    HandlesAreMinted(EMPTY, run, h);
  }

  predicate Unused(s: Store, h: Handle) {
    h !in s.messages && h !in s.files && h !in s.cursors
  }

  lemma StepUses(s: Store, e: Event, h: Handle)
    requires Inv(s) && Unused(s, h) && e.minted != h
    ensures Unused(Do(s, e), h)
  {
  }

  lemma {:induction false} HandlesAreMinted(s: Store, run: seq<Event>, h: Handle)
    requires Inv(s) && CanRun(s, run) && Unused(s, h)
    requires forall i | 0 <= i < |run| :: run[i].minted != h
    ensures Unused(After(s, run), h)
    decreases |run|
  {
    if run != [] {
      StepKeeps(s, run[0]);
      StepUses(s, run[0], h);
      HandlesAreMinted(Do(s, run[0]), run[1..], h);
    }
  }

  predicate HasCursor(s: Store, h: Handle, c: Cursor) {
    h in s.cursors && s.cursors[h] == c
  }

  lemma CursorStep(s: Store, e: Event, h: Handle, c: Cursor)
    requires Inv(s) && Fresh(s, e)
    ensures HasCursor(Do(s, e), h, c) <==> HasCursor(s, h, c) || e == PagesWith(c, h)
  {
  }

  lemma InRun(e: Event, run: seq<Event>)
    requires run != []
    ensures e in run <==> e == run[0] || e in run[1..]
  {
    assert run == [run[0]] + run[1..];
  }

  lemma {:induction false} CursorsTrack(s: Store, run: seq<Event>, h: Handle, c: Cursor)
    requires Inv(s) && CanRun(s, run)
    ensures HasCursor(After(s, run), h, c) <==> HasCursor(s, h, c) || PagesWith(c, h) in run
    decreases |run|
  {
    if run != [] {
      StepKeeps(s, run[0]);
      CursorStep(s, run[0], h, c);
      CursorsTrack(Do(s, run[0]), run[1..], h, c);
      InRun(PagesWith(c, h), run);
    }
  }

  /** A cursor gives back exactly the value it was minted for, and only in the scope it was minted in. */
  lemma CursorsKeepTheirScope(run: seq<Event>, h: Handle, scope: Option<Text>, value: Text)
    requires CanRun(EMPTY, run)
    ensures ResolveCursor(After(EMPTY, run), h, scope) == Found(value) <==> PagesWith(Cursor(value, scope), h) in run
  {
    CursorsTrack(EMPTY, run, h, Cursor(value, scope));
  }

  predicate FileKnown(s: Store, f: File) {
    FileKey(f) in s.byFileIdentity
  }

  function HandleOfFile(s: Store, f: File): Handle
    requires FileKnown(s, f)
  {
    s.byFileIdentity[FileKey(f)]
  }

  predicate SeesThisFile(e: Event, f: File) {
    e.SeesFile? && e.file == f
  }

  lemma FileStepTracks(s: Store, e: Event, f: File)
    requires Inv(s) && Fresh(s, e)
    ensures Inv(Do(s, e))
    ensures FileKnown(Do(s, e), f) <==> FileKnown(s, f) || SeesThisFile(e, f)
    ensures FileKnown(s, f) ==> HandleOfFile(Do(s, e), f) == HandleOfFile(s, f)
  {
    StepKeeps(s, e);
    if e.SeesFile? { SameFileKey(e.file, f); }
  }

  ghost predicate FileEverSeen(run: seq<Event>, f: File) {
    exists i :: 0 <= i < |run| && SeesThisFile(run[i], f)
  }

  lemma SplitFileSeen(run: seq<Event>, f: File)
    requires run != []
    ensures FileEverSeen(run, f) <==> SeesThisFile(run[0], f) || FileEverSeen(run[1..], f)
  {
    forall i | 0 < i < |run| ensures run[i] == run[1..][i - 1] {
    }
    forall i | 0 <= i < |run[1..]| ensures run[1..][i] == run[i + 1] {
    }
  }

  /** Over any registrations a file is known exactly when it was or has been seen, and its handle, once
      given, never changes. */
  lemma {:induction false} FileHandlesStay(s: Store, run: seq<Event>, f: File)
    requires Inv(s) && CanRun(s, run)
    ensures FileKnown(After(s, run), f) <==> FileKnown(s, f) || FileEverSeen(run, f)
    ensures FileKnown(s, f) ==> HandleOfFile(After(s, run), f) == HandleOfFile(s, f)
    decreases |run|
  {
    if run != [] {
      FileStepTracks(s, run[0], f);
      FileHandlesStay(Do(s, run[0]), run[1..], f);
      SplitFileSeen(run, f);
    }
  }

  /** Files, which carry nothing but their identity: after any registrations the ones seen, and no
      others, have a handle, and it leads back to that file. */
  lemma FilesAreFound(run: seq<Event>, f: File)
    requires CanRun(EMPTY, run)
    ensures var s := After(EMPTY, run);
      && (FileKnown(s, f) <==> FileEverSeen(run, f))
      && (FileKnown(s, f) ==> HandleOfFile(s, f) in s.files && s.files[HandleOfFile(s, f)] == f)
  {
    FileHandlesStay(EMPTY, run, f);
    var s := After(EMPTY, run);
    if FileKnown(s, f) {
      assert FileKey(s.files[HandleOfFile(s, f)]) == FileKey(f);
      SameFileKey(s.files[HandleOfFile(s, f)], f);
    }
  }

  /** Two files seen share a handle exactly when they are the same, and a handle leads to a file exactly
      when it is that file's. */
  lemma OneHandlePerFile(run: seq<Event>, f: File, g: File, h: Handle)
    requires CanRun(EMPTY, run) && FileEverSeen(run, f) && FileEverSeen(run, g)
    ensures var s := After(EMPTY, run);
      && FileKnown(s, f) && FileKnown(s, g)
      && (HandleOfFile(s, f) == HandleOfFile(s, g) <==> f == g)
      && (h in s.files && s.files[h] == f <==> h == HandleOfFile(s, f))
  {
    FilesAreFound(run, f);
    FilesAreFound(run, g);
  }

  lemma SameFileKey(a: File, b: File)
    ensures FileKey(a) == FileKey(b) <==> a == b
  {
    if FileKey(a) == FileKey(b) {
      KeysAreIdentities(a.conversation, a.thread, a.id, b.conversation, b.thread, b.id);
    }
  }

  /** What a lookup says of a handle: unknown, not the agent's own, of another scope, or found. */
  lemma LookupsExactly(s: Store, h: Handle, scope: Option<Text>)
    ensures ResolveAuthored(s, h).Unknown? <==> h !in s.messages
    ensures ResolveAuthored(s, h).NotAuthored? <==> h in s.messages && !s.messages[h].authoredByAgent
    ensures ResolveCursor(s, h, scope).Unknown? <==> h !in s.cursors
    ensures ResolveCursor(s, h, scope).OtherScope? <==> h in s.cursors && s.cursors[h].scope != scope
  {
  }
}
