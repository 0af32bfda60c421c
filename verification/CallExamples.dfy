/** The example calls printed in tool contracts, and the policy that checks calls. */
module CallExamples {
  import opened CodeUnits
  import opened Options
  import opened Json
  import opened CanonicalJson
  import opened OrderedJson
  import opened ObjectOrder
  import opened ShellWords

  const EQUALS: Unit := 61
  const DOT: Unit := 46

  /** `--`. */
  const SEPARATOR: Text := ['-' as int, '-' as int]

  // ----- printing -----

  /** A required parameter: what `exampleValue` chose for it, and whether its schema is structured. */
  datatype Parameter = Parameter(name: Text, example: Tree, structured: bool)

  predicate Letter(u: Unit) { 65 <= u <= 90 || 97 <= u <= 122 || u == '_' as int }

  predicate KeyUnit(u: Unit) { Letter(u) || Digit(u) || u == DOT || u == '-' as int }

  /** `SAFE_CLI_KEY`. */
  predicate SafeKey(name: Text) {
    name != [] && Letter(name[0]) && forall i | 0 <= i < |name| :: KeyUnit(name[i])
  }

  /** The text a value stands for on a command line. */
  function ValueText(t: Tree): Text {
    if t.Leaf? && t.scalar.String? then t.scalar.s else Stringify(t)
  }

  /** Numbers and booleans, which `callValue` leaves without quotes. */
  predicate Bare(t: Tree) {
    t.Leaf? && (t.scalar.Number? || t.scalar.Bool?)
  }

  /** `callValue`. */
  function CallValue(t: Tree): Text {
    if Bare(t) then Stringify(t) else ShellQuote(ValueText(t))
  }

  predicate NeedsJson(parameters: seq<Parameter>) {
    exists i :: 0 <= i < |parameters| && (!SafeKey(parameters[i].name) || parameters[i].structured)
  }

  function Pairs(parameters: seq<Parameter>): (pairs: seq<Member>)
    ensures |pairs| == |parameters|
    ensures forall i | 0 <= i < |pairs| :: pairs[i] == Member(parameters[i].name, parameters[i].example)
  {
    seq(|parameters|, i requires 0 <= i < |parameters| => Member(parameters[i].name, parameters[i].example))
  }

  /** The object of all parameters, as `Object.fromEntries` makes it. */
  function ExampleObject(parameters: seq<Parameter>): Tree {
    Record(OwnOrder(FromEntries(Pairs(parameters))))
  }

  function KeyArguments(parameters: seq<Parameter>): (tokens: seq<Text>)
    ensures |tokens| == |parameters|
    ensures forall i | 0 <= i < |tokens| ::
      tokens[i] == parameters[i].name + [EQUALS] + CallValue(parameters[i].example)
  {
    seq(|parameters|, i requires 0 <= i < |parameters| =>
      parameters[i].name + [EQUALS] + CallValue(parameters[i].example))
  }

  function Selector(server: Text, tool: Text): Text {
    server + [DOT] + tool
  }

  function ArgumentTokens(parameters: seq<Parameter>): seq<Text> {
    if NeedsJson(parameters) then [Of("--json"), ShellQuote(Stringify(ExampleObject(parameters)))]
    else KeyArguments(parameters)
  }

  /** `callExample`. */
  function CallExample(server: Text, tool: Text, parameters: seq<Parameter>): Text {
    Join([Of("mcp"), Of("call"), ShellToken(Selector(server, tool))] + ArgumentTokens(parameters), SPACE)
  }

  // ----- what the shell makes of it -----

  function KeyWords(parameters: seq<Parameter>): (words: seq<Text>)
    ensures |words| == |parameters|
    ensures forall i | 0 <= i < |words| ::
      words[i] == parameters[i].name + [EQUALS] + ValueText(parameters[i].example)
  {
    seq(|parameters|, i requires 0 <= i < |parameters| =>
      parameters[i].name + [EQUALS] + ValueText(parameters[i].example))
  }

  function ArgumentWords(parameters: seq<Parameter>): (words: seq<Text>)
    ensures |words| == |ArgumentTokens(parameters)|
  {
    if NeedsJson(parameters) then [Of("--json"), Stringify(ExampleObject(parameters))]
    else KeyWords(parameters)
  }

  /** The arguments after the program's name. */
  function IntendedArgs(server: Text, tool: Text, parameters: seq<Parameter>): seq<Text> {
    [Of("call"), Selector(server, tool)] + ArgumentWords(parameters)
  }

  lemma PlainWrites(t: Text)
    requires t != [] && forall i | 0 <= i < |t| :: !Special(t[i])
    ensures Writes(t, t)
  {
    forall rest: Text ensures ReadWord(Unquoted, t + rest) == Lead(t, ReadWord(Unquoted, rest)) { PlainReadsBack(t, rest); }
  }

  lemma QuoteWrites(t: Text)
    ensures Writes(ShellQuote(t), t)
  {
    forall rest: Text ensures ReadWord(Unquoted, ShellQuote(t) + rest) == Lead(t, ReadWord(Unquoted, rest)) {
      QuoteReadsBack(t, rest);
    }
  }

  lemma TokenWrites(t: Text)
    ensures Writes(ShellToken(t), t)
  {
    if SafeToken(t) { PlainWrites(t); } else { QuoteWrites(t); }
  }

  lemma LiteralWrites(s: string)
    requires s != "" && forall i | 0 <= i < |s| :: 'a' <= s[i] <= 'z' || s[i] == '-'
    ensures Writes(Of(s), Of(s))
  {
    PlainWrites(Of(s));
  }

  lemma WritesBoth(a: Text, b: Text, v: Text)
    requires a != [] && forall i | 0 <= i < |a| :: !Special(a[i])
    requires Writes(b, v)
    ensures Writes(a + b, a + v)
  {
    forall rest: Text ensures ReadWord(Unquoted, a + b + rest) == Lead(a + v, ReadWord(Unquoted, rest)) {
      assert a + b + rest == a + (b + rest);
      PlainReadsBack(a, b + rest);
      LeadLead(a, v, ReadWord(Unquoted, rest));
    }
  }

  lemma BareIsPlain(t: Tree)
    requires Bare(t)
    ensures Stringify(t) != [] && forall i | 0 <= i < |Stringify(t)| :: !Special(Stringify(t)[i])
  {
    if t.scalar.Bool? {
      assert Of("true") == ['t' as int, 'r' as int, 'u' as int, 'e' as int];
      assert Of("false") == ['f' as int, 'a' as int, 'l' as int, 's' as int, 'e' as int];
    }
  }

  lemma ValueWrites(t: Tree)
    ensures Writes(CallValue(t), ValueText(t))
  {
    if Bare(t) {
      BareIsPlain(t);
      PlainWrites(Stringify(t));
    } else {
      QuoteWrites(ValueText(t));
    }
  }

  lemma KeyWrites(p: Parameter)
    requires SafeKey(p.name)
    ensures Writes(p.name + [EQUALS] + CallValue(p.example), p.name + [EQUALS] + ValueText(p.example))
  {
    ValueWrites(p.example);
    WritesBoth(p.name + [EQUALS], CallValue(p.example), ValueText(p.example));
  }

  ghost predicate WritesAll(tokens: seq<Text>, words: seq<Text>) {
    |tokens| == |words| && forall i | 0 <= i < |tokens| :: Writes(tokens[i], words[i])
  }

  lemma ArgumentsWrite(parameters: seq<Parameter>)
    ensures WritesAll(ArgumentTokens(parameters), ArgumentWords(parameters))
  {
    if NeedsJson(parameters) {
      LiteralWrites("--json");
      QuoteWrites(Stringify(ExampleObject(parameters)));
    } else {
      forall i | 0 <= i < |parameters| ensures Writes(KeyArguments(parameters)[i], KeyWords(parameters)[i]) {
        KeyWrites(parameters[i]);
      }
    }
  }

  lemma LineReads(program: Text, command: Text, token: Text, word: Text, tokens: seq<Text>, words: seq<Text>)
    requires Writes(program, program) && Writes(command, command) && Writes(token, word) && WritesAll(tokens, words)
    ensures Words(Join([program, command, token] + tokens, SPACE)) == Some([program] + ([command, word] + words))
  {
    var allTokens, allWords := [program, command, token] + tokens, [program, command, word] + words;
    forall i | 0 <= i < |allTokens| ensures Writes(allTokens[i], allWords[i]) {
      if i >= 3 { assert allTokens[i] == tokens[i - 3] && allWords[i] == words[i - 3]; }
    }
    TokensReadBack(allTokens, allWords);
    assert allWords == [program] + ([command, word] + words);
  }

  /** Whatever the names and values, quotes, blanks and newlines in them included, the shell splits the
      printed line into the program, the selector and the arguments meant. */
  lemma ExampleReadsBack(server: Text, tool: Text, parameters: seq<Parameter>)
    ensures Words(CallExample(server, tool, parameters)) == Some([Of("mcp")] + IntendedArgs(server, tool, parameters))
  {
    LiteralWrites("mcp");
    LiteralWrites("call");
    TokenWrites(Selector(server, tool));
    ArgumentsWrite(parameters);
    LineReads(Of("mcp"), Of("call"), ShellToken(Selector(server, tool)), Selector(server, tool),
              ArgumentTokens(parameters), ArgumentWords(parameters));
  }

  // ----- the call policy -----

  predicate WhiteSpace(u: Unit) {
    || 9 <= u <= 13 || u == 32 || u == 0xA0 || u == 0x1680 || 0x2000 <= u <= 0x200A
    || u == 0x2028 || u == 0x2029 || u == 0x202F || u == 0x205F || u == 0x3000 || u == 0xFEFF
  }

  /** `value.trim()`. */
  function Trim(t: Text): Text {
    if t == [] then []
    else if WhiteSpace(t[0]) then Trim(t[1..])
    else if WhiteSpace(t[|t| - 1]) then Trim(t[..|t| - 1])
    else t
  }

  predicate Parenthesis(u: Unit) { u == '(' as int || u == ')' as int }

  predicate NoParentheses(t: Text) {
    forall i | 0 <= i < |t| :: !Parenthesis(t[i])
  }

  /** `toolSelector` of the policy. */
  function ToolSelector(value: Text): Option<(Text, Text)> {
    var ref := Trim(value);
    if !NoParentheses(ref) || DOT !in ref then None
    else
      var dot := IndexOf(ref, DOT);
      if dot < 1 || dot == |ref| - 1 then None else Some((ref[..dot], ref[dot + 1..]))
  }

  /** Something before a slash: a URL or an ad-hoc server. */
  predicate AdHoc(server: Text) {
    SLASH in server && IndexOf(server, SLASH) >= 1
  }

  datatype Policy = Policy(servers: set<Text>, allows: (Text, Text) -> bool)

  function FlagName(arg: Text): Text {
    if EQUALS in arg then arg[..IndexOf(arg, EQUALS)] else arg
  }

  const FORBIDDEN: seq<string> := [
    "--config", "--root", "--log-level", "--http-url", "--sse", "--stdio", "--stdio-bin", "--stdio-arg",
    "--header", "--env", "--cwd", "--name", "--description", "--persist", "--allow-http", "--insecure", "--yes",
    "--server", "--tool", "--tail-log", "--brief", "--signatures", "--args", "--no-oauth", "--oauth-timeout",
    "--raw-strings", "--no-coerce"]

  predicate Forbidden(flag: Text) {
    exists i :: 0 <= i < |FORBIDDEN| && flag == Of(FORBIDDEN[i])
  }

  predicate TakesValue(flag: Text) {
    flag == Of("--json") || flag == Of("--output") || flag == Of("--timeout")
  }

  predicate Dashes(arg: Text) {
    |arg| >= 2 && arg[0] == '-' as int && arg[1] == '-' as int
  }

  /** `key=value`. */
  predicate KeyValue(arg: Text) {
    EQUALS in arg && SafeKey(arg[..IndexOf(arg, EQUALS)])
  }

  /** What `callSyntaxError` lets pass. */
  predicate GoodSyntax(args: seq<Text>)
    decreases |args|
  {
    if args == [] then true
    else if |args[0]| == 2 && Dashes(args[0]) then false
    else if Dashes(args[0]) then
      TakesValue(FlagName(args[0])) && GoodSyntax(args[(if EQUALS in args[0] || |args| == 1 then 1 else 2)..])
    else KeyValue(args[0]) && GoodSyntax(args[1..])
  }

  method CallSyntaxError(args: seq<Text>) returns (error: bool)
    ensures error <==> !GoodSyntax(args)
  {
    var index := 0;
    while index < |args|
      invariant 0 <= index
      invariant GoodSyntax(args) <==> GoodSyntax(if index <= |args| then args[index..] else [])
    {
      var arg := args[index];
      assert args[index..][1..] == args[index + 1..];
      if index + 1 < |args| { assert args[index..][2..] == args[index + 2..]; }
      if |arg| == 2 && Dashes(arg) { return true; }
      if Dashes(arg) {
        if !TakesValue(FlagName(arg)) { return true; }
        index := index + if EQUALS in arg then 1 else 2;
      } else {
        if !KeyValue(arg) { return true; }
        index := index + 1;
      }
    }
    return false;
  }

  /** Everything before a literal `--`. */
  function OptionsOf(args: seq<Text>): (options: seq<Text>)
    ensures options <= args
  {
    if args == [] || args[0] == SEPARATOR then [] else [args[0]] + OptionsOf(args[1..])
  }

  predicate ForbiddenFlag(args: seq<Text>) {
    exists i :: 0 <= i < |OptionsOf(args)| && Forbidden(FlagName(OptionsOf(args)[i]))
  }

  function WithNoOAuth(args: seq<Text>): seq<Text> {
    OptionsOf(args) + [Of("--no-oauth")] + args[|OptionsOf(args)|..]
  }

  datatype CallResult =
    | Command(args: seq<Text>)
    | NeedsDottedSelector
    | NeedsSelector
    | OutsideSession
    | Unavailable
    | OptionUnavailable
    | BadSyntax

  /** `validateCall`: the first complaint, or the command to run. */
  function ValidateCall(args: seq<Text>, policy: Policy): CallResult {
    var raw := if |args| > 1 then args[1] else [];
    var selector := if raw == [] then None else ToolSelector(raw);
    if selector.None? then
      if raw != [] && |args| > 2 && args[2] != [] && raw in policy.servers && policy.allows(raw, args[2])
      then NeedsDottedSelector else NeedsSelector
    else
      var (server, tool) := selector.value;
      if AdHoc(server) then OutsideSession
      else if server !in policy.servers || !policy.allows(server, tool) then Unavailable
      else if ForbiddenFlag(args[2..]) then OptionUnavailable
      else if !GoodSyntax(args[2..]) then BadSyntax
      else Command(WithNoOAuth(args))
  }

  // ----- the policy and the printed calls -----

  /** The names a dotted selector can carry. */
  predicate Selectable(server: Text, tool: Text) {
    && server != [] && tool != [] && DOT !in server
    && NoParentheses(server) && NoParentheses(tool)
    && !WhiteSpace(server[0]) && !WhiteSpace(tool[|tool| - 1])
  }

  lemma {:induction false} TrimShortens(t: Text)
    ensures |Trim(t)| <= |t|
    ensures Trim(t) == t <==> t == [] || (!WhiteSpace(t[0]) && !WhiteSpace(t[|t| - 1]))
  {
    if t != [] {
      if WhiteSpace(t[0]) {
        TrimShortens(t[1..]);
      } else if WhiteSpace(t[|t| - 1]) {
        TrimShortens(t[..|t| - 1]);
      }
    }
  }

  lemma SelectorParts(server: Text, tool: Text)
    ensures var t := Selector(server, tool);
      t[..|server|] == server && t[|server|] == DOT && t[|server| + 1..] == tool && |t| == |server| + 1 + |tool|
  {
  }

  lemma SelectableReads(server: Text, tool: Text)
    requires Selectable(server, tool)
    ensures ToolSelector(Selector(server, tool)) == Some((server, tool))
  {
    var t := Selector(server, tool);
    SelectorParts(server, tool);
    assert t[0] == server[0] && t[|t| - 1] == tool[|tool| - 1];
    assert Trim(t) == t;
    assert NoParentheses(t);
    assert forall i | 0 <= i < |server| :: t[i] == server[i] && server[i] in server;
    assert IndexOf(t, DOT) == |server|;
  }

  lemma ReadsSelectable(server: Text, tool: Text)
    requires ToolSelector(Selector(server, tool)) == Some((server, tool))
    ensures Selectable(server, tool)
  {
    var t := Selector(server, tool);
    SelectorParts(server, tool);
    TrimShortens(t);
    var ref := Trim(t);
    var dot := IndexOf(ref, DOT);
    assert ref == ref[..dot] + [ref[dot]] + ref[dot + 1..];
    assert ref == t && dot == |server|;
    forall i | 0 <= i < |server| ensures server[i] != DOT && !Parenthesis(server[i]) { assert server[i] == t[i]; }
    forall i | 0 <= i < |tool| ensures !Parenthesis(tool[i]) { assert tool[i] == t[dot + 1 + i]; }
    assert t[0] == server[0] && t[|t| - 1] == tool[|tool| - 1];
  }

  /** The policy finds the server and the tool in their selector exactly when the names are selectable. */
  lemma SelectorReadsBack(server: Text, tool: Text)
    ensures ToolSelector(Selector(server, tool)) == Some((server, tool)) <==> Selectable(server, tool)
  {
    if Selectable(server, tool) { SelectableReads(server, tool); }
    if ToolSelector(Selector(server, tool)) == Some((server, tool)) { ReadsSelectable(server, tool); }
  }

  lemma ForbiddenShape(flag: Text)
    requires Forbidden(flag)
    ensures Dashes(flag) && |flag| > 2 && flag[2] != 'j' as int
  {
    var i :| 0 <= i < |FORBIDDEN| && flag == Of(FORBIDDEN[i]);
    assert |FORBIDDEN[i]| > 2 && FORBIDDEN[i][0] == '-' && FORBIDDEN[i][1] == '-' && FORBIDDEN[i][2] != 'j';
  }

  /** An argument the policy cannot take for a flag it forbids, nor for the end of the options. */
  predicate Harmless(arg: Text) {
    arg != [] && (arg[0] != '-' as int || arg == Of("--json"))
  }

  lemma HarmlessIsAllowed(arg: Text)
    requires Harmless(arg)
    ensures !Forbidden(FlagName(arg)) && arg != SEPARATOR
  {
    var flag := FlagName(arg);
    if Forbidden(flag) { ForbiddenShape(flag); }
    assert arg == Of("--json") ==> |arg| == 6 && arg[2] == 'j' as int;
  }

  lemma {:induction false} NoEndOfOptions(args: seq<Text>)
    requires forall i | 0 <= i < |args| :: args[i] != SEPARATOR
    ensures OptionsOf(args) == args
  {
    if args != [] { NoEndOfOptions(args[1..]); }
  }

  lemma KeyRecovered(name: Text, value: Text)
    requires SafeKey(name)
    ensures var arg := name + [EQUALS] + value;
      && KeyValue(arg) && FlagName(arg) == name && arg[IndexOf(arg, EQUALS) + 1..] == value && Harmless(arg)
  {
    var arg := name + [EQUALS] + value;
    assert arg[|name|] == EQUALS;
    var k := IndexOf(arg, EQUALS);
    if k < |name| { assert arg[k] == name[k] && KeyUnit(name[k]); }
    assert arg[..k] == name && arg[0] == name[0];
  }

  lemma {:induction false} KeysAreGood(args: seq<Text>)
    requires forall i | 0 <= i < |args| :: KeyValue(args[i]) && args[i] != [] && args[i][0] != '-' as int
    ensures GoodSyntax(args)
  {
    if args != [] { KeysAreGood(args[1..]); }
  }

  /** Read as JSON, or as keys and values, the words carry what was meant. */
  lemma ArgumentsRecovered(parameters: seq<Parameter>)
    ensures NeedsJson(parameters) ==>
      var words := ArgumentWords(parameters);
      && |words| == 2 && words[0] == Of("--json")
      && ReadValue(words[1]) == Some((Object(MembersMeaning(Pairs(parameters))), []))
    ensures !NeedsJson(parameters) ==>
      forall i | 0 <= i < |parameters| ::
        var w := ArgumentWords(parameters)[i];
        && KeyValue(w)
        && FlagName(w) == parameters[i].name
        && w[IndexOf(w, EQUALS) + 1..] == ValueText(parameters[i].example)
  {
    if NeedsJson(parameters) {
      var t := ExampleObject(parameters);
      EntriesAreTheLast(Pairs(parameters));
      OwnOrderMeans(FromEntries(Pairs(parameters)));
      StringifyReadsBack(t, []);
      assert Stringify(t) + [] == Stringify(t);
    } else {
      forall i | 0 <= i < |parameters| {
        KeyRecovered(parameters[i].name, ValueText(parameters[i].example));
      }
    }
  }

  /** The keyed form is used whenever it can be: all names are simple and no schema is structured. */
  lemma KeyedWhenPossible(parameters: seq<Parameter>)
    ensures (forall p | p in parameters :: SafeKey(p.name) && !p.structured) ==> ArgumentWords(parameters) == KeyWords(parameters)
    ensures (exists p :: p in parameters && (!SafeKey(p.name) || p.structured)) ==> ArgumentWords(parameters)[..1] == [Of("--json")]
  {
    if p :| p in parameters && (!SafeKey(p.name) || p.structured) {
      var i :| 0 <= i < |parameters| && parameters[i] == p;
      assert NeedsJson(parameters);
    }
  }

  lemma JsonWordsAreGood(flag: Text, json: Text)
    requires flag == Of("--json") && json != [] && json[0] == OPEN_OBJECT
    ensures GoodSyntax([flag, json]) && Harmless(flag) && Harmless(json)
  {
    assert |flag| == 6 && flag[0] == '-' as int && flag[1] == '-' as int && EQUALS !in flag;
    assert [flag, json][2..] == [];
  }

  lemma KeyWordsAreGood(parameters: seq<Parameter>)
    requires forall p | p in parameters :: SafeKey(p.name)
    ensures GoodSyntax(KeyWords(parameters))
    ensures forall w | w in KeyWords(parameters) :: Harmless(w)
  {
    var words := KeyWords(parameters);
    forall i | 0 <= i < |words| ensures KeyValue(words[i]) && Harmless(words[i]) && words[i][0] != '-' as int {
      assert parameters[i] in parameters;
      KeyRecovered(parameters[i].name, ValueText(parameters[i].example));
      assert words[i][0] == parameters[i].name[0];
    }
    KeysAreGood(words);
  }

  lemma ArgumentsAreGood(parameters: seq<Parameter>)
    ensures GoodSyntax(ArgumentWords(parameters))
    ensures forall w | w in ArgumentWords(parameters) :: Harmless(w)
  {
    if NeedsJson(parameters) {
      JsonWordsAreGood(Of("--json"), Stringify(ExampleObject(parameters)));
    } else {
      KeyWordsAreGood(parameters);
    }
  }

  lemma AllowedOptions(args: seq<Text>)
    requires forall a | a in args :: Harmless(a)
    ensures !ForbiddenFlag(args)
  {
    forall i | 0 <= i < |args| ensures !Forbidden(FlagName(args[i])) && args[i] != SEPARATOR {
      HarmlessIsAllowed(args[i]);
    }
    NoEndOfOptions(args);
  }

  /** A printed call, read by the shell, is a call of that tool the policy accepts, exactly when the
      names are selectable, the server is no ad-hoc one, and the session allows the tool. */
  lemma ExampleIsAccepted(server: Text, tool: Text, parameters: seq<Parameter>, policy: Policy)
    ensures var args := IntendedArgs(server, tool, parameters);
      (ToolSelector(args[1]) == Some((server, tool)) && ValidateCall(args, policy) == Command(args + [Of("--no-oauth")]))
      <==> (Selectable(server, tool) && !AdHoc(server) && server in policy.servers && policy.allows(server, tool))
  {
    var args := IntendedArgs(server, tool, parameters);
    SelectorReadsBack(server, tool);
    ArgumentsAreGood(parameters);
    assert args[2..] == ArgumentWords(parameters);
    AllowedOptions(ArgumentWords(parameters));
    AcceptedArgs(server, tool, parameters);
  }

  lemma {:induction false} NoOAuthGoesLast(args: seq<Text>)
    requires SEPARATOR !in args
    ensures WithNoOAuth(args) == args + [Of("--no-oauth")]
  {
    NoEndOfOptions(args);
  }

  lemma HarmlessAreNoSeparators(words: seq<Text>)
    requires forall w | w in words :: Harmless(w)
    ensures SEPARATOR !in words
  {
    forall w | w in words ensures w != SEPARATOR { HarmlessIsAllowed(w); }
  }

  lemma SelectorIsNoSeparator(server: Text, tool: Text)
    ensures Selector(server, tool) != SEPARATOR
  {
    SelectorParts(server, tool);
    assert DOT in Selector(server, tool) && DOT !in SEPARATOR;
  }

  lemma AcceptedArgs(server: Text, tool: Text, parameters: seq<Parameter>)
    ensures var args := IntendedArgs(server, tool, parameters); WithNoOAuth(args) == args + [Of("--no-oauth")]
  {
    ArgumentsAreGood(parameters);
    HarmlessAreNoSeparators(ArgumentWords(parameters));
    SelectorIsNoSeparator(server, tool);
    assert |Of("call")| == 4;
    NoOAuthGoesLast(IntendedArgs(server, tool, parameters));
  }

  // ----- what an accepted call is -----

  lemma {:induction false} OptionsAreBeforeSeparator(args: seq<Text>)
    ensures SEPARATOR !in OptionsOf(args)
    ensures |OptionsOf(args)| < |args| ==> args[|OptionsOf(args)|] == SEPARATOR
  {
    if args != [] && args[0] != SEPARATOR {
      OptionsAreBeforeSeparator(args[1..]);
    }
  }

  lemma SelectorHasDot(value: Text)
    requires ToolSelector(value).Some?
    ensures value != SEPARATOR && value != []
  {
    assert Trim(SEPARATOR) == SEPARATOR;
  }

  /** Whatever its arguments, an accepted call names a tool that the session allows on a server of the
      session; it runs with the same arguments and `--no-oauth` before any `--`; and before that no
      argument is a forbidden flag. */
  lemma AcceptedCallsAreAllowed(args: seq<Text>, policy: Policy)
    requires args != [] && args[0] == Of("call") && ValidateCall(args, policy).Command?
    ensures |args| >= 2 && ToolSelector(args[1]).Some?
    ensures var (server, tool) := ToolSelector(args[1]).value;
      !AdHoc(server) && server in policy.servers && policy.allows(server, tool)
    ensures exists i :: 2 <= i <= |args| && RunsWith(args, i, ValidateCall(args, policy).args)
  {
    SelectorHasDot(args[1]);
    var i := |OptionsOf(args)|;
    OptionsAreBeforeSeparator(args);
    assert |Of("call")| == 4;
    assert OptionsOf(args) == [args[0]] + ([args[1]] + OptionsOf(args[2..])) by {
      assert OptionsOf(args) == [args[0]] + OptionsOf(args[1..]);
      assert args[1..][1..] == args[2..];
      assert OptionsOf(args[1..]) == [args[1]] + OptionsOf(args[2..]);
    }
    var options := OptionsOf(args[2..]);
    forall j | 2 <= j < i ensures !Forbidden(FlagName(args[j])) {
      assert options[j - 2] == OptionsOf(args)[j] == args[j];
    }
    forall j | 0 <= j < i ensures args[j] != SEPARATOR { assert OptionsOf(args)[j] == args[j]; }
    assert OptionsOf(args) == args[..i];
    assert RunsWith(args, i, WithNoOAuth(args));
  }

  predicate RunsWith(args: seq<Text>, i: nat, run: seq<Text>)
    requires i <= |args|
  {
    && run == args[..i] + [Of("--no-oauth")] + args[i..]
    && (forall j | 0 <= j < i :: args[j] != SEPARATOR)
    && (i < |args| ==> args[i] == SEPARATOR)
    && forall j | 2 <= j < i :: !Forbidden(FlagName(args[j]))
  }
}
