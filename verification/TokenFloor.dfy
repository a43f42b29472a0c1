/** `scripts/context_floor_report.py` with the estimator of `context_floor_core.py` and
    the server texts of `context_floor_server.py`: the token floor against the bytes. */
module TokenFloor {
  import opened Wrappers

  /** One bucket's measurement, or the message of its `MeasurementError`. */
  datatype Measured<+T> = Value(value: T) | Failed(message: string)

  /** `round(n / 4)`: to the nearest, halves to the even neighbour. */
  function Tokens(n: nat): (t: nat) {
    var q := n / 4;
    if n % 4 < 2 || (n % 4 == 2 && q % 2 == 0) then q else q + 1
  }

  function Distance(x: int, y: int): (d: nat) {
    if x < y then y - x else x - y
  }

  /** No whole number is nearer to a quarter of the bytes, and a tie goes to the even one. */
  lemma TokensIsNearest(n: nat, other: int)
    ensures -2 <= 4 * Tokens(n) - n <= 2
    ensures Distance(4 * Tokens(n), n) <= Distance(4 * other, n)
    ensures other != Tokens(n) && Distance(4 * Tokens(n), n) == Distance(4 * other, n) ==> Tokens(n) % 2 == 0
  {
    assert n == 4 * (n / 4) + n % 4;
  }

  // ----- Server instructions -------------------------------------------------------------

  /** An instruction text of a server module: its bytes, and the command launching it. */
  datatype Instruction = Instruction(command: string, bytes: nat)

  function Occurrences(commands: seq<Option<string>>, c: string): (n: nat) {
    if commands == [] then 0
    else (if commands[|commands| - 1] == Some(c) then 1 else 0) + Occurrences(commands[..|commands| - 1], c)
  }

  lemma {:induction false} OccurrencesAre(commands: seq<Option<string>>, c: string)
    ensures Occurrences(commands, c) == multiset(commands)[Some(c)]
    decreases |commands|
  {
    if commands != [] {
      var front, last := commands[..|commands| - 1], commands[|commands| - 1];
      assert commands == front + [last];
      OccurrencesAre(front, c);
    }
  }

  /** `_count_bundles_by_serve_command`: entries without a command that is a string
      literal are passed over. */
  method CountBundles(commands: seq<Option<string>>) returns (counts: map<string, nat>)
    ensures forall c :: (c in counts <==> Occurrences(commands, c) > 0)
                        && (c in counts ==> counts[c] == Occurrences(commands, c))
    ensures forall c :: (if c in counts then counts[c] else 0) == multiset(commands)[Some(c)]
  {
    counts := map[];
    for i := 0 to |commands|
      invariant forall c :: (c in counts <==> Occurrences(commands[..i], c) > 0)
                            && (c in counts ==> counts[c] == Occurrences(commands[..i], c))
    {
      assert commands[..i + 1][..i] == commands[..i];
      if commands[i].Some? {
        var c := commands[i].value;
        counts := counts[c := (if c in counts then counts[c] else 0) + 1];
      }
    }
    assert commands[..|commands|] == commands;
    forall c ensures (if c in counts then counts[c] else 0) == multiset(commands)[Some(c)] {
      OccurrencesAre(commands, c);
    }
  }

  function ServerTokens(texts: seq<Instruction>, commands: seq<Option<string>>): (n: nat) {
    if texts == [] then 0
    else
      var t := texts[|texts| - 1];
      ServerTokens(texts[..|texts| - 1], commands) + Tokens(t.bytes) * Occurrences(commands, t.command)
  }

  function ServerBytes(texts: seq<Instruction>, commands: seq<Option<string>>): (n: nat) {
    if texts == [] then 0
    else
      var t := texts[|texts| - 1];
      ServerBytes(texts[..|texts| - 1], commands) + t.bytes * Occurrences(commands, t.command)
  }

  /** How many times a text is sent, over all texts and bundles. */
  function Sendings(texts: seq<Instruction>, commands: seq<Option<string>>): (n: nat) {
    if texts == [] then 0
    else Sendings(texts[..|texts| - 1], commands) + Occurrences(commands, texts[|texts| - 1].command)
  }

  /** `measure_server_instructions`. */
  method MeasureServerInstructions(texts: seq<Instruction>, commands: seq<Option<string>>) returns (total: nat)
    ensures total == ServerTokens(texts, commands)
  {
    var counts := CountBundles(commands);
    total := 0;
    for i := 0 to |texts|
      invariant total == ServerTokens(texts[..i], commands)
    {
      assert texts[..i + 1][..i] == texts[..i];
      var count := if texts[i].command in counts then counts[texts[i].command] else 0;
      total := total + Tokens(texts[i].bytes) * count;
    }
    assert texts[..|texts|] == texts;
  }

  lemma {:induction false} ServerTokensBound(texts: seq<Instruction>, commands: seq<Option<string>>)
    ensures var d := 4 * ServerTokens(texts, commands) - ServerBytes(texts, commands);
      -2 * Sendings(texts, commands) <= d <= 2 * Sendings(texts, commands)
    decreases |texts|
  {
    hide Tokens, Occurrences;
    if texts != [] {
      var t := texts[|texts| - 1];
      ServerTokensBound(texts[..|texts| - 1], commands);
      TokensIsNearest(t.bytes, 0);
      Weighted(Tokens(t.bytes), t.bytes, Occurrences(commands, t.command));
    }
  }

  lemma Weighted(t: nat, b: nat, n: nat)
    requires -2 <= 4 * t - b <= 2
    ensures -2 * n <= 4 * (t * n) - b * n <= 2 * n
  {
    var d := 4 * t - b;
    assert 4 * (t * n) - b * n == d * n;
    assert -2 * n <= d * n <= 2 * n;
  }

  // ----- The report ----------------------------------------------------------------------------

  datatype Name = Tools | Skills | Rules | ClaudeMd | ServerInstructions | SessionStart

  datatype Buckets = Buckets(
    tools: Measured<(nat, nat)>,          // docstring bytes, parameter bytes
    skills: Measured<nat>,
    rules: Measured<nat>,
    claudeMd: Measured<nat>,
    server: Measured<seq<Instruction>>,
    sessionStart: Measured<nat>)

  datatype Report = Report(
    schema: Option<nat>, skills: Option<nat>, rules: Option<nat>, claudeMd: Option<nat>,
    server: Option<nat>, sessionStart: Option<nat>, floor: Option<nat>, errors: map<Name, string>)

  predicate AllMeasured(b: Buckets) {
    b.tools.Value? && b.skills.Value? && b.rules.Value? && b.claudeMd.Value? && b.server.Value? && b.sessionStart.Value?
  }

  function TotalBytes(b: Buckets, commands: seq<Option<string>>): (n: nat)
    requires AllMeasured(b)
  {
    b.tools.value.0 + b.tools.value.1 + b.skills.value + b.rules.value + b.claudeMd.value
    + ServerBytes(b.server.value, commands) + b.sessionStart.value
  }

  function FailedNames(b: Buckets): (s: set<Name>) {
    {} + (if b.tools.Failed? then {Tools} else {}) + (if b.skills.Failed? then {Skills} else {})
    + (if b.rules.Failed? then {Rules} else {}) + (if b.claudeMd.Failed? then {ClaudeMd} else {})
    + (if b.server.Failed? then {ServerInstructions} else {}) + (if b.sessionStart.Failed? then {SessionStart} else {})
  }

  lemma AllMeasuredIff(b: Buckets)
    ensures AllMeasured(b) <==> FailedNames(b) == {}
  {
    assert b.tools.Failed? ==> Tools in FailedNames(b);
    assert b.skills.Failed? ==> Skills in FailedNames(b);
    assert b.rules.Failed? ==> Rules in FailedNames(b);
    assert b.claudeMd.Failed? ==> ClaudeMd in FailedNames(b);
    assert b.server.Failed? ==> ServerInstructions in FailedNames(b);
    assert b.sessionStart.Failed? ==> SessionStart in FailedNames(b);
  }

  /** `_measure_bucket`: the value, or nothing and an entry in `errors`. */
  method MeasureBucket<T>(name: Name, b: Measured<T>, errors: map<Name, string>)
    returns (v: Option<T>, errorsAfter: map<Name, string>)
    ensures b.Value? ==> v == Some(b.value) && errorsAfter == errors
    ensures b.Failed? ==> v == None && errorsAfter == errors[name := b.message]
    ensures errorsAfter.Keys == errors.Keys + if b.Failed? then {name} else {}
  {
    match b
    case Value(x) => v, errorsAfter := Some(x), errors;
    case Failed(message) => v, errorsAfter := None, errors[name := message];
  }

  /** The sum of the buckets' tokens. */
  function FloorOf(b: Buckets, commands: seq<Option<string>>): (n: nat)
    requires AllMeasured(b)
  {
    Tokens(b.tools.value.0) + Tokens(b.tools.value.1) + Tokens(b.skills.value) + Tokens(b.rules.value)
    + Tokens(b.claudeMd.value) + ServerTokens(b.server.value, commands) + Tokens(b.sessionStart.value)
  }

  /** Four times the floor is within two bytes of the total for each of the six
      roundings and each sending of a server text. */
  lemma FloorIsWithinRounding(b: Buckets, commands: seq<Option<string>>)
    requires AllMeasured(b)
    ensures Distance(4 * FloorOf(b, commands), TotalBytes(b, commands)) <= 2 * (6 + Sendings(b.server.value, commands))
  {
    hide Tokens, ServerTokens, ServerBytes, Sendings;
    TokensIsNearest(b.tools.value.0, 0);
    TokensIsNearest(b.tools.value.1, 0);
    TokensIsNearest(b.skills.value, 0);
    TokensIsNearest(b.rules.value, 0);
    TokensIsNearest(b.claudeMd.value, 0);
    TokensIsNearest(b.sessionStart.value, 0);
    ServerTokensBound(b.server.value, commands);
  }

  /** `build_report`: the floor is a number exactly when no bucket failed, and a failed
      bucket takes no other with it. */
  method BuildReport(b: Buckets, commands: seq<Option<string>>) returns (r: Report)
    ensures r.floor == if AllMeasured(b) then Some(FloorOf(b, commands)) else None
    ensures r.errors.Keys == FailedNames(b)
    ensures r.floor.Some? <==> r.errors == map[]
    ensures r.schema == if b.tools.Value? then Some(Tokens(b.tools.value.0) + Tokens(b.tools.value.1)) else None
    ensures r.skills == TokensOf(b.skills) && r.rules == TokensOf(b.rules)
    ensures r.claudeMd == TokensOf(b.claudeMd) && r.sessionStart == TokensOf(b.sessionStart)
    ensures r.server == if b.server.Value? then Some(ServerTokens(b.server.value, commands)) else None
    ensures AllMeasured(b) ==>
              Distance(4 * r.floor.value, TotalBytes(b, commands)) <= 2 * (6 + Sendings(b.server.value, commands))
  {
    hide Tokens, ServerTokens, TotalBytes, Distance, Sendings;
    var errors: map<Name, string> := map[];
    assert errors.Keys == {};
    var tools, skills, rules, claudeMd, server, sessionStart;
    tools, errors := MeasureBucket(Tools, b.tools, errors);
    skills, errors := MeasureBucket(Skills, b.skills, errors);
    rules, errors := MeasureBucket(Rules, b.rules, errors);
    claudeMd, errors := MeasureBucket(ClaudeMd, b.claudeMd, errors);
    server, errors := MeasureBucket(ServerInstructions, b.server, errors);
    sessionStart, errors := MeasureBucket(SessionStart, b.sessionStart, errors);
    var serverTokens: Option<nat> := None;
    if server.Some? {
      var total := MeasureServerInstructions(server.value, commands);
      serverTokens := Some(total);
    }
    var schema := if tools.Some? then Some(Tokens(tools.value.0) + Tokens(tools.value.1)) else None;
    var floor: Option<nat> := None;
    if schema.Some? && skills.Some? && rules.Some? && claudeMd.Some? && serverTokens.Some? && sessionStart.Some? {
      floor := Some(schema.value + Tokens(skills.value) + Tokens(rules.value) + Tokens(claudeMd.value)
                    + serverTokens.value + Tokens(sessionStart.value));
      FloorIsWithinRounding(b, commands);
    }
    assert errors == map[] <==> errors.Keys == {};
    AllMeasuredIff(b);
    r := Report(schema, TokensOf(b.skills), TokensOf(b.rules), TokensOf(b.claudeMd), serverTokens,
                TokensOf(b.sessionStart), floor, errors);
  }

  function TokensOf(b: Measured<nat>): (t: Option<nat>) {
    if b.Failed? then None else Some(Tokens(b.value))
  }

  /** The bound is reached, whatever the bundles. */
  lemma BoundIsReached(command: string, commands: seq<Option<string>>)
    ensures var text := Instruction(command, 2);
      var b := Buckets(Value((2, 2)), Value(2), Value(2), Value(2), Value([text]), Value(2));
      TotalBytes(b, commands) - 4 * (6 * Tokens(2) + ServerTokens([text], commands))
          == 2 * (6 + Sendings([text], commands))
  {
    var text := Instruction(command, 2);
    assert [text][..0] == [];
    assert Tokens(2) == 0;
    assert ServerBytes([text], commands) == 2 * Occurrences(commands, command);
    assert Sendings([text], commands) == Occurrences(commands, command);
  }
}
