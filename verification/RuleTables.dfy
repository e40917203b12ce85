/**
 * The location rules of the handler: what `reload` makes of the tables (packages/handler/src/init.ts) and what
 * `isUnprotected` and `grant` read in them (packages/handler/src/handlerMain.ts), as functions on values.
 */
module RuleSpec {
  import opened Wrappers

  /** A rule compiled: a constant, a logout rule, or an expression evaluated in the sandbox. */
  datatype Condition = Ok | Nok | Logout(url: string) | Expression(text: string)

  /** One entry of `locationRules[vhost]`. */
  datatype Entry = Entry(url: string, rule: string)

  /**
   * The regular expressions and the sandbox. `expression` and `pattern` say what compiles; `matches` tests a compiled
   * pattern on a URI; `eval` is the value of an expression for one request and session, nothing when it throws.
   */
  datatype Engine = Engine(logoutUrl: string -> string, expression: string -> bool, pattern: string -> bool,
                           matches: (string, string) -> bool, eval: string -> Option<bool>)

  /** The tables of one virtual host. */
  datatype Tables = Tables(conditions: seq<Condition>, protections: seq<nat>, patterns: seq<string>, count: nat,
                           default: Option<(Condition, nat)>)

  const NO_TABLES := Tables([], [], [], 0, None)

  /** `conditionSub`; nothing when the expression does not compile. */
  function ConditionSub(engine: Engine, rule: string): Option<(Condition, nat)> {
    if rule == "accept" then Some((Ok, 0))
    else if rule == "deny" then Some((Nok, 0))
    else if rule == "unprotect" then Some((Ok, 1))
    else if rule == "skip" then Some((Ok, 2))
    else if engine.logoutUrl(rule) != "" then Some((Logout(engine.logoutUrl(rule)), 0))
    else if engine.expression(rule) then Some((Expression(rule), 0))
    else None
  }

  /** One rule. The condition and the protection are pushed before the pattern is compiled. */
  function AddRule(engine: Engine, t: Tables, e: Entry): (Tables, bool) {
    match ConditionSub(engine, e.rule)
    case None => (t, false)
    case Some((condition, protection)) =>
      if e.url == "default" then (t.(default := Some((condition, protection))), true)
      else
        var pushed := t.(conditions := t.conditions + [condition], protections := t.protections + [protection]);
        if engine.pattern(e.url) then (pushed.(patterns := t.patterns + [e.url], count := t.count + 1), true)
        else (pushed, false)
  }

  /** The rules of one virtual host, up to the first that throws. */
  function AddRules(engine: Engine, t: Tables, rules: seq<Entry>): (Tables, bool)
    decreases |rules|
  {
    if |rules| == 0 then (t, true)
    else
      var (t1, ok) := AddRule(engine, t, rules[0]);
      if ok then AddRules(engine, t1, rules[1..]) else (t1, false)
  }

  function WithDefault(t: Tables): Tables {
    if t.default.None? then t.(default := Some((Ok, 0))) else t
  }

  /** One virtual host. The tables of earlier reloads are kept; only the count starts again. */
  function LoadVhost(engine: Engine, t: Tables, rules: seq<Entry>): (Tables, bool) {
    var (t1, ok) := AddRules(engine, t.(count := 0), rules);
    (if ok then WithDefault(t1) else t1, ok)
  }

  // ---------------------------------------------------------------- the readers

  /** The index of the first pattern that matches, or the number of patterns. */
  function FirstMatch(engine: Engine, patterns: seq<string>, uri: string): (i: nat)
    ensures i <= |patterns|
    ensures i < |patterns| ==> engine.matches(patterns[i], uri)
    ensures forall j :: 0 <= j < i ==> !engine.matches(patterns[j], uri)
  {
    if |patterns| == 0 || engine.matches(patterns[0], uri) then 0 else 1 + FirstMatch(engine, patterns[1..], uri)
  }

  datatype Decision =
    | NoConfiguration
    | InvalidCondition(index: nat)
    | Resolved(granted: bool)
    | Unauthorized
    | Thrown

  function Evaluate(engine: Engine, c: Condition): Option<bool> {
    match c
    case Ok => Some(true)
    case Nok => Some(false)
    case Logout(_) => Some(false)
    case Expression(text) => engine.eval(text)
  }

  function LocationDecision(engine: Engine, c: Condition): Decision {
    var value := Evaluate(engine, c);
    if value.None? then Thrown else Resolved(value.value)
  }

  function DefaultDecision(engine: Engine, c: Condition): Decision {
    var value := Evaluate(engine, c);
    if value.None? then Thrown else if value.value then Resolved(true) else Unauthorized
  }

  /** `grant` */
  function Grant(engine: Engine, t: Tables, uri: string): Decision {
    if t.default.None? then NoConfiguration
    else
      var i := FirstMatch(engine, t.patterns, uri);
      if i == |t.patterns| then DefaultDecision(engine, t.default.value.0)
      else if i < |t.conditions| then LocationDecision(engine, t.conditions[i])
      else InvalidCondition(i)
  }

  /** `isUnprotected`; nothing for `false` and for `undefined` */
  function IsUnprotected(engine: Engine, t: Tables, uri: string): Option<nat> {
    if t.default.None? then None
    else
      var i := FirstMatch(engine, t.patterns, uri);
      if i == |t.patterns| then Some(t.default.value.1)
      else if i < |t.protections| then Some(t.protections[i])
      else None
  }

  // ---------------------------------------------------------------- the reference: rules in order

  /** A rule that names a location. */
  predicate Location(e: Entry) {
    e.url != "default"
  }

  /** The entries for locations, in order. */
  function Locations(rules: seq<Entry>): seq<Entry> {
    if |rules| == 0 then [] else (if Location(rules[0]) then [rules[0]] else []) + Locations(rules[1..])
  }

  /** The last rule declared as default. */
  function LastDefault(rules: seq<Entry>): Option<string> {
    if |rules| == 0 then None
    else if !Location(rules[|rules| - 1]) then Some(rules[|rules| - 1].rule)
    else LastDefault(rules[..|rules| - 1])
  }

  predicate Compiles(engine: Engine, e: Entry) {
    ConditionSub(engine, e.rule).Some? && (Location(e) ==> engine.pattern(e.url))
  }

  predicate AllCompile(engine: Engine, rules: seq<Entry>) {
    forall i :: 0 <= i < |rules| ==> Compiles(engine, rules[i])
  }

  function Patterns(locations: seq<Entry>): (patterns: seq<string>)
    ensures |patterns| == |locations|
  {
    seq(|locations|, i requires 0 <= i < |locations| => locations[i].url)
  }

  /** The rules that are read: those before the first that does not compile. */
  function Read(engine: Engine, rules: seq<Entry>): (read: seq<Entry>)
    ensures AllCompile(engine, read) && |read| <= |rules|
  {
    if |rules| == 0 || !Compiles(engine, rules[0]) then [] else [rules[0]] + Read(engine, rules[1..])
  }

  /** A location whose condition and protection are in the tables. */
  datatype Row = Row(url: string, rule: string, condition: Condition, protection: nat)

  /** The rows pushed: those of the locations read, and that of a location at whose pattern the reading stops. */
  function Pushed(engine: Engine, rules: seq<Entry>): (rows: seq<Row>)
    ensures forall i :: 0 <= i < |rows| ==>
              ConditionSub(engine, rows[i].rule) == Some((rows[i].condition, rows[i].protection))
  {
    if |rules| == 0 then []
    else match ConditionSub(engine, rules[0].rule)
      case None => []
      case Some((c, p)) =>
        (if Location(rules[0]) then [Row(rules[0].url, rules[0].rule, c, p)] else [])
        + (if Compiles(engine, rules[0]) then Pushed(engine, rules[1..]) else [])
  }

  function Conditions(rows: seq<Row>): (conditions: seq<Condition>)
    ensures |conditions| == |rows|
  {
    seq(|rows|, i requires 0 <= i < |rows| => rows[i].condition)
  }

  function Protections(rows: seq<Row>): (protections: seq<nat>)
    ensures |protections| == |rows|
  {
    seq(|rows|, i requires 0 <= i < |rows| => rows[i].protection)
  }

  /** The rule that decides, for a list of rules read in order. */
  datatype Deciding = ByLocation(rule: string) | ByDefault(rule: string)

  function Decides(engine: Engine, rules: seq<Entry>, uri: string): Deciding {
    var locations := Locations(rules);
    var i := FirstMatch(engine, Patterns(locations), uri);
    if i < |locations| then ByLocation(locations[i].rule)
    else ByDefault(if LastDefault(rules).Some? then LastDefault(rules).value else "accept")
  }

  /** What a rule decides. */
  function VerdictOf(engine: Engine, d: Deciding): Decision {
    match ConditionSub(engine, d.rule)
    case None => Thrown
    case Some((c, _)) => if d.ByLocation? then LocationDecision(engine, c) else DefaultDecision(engine, c)
  }

  /** The protection that comes with the rule. */
  function Protection(engine: Engine, d: Deciding): Option<nat> {
    match ConditionSub(engine, d.rule)
    case None => None
    case Some((_, protection)) => Some(protection)
  }

  /** What the list of rules decides. */
  function Verdict(engine: Engine, rules: seq<Entry>, uri: string): Decision {
    VerdictOf(engine, Decides(engine, rules, uri))
  }

  // ---------------------------------------------------------------- lists of rules

  lemma {:induction false} LocationsConcat(a: seq<Entry>, b: seq<Entry>)
    ensures Locations(a + b) == Locations(a) + Locations(b)
  {
    if |a| == 0 {
      assert a + b == b;
    } else {
      assert (a + b)[1..] == a[1..] + b && (a + b)[0] == a[0];
      LocationsConcat(a[1..], b);
      Assoc(if Location(a[0]) then [a[0]] else [], Locations(a[1..]), Locations(b));
    }
  }

  lemma {:induction false} LastDefaultConcat(a: seq<Entry>, b: seq<Entry>)
    ensures LastDefault(a + b) == if LastDefault(b).Some? then LastDefault(b) else LastDefault(a)
    decreases |b|
  {
    if |b| == 0 {
      assert a + b == a;
    } else {
      assert (a + b)[..|a + b| - 1] == a + b[..|b| - 1];
      LastDefaultConcat(a, b[..|b| - 1]);
    }
  }

  lemma {:induction false} FirstMatchConcat(engine: Engine, a: seq<string>, b: seq<string>, uri: string)
    ensures FirstMatch(engine, a + b, uri) ==
            if FirstMatch(engine, a, uri) < |a| then FirstMatch(engine, a, uri) else |a| + FirstMatch(engine, b, uri)
  {
    if |a| == 0 {
      assert a + b == b;
    } else {
      assert (a + b)[1..] == a[1..] + b;
      FirstMatchConcat(engine, a[1..], b, uri);
    }
  }

  lemma {:induction false} DefaultCompiles(engine: Engine, rules: seq<Entry>)
    requires AllCompile(engine, rules) && LastDefault(rules).Some?
    ensures ConditionSub(engine, LastDefault(rules).value).Some?
  {
    var n := |rules| - 1;
    if Location(rules[n]) {
      DefaultCompiles(engine, rules[..n]);
    } else {
      assert Compiles(engine, rules[n]);
    }
  }

  // ---------------------------------------------------------------- loading

  /** The last declared default, compiled. */
  function DefaultAfter(engine: Engine, before: Option<(Condition, nat)>, rules: seq<Entry>): Option<(Condition, nat)> {
    if LastDefault(rules).Some? then ConditionSub(engine, LastDefault(rules).value) else before
  }

  /** The tables after a list of rules, complete or not. */
  function Extended(engine: Engine, t: Tables, rules: seq<Entry>): Tables {
    var rows, kept := Pushed(engine, rules), Locations(Read(engine, rules));
    Tables(t.conditions + Conditions(rows), t.protections + Protections(rows), t.patterns + Patterns(kept),
           t.count + |kept|, DefaultAfter(engine, t.default, Read(engine, rules)))
  }

  lemma ReadNext(engine: Engine, e: Entry, more: seq<Entry>)
    requires Compiles(engine, e)
    ensures Read(engine, [e] + more) == [e] + Read(engine, more)
    ensures Locations([e] + Read(engine, more)) ==
            (if Location(e) then [e] else []) + Locations(Read(engine, more))
  {
    assert ([e] + more)[1..] == more && ([e] + Read(engine, more))[1..] == Read(engine, more);
  }

  lemma PushedNext(engine: Engine, e: Entry, more: seq<Entry>)
    requires Compiles(engine, e)
    ensures var (c, p) := ConditionSub(engine, e.rule).value;
            Pushed(engine, [e] + more) ==
            (if Location(e) then [Row(e.url, e.rule, c, p)] else []) + Pushed(engine, more)
  {
    assert ([e] + more)[1..] == more;
  }

  /** A rule for a location that compiles, and what follows. */
  lemma ExtendedLocation(engine: Engine, t: Tables, e: Entry, more: seq<Entry>)
    requires Compiles(engine, e) && Location(e)
    ensures Extended(engine, AddRule(engine, t, e).0, more) == Extended(engine, t, [e] + more)
  {
    var (c, p) := ConditionSub(engine, e.rule).value;
    var kept := Locations(Read(engine, more));
    DefaultNext(engine, t, e, Read(engine, more));
    ReadNext(engine, e, more);
    PushedNext(engine, e, more);
    RowsFirst(t, Row(e.url, e.rule, c, p), Pushed(engine, more));
    PatternsFirst(e, kept);
    assert (t.patterns + [e.url]) + Patterns(kept) == t.patterns + ([e.url] + Patterns(kept));
  }

  lemma PatternsFirst(e: Entry, locations: seq<Entry>)
    ensures Patterns([e] + locations) == [e.url] + Patterns(locations)
  {
  }

  /** A default that compiles, and what follows. */
  lemma ExtendedDefault(engine: Engine, t: Tables, e: Entry, more: seq<Entry>)
    requires Compiles(engine, e) && !Location(e)
    ensures Extended(engine, AddRule(engine, t, e).0, more) == Extended(engine, t, [e] + more)
  {
    var rows, kept := Pushed(engine, more), Locations(Read(engine, more));
    DefaultNext(engine, t, e, Read(engine, more));
    ReadNext(engine, e, more);
    PushedNext(engine, e, more);
    assert [] + kept == kept && [] + rows == rows;
  }

  /** One rule that compiles, and what follows. */
  lemma ExtendedNext(engine: Engine, t: Tables, e: Entry, more: seq<Entry>)
    requires Compiles(engine, e)
    ensures Extended(engine, AddRule(engine, t, e).0, more) == Extended(engine, t, [e] + more)
  {
    if Location(e) {
      ExtendedLocation(engine, t, e, more);
    } else {
      ExtendedDefault(engine, t, e, more);
    }
  }

  lemma RowsFirst(t: Tables, row: Row, rows: seq<Row>)
    ensures (t.conditions + [row.condition]) + Conditions(rows) == t.conditions + Conditions([row] + rows)
    ensures (t.protections + [row.protection]) + Protections(rows) == t.protections + Protections([row] + rows)
  {
  }

  /** One rule that does not compile. */
  lemma ExtendedStop(engine: Engine, t: Tables, e: Entry, more: seq<Entry>)
    requires !Compiles(engine, e)
    ensures Extended(engine, t, [e] + more) == AddRule(engine, t, e).0 && !AddRule(engine, t, e).1
  {
    assert Read(engine, [e] + more) == [] && t.patterns + [] == t.patterns;
    if ConditionSub(engine, e.rule).Some? {
      var (c, p) := ConditionSub(engine, e.rule).value;
      assert Pushed(engine, [e] + more) == [Row(e.url, e.rule, c, p)];
    } else {
      assert t.conditions + [] == t.conditions && t.protections + [] == t.protections;
    }
  }

  lemma {:induction false} AddRulesExact(engine: Engine, t: Tables, rules: seq<Entry>)
    ensures AddRules(engine, t, rules) == (Extended(engine, t, rules), AllCompile(engine, rules))
    decreases |rules|
  {
    if |rules| == 0 {
      assert t.conditions + [] == t.conditions && t.protections + [] == t.protections && t.patterns + [] == t.patterns;
    } else {
      assert rules == [rules[0]] + rules[1..];
      if Compiles(engine, rules[0]) {
        AddRulesExact(engine, AddRule(engine, t, rules[0]).0, rules[1..]);
        ExtendedNext(engine, t, rules[0], rules[1..]);
      } else {
        ExtendedStop(engine, t, rules[0], rules[1..]);
      }
    }
  }

  lemma DefaultNext(engine: Engine, t: Tables, e: Entry, rest: seq<Entry>)
    requires Compiles(engine, e)
    ensures DefaultAfter(engine, AddRule(engine, t, e).0.default, rest) == DefaultAfter(engine, t.default, [e] + rest)
  {
    LastDefaultConcat([e], rest);
    assert LastDefault([e]) == if Location(e) then None else Some(e.rule);
  }

  /** One reload after the other. */
  function LoadAll(engine: Engine, history: seq<seq<Entry>>): Tables {
    if |history| == 0 then NO_TABLES
    else LoadVhost(engine, LoadAll(engine, history[..|history| - 1]), history[|history| - 1]).0
  }

  /** The rules read in all reloads, one list after the other. */
  function Merge(engine: Engine, history: seq<seq<Entry>>): seq<Entry> {
    if |history| == 0 then []
    else Merge(engine, history[..|history| - 1]) + Read(engine, history[|history| - 1])
  }

  /** The rows pushed in all reloads. */
  function Rows(engine: Engine, history: seq<seq<Entry>>): (rows: seq<Row>)
    ensures forall i :: 0 <= i < |rows| ==>
              ConditionSub(engine, rows[i].rule) == Some((rows[i].condition, rows[i].protection))
  {
    if |history| == 0 then []
    else Rows(engine, history[..|history| - 1]) + Pushed(engine, history[|history| - 1])
  }

  /** Some reload came to its end. */
  predicate SomeComplete(engine: Engine, history: seq<seq<Entry>>) {
    exists i :: 0 <= i < |history| && AllCompile(engine, history[i])
  }

  /** The last declared default; access, once a reload was complete without one. */
  function DefaultOf(engine: Engine, history: seq<seq<Entry>>): Option<(Condition, nat)> {
    DefaultAfter(engine, if SomeComplete(engine, history) then Some((Ok, 0)) else None, Merge(engine, history))
  }

  lemma {:induction false} MergeCompiles(engine: Engine, history: seq<seq<Entry>>)
    ensures AllCompile(engine, Merge(engine, history))
  {
    if |history| > 0 {
      MergeCompiles(engine, history[..|history| - 1]);
    }
  }

  /** The tables hold what was read in all reloads, in order; the count is that of the last reload only. */
  predicate Holds(engine: Engine, t: Tables, history: seq<seq<Entry>>) {
    && t.conditions == Conditions(Rows(engine, history))
    && t.protections == Protections(Rows(engine, history))
    && t.patterns == Patterns(Locations(Merge(engine, history)))
    && t.default == DefaultOf(engine, history)
    && t.count == (if |history| == 0 then 0 else |Locations(Read(engine, history[|history| - 1]))|)
  }

  lemma RowsConcat(a: seq<Row>, b: seq<Row>)
    ensures Conditions(a) + Conditions(b) == Conditions(a + b) && Protections(a) + Protections(b) == Protections(a + b)
  {
  }

  lemma PatternsConcat(a: seq<Entry>, b: seq<Entry>)
    ensures Patterns(a + b) == Patterns(a) + Patterns(b)
  {
  }

  lemma LoadExact(engine: Engine, t: Tables, rules: seq<Entry>)
    ensures LoadVhost(engine, t, rules) ==
            (if AllCompile(engine, rules) then WithDefault(Extended(engine, t.(count := 0), rules))
             else Extended(engine, t.(count := 0), rules),
             AllCompile(engine, rules))
  {
    AddRulesExact(engine, t.(count := 0), rules);
  }

  /** The default after one more reload. */
  lemma DefaultLoaded(engine: Engine, before: seq<seq<Entry>>, rules: seq<Entry>)
    ensures var d := DefaultAfter(engine, DefaultOf(engine, before), Read(engine, rules));
            DefaultOf(engine, before + [rules]) == if d.None? && AllCompile(engine, rules) then Some((Ok, 0)) else d
  {
    var history := before + [rules];
    MergeOne(engine, before, rules);
    MergeCompiles(engine, history);
    LastDefaultConcat(Merge(engine, before), Read(engine, rules));
    if LastDefault(Merge(engine, history)).Some? {
      DefaultCompiles(engine, Merge(engine, history));
    }
    CompleteOne(engine, before, rules);
  }

  lemma CompleteOne(engine: Engine, history: seq<seq<Entry>>, rules: seq<Entry>)
    ensures SomeComplete(engine, history + [rules]) <==> SomeComplete(engine, history) || AllCompile(engine, rules)
  {
    assert (history + [rules])[|history|] == rules;
    assert forall i :: 0 <= i < |history| ==> (history + [rules])[i] == history[i];
  }

  lemma MergeOne(engine: Engine, history: seq<seq<Entry>>, rules: seq<Entry>)
    ensures Merge(engine, history + [rules]) == Merge(engine, history) + Read(engine, rules)
    ensures Rows(engine, history + [rules]) == Rows(engine, history) + Pushed(engine, rules)
  {
    assert (history + [rules])[..|history|] == history;
  }

  lemma HoldsNext(engine: Engine, t: Tables, before: seq<seq<Entry>>, rules: seq<Entry>)
    requires Holds(engine, t, before)
    ensures Holds(engine, LoadVhost(engine, t, rules).0, before + [rules])
  {
    LoadExact(engine, t, rules);
    MergeOne(engine, before, rules);
    RowsConcat(Rows(engine, before), Pushed(engine, rules));
    LocationsConcat(Merge(engine, before), Read(engine, rules));
    PatternsConcat(Locations(Merge(engine, before)), Locations(Read(engine, rules)));
    DefaultLoaded(engine, before, rules);
  }

  /** After any reloads, complete or not. */
  lemma {:induction false} Reloaded(engine: Engine, history: seq<seq<Entry>>)
    ensures Holds(engine, LoadAll(engine, history), history)
  {
    if |history| > 0 {
      var before, rules := history[..|history| - 1], history[|history| - 1];
      assert history == before + [rules];
      Reloaded(engine, before);
      HoldsNext(engine, LoadAll(engine, before), before, rules);
    }
  }

  // ---------------------------------------------------------------- alignment of the tables

  /** Reading the rules stops at a pattern that does not compile. */
  predicate StopsAtPattern(engine: Engine, rules: seq<Entry>) {
    var n := |Read(engine, rules)|;
    n < |rules| && ConditionSub(engine, rules[n].rule).Some?
  }

  /** The rows are those of the locations read, and one too many exactly when the reading stops at a pattern. */
  lemma {:induction false} RowsOfRead(engine: Engine, rules: seq<Entry>)
    ensures var rows, kept := Pushed(engine, rules), Locations(Read(engine, rules));
            && |rows| == |kept| + (if StopsAtPattern(engine, rules) then 1 else 0)
            && forall i :: 0 <= i < |kept| ==> rows[i].url == kept[i].url && rows[i].rule == kept[i].rule
  {
    if |rules| > 0 && Compiles(engine, rules[0]) {
      RowsOfRead(engine, rules[1..]);
      assert Read(engine, rules)[1..] == Read(engine, rules[1..]);
      assert StopsAtPattern(engine, rules) == StopsAtPattern(engine, rules[1..]);
    }
  }

  function Stops(engine: Engine, history: seq<seq<Entry>>): nat {
    if |history| == 0 then 0
    else Stops(engine, history[..|history| - 1]) + (if StopsAtPattern(engine, history[|history| - 1]) then 1 else 0)
  }

  lemma {:induction false} RowsCounted(engine: Engine, history: seq<seq<Entry>>)
    ensures |Rows(engine, history)| == |Locations(Merge(engine, history))| + Stops(engine, history)
  {
    if |history| > 0 {
      RowsCounted(engine, history[..|history| - 1]);
      RowsOfRead(engine, history[|history| - 1]);
      LocationsConcat(Merge(engine, history[..|history| - 1]), Read(engine, history[|history| - 1]));
    }
  }

  predicate Aligned(t: Tables) {
    |t.conditions| == |t.protections| == |t.patterns|
  }

  predicate NeverStops(engine: Engine, history: seq<seq<Entry>>) {
    forall i :: 0 <= i < |history| ==> !StopsAtPattern(engine, history[i])
  }

  lemma {:induction false} NoStops(engine: Engine, history: seq<seq<Entry>>)
    ensures Stops(engine, history) == 0 <==> NeverStops(engine, history)
  {
    if |history| > 0 {
      NoStops(engine, history[..|history| - 1]);
    }
  }

  /** The tables are aligned exactly when no reload ever stopped at a pattern, complete or not in other ways. */
  lemma AlignedExactly(engine: Engine, history: seq<seq<Entry>>)
    ensures Aligned(LoadAll(engine, history)) <==> NeverStops(engine, history)
  {
    Reloaded(engine, history);
    RowsCounted(engine, history);
    NoStops(engine, history);
  }

  /** Without such a stop the rows are the locations read. */
  lemma {:induction false} RowsAreLocations(engine: Engine, history: seq<seq<Entry>>)
    requires NeverStops(engine, history)
    ensures var rows, kept := Rows(engine, history), Locations(Merge(engine, history));
            |rows| == |kept| && forall i :: 0 <= i < |kept| ==> rows[i].rule == kept[i].rule
  {
    if |history| > 0 {
      RowsAreLocations(engine, history[..|history| - 1]);
      RowsOfRead(engine, history[|history| - 1]);
      LocationsConcat(Merge(engine, history[..|history| - 1]), Read(engine, history[|history| - 1]));
    }
  }

  // ---------------------------------------------------------------- decisions

  /** The rule that decides after the reloads: the row in the place of the first pattern that matches. */
  function DecidesAfter(engine: Engine, history: seq<seq<Entry>>, uri: string): Deciding {
    var kept, rows := Locations(Merge(engine, history)), Rows(engine, history);
    var i := FirstMatch(engine, Patterns(kept), uri);
    if i < |kept| && i < |rows| then ByLocation(rows[i].rule)
    else
      var default := LastDefault(Merge(engine, history));
      ByDefault(if default.Some? then default.value else "accept")
  }

  /** A reload was complete or declared a default; before that there is no configuration. */
  predicate Configured(engine: Engine, history: seq<seq<Entry>>) {
    SomeComplete(engine, history) || LastDefault(Merge(engine, history)).Some?
  }

  lemma ConfiguredExactly(engine: Engine, history: seq<seq<Entry>>)
    ensures DefaultOf(engine, history).Some? <==> Configured(engine, history)
  {
    MergeCompiles(engine, history);
    if LastDefault(Merge(engine, history)).Some? {
      DefaultCompiles(engine, Merge(engine, history));
    }
  }

  /** After any reloads, complete or not, `grant` and `isUnprotected` go by the same rule. */
  lemma DecidedExactly(engine: Engine, history: seq<seq<Entry>>, uri: string)
    ensures var t := LoadAll(engine, history);
            var d := DecidesAfter(engine, history, uri);
            && Grant(engine, t, uri) == (if Configured(engine, history) then VerdictOf(engine, d) else NoConfiguration)
            && IsUnprotected(engine, t, uri) == (if Configured(engine, history) then Protection(engine, d) else None)
  {
    Reloaded(engine, history);
    RowsCounted(engine, history);
    ConfiguredExactly(engine, history);
    RuleFound(engine, LoadAll(engine, history), history, uri);
  }

  lemma RuleFound(engine: Engine, t: Tables, history: seq<seq<Entry>>, uri: string)
    requires Holds(engine, t, history) && |Rows(engine, history)| >= |Locations(Merge(engine, history))|
    ensures var d := DecidesAfter(engine, history, uri);
            t.default.Some? ==>
              Grant(engine, t, uri) == VerdictOf(engine, d) && IsUnprotected(engine, t, uri) == Protection(engine, d)
  {
    MergeCompiles(engine, history);
    if LastDefault(Merge(engine, history)).Some? {
      DefaultCompiles(engine, Merge(engine, history));
    }
  }

  /** Without a stop at a pattern the decision is that of all the rules read, in order. */
  lemma FirstRuleDecides(engine: Engine, history: seq<seq<Entry>>, uri: string)
    requires NeverStops(engine, history)
    ensures var t := LoadAll(engine, history);
            var d := Decides(engine, Merge(engine, history), uri);
            && Grant(engine, t, uri) == (if Configured(engine, history) then VerdictOf(engine, d) else NoConfiguration)
            && IsUnprotected(engine, t, uri) == (if Configured(engine, history) then Protection(engine, d) else None)
  {
    DecidedExactly(engine, history, uri);
    RowsAreLocations(engine, history);
  }

  /** Reloads in which every rule compiles are read completely. */
  lemma {:induction false} AllRead(engine: Engine, rules: seq<Entry>)
    ensures AllCompile(engine, rules) <==> Read(engine, rules) == rules
  {
    if |rules| > 0 && Compiles(engine, rules[0]) {
      AllRead(engine, rules[1..]);
      assert rules == [rules[0]] + rules[1..];
      assert AllCompile(engine, rules) <==> AllCompile(engine, rules[1..]);
    }
  }

  /** A list of rules that was the last one read changes nothing when it is read again. */
  lemma AgainDecides(engine: Engine, history: seq<seq<Entry>>, rules: seq<Entry>, uri: string)
    ensures DecidesAfter(engine, history + [rules] + [rules], uri) == DecidesAfter(engine, history + [rules], uri)
  {
    var once := history + [rules];
    var a, b := Merge(engine, history), Read(engine, rules);
    MergeOne(engine, history, rules);
    MergeOne(engine, once, rules);
    LocationsConcat(a, b);
    LocationsConcat(a + b, b);
    LastDefaultConcat(a, b);
    LastDefaultConcat(a + b, b);
    PatternsConcat(Locations(a), Locations(b));
    PatternsConcat(Locations(a + b), Locations(b));
    FirstMatchConcat(engine, Patterns(Locations(a)), Patterns(Locations(b)), uri);
    FirstMatchConcat(engine, Patterns(Locations(a + b)), Patterns(Locations(b)), uri);
    RowsCounted(engine, once);
    RowsCounted(engine, once + [rules]);
  }

  lemma ConfiguredOne(engine: Engine, history: seq<seq<Entry>>, rules: seq<Entry>)
    ensures Configured(engine, history + [rules]) <==>
            Configured(engine, history) || AllCompile(engine, rules) || LastDefault(Read(engine, rules)).Some?
  {
    MergeOne(engine, history, rules);
    LastDefaultConcat(Merge(engine, history), Read(engine, rules));
    CompleteOne(engine, history, rules);
  }

  /**
   * Reloading the same configuration changes no decision and no protection, whatever went before and whatever
   * compiles.
   */
  lemma SameConfigurationAgain(engine: Engine, history: seq<seq<Entry>>, rules: seq<Entry>, uri: string)
    ensures var once, twice := LoadAll(engine, history + [rules]), LoadAll(engine, history + [rules] + [rules]);
            && Grant(engine, twice, uri) == Grant(engine, once, uri)
            && IsUnprotected(engine, twice, uri) == IsUnprotected(engine, once, uri)
  {
    DecidedExactly(engine, history + [rules], uri);
    DecidedExactly(engine, history + [rules] + [rules], uri);
    AgainDecides(engine, history, rules, uri);
    ConfiguredOne(engine, history, rules);
    ConfiguredOne(engine, history + [rules], rules);
  }

  lemma {:induction false} MergeConcat(engine: Engine, a: seq<seq<Entry>>, b: seq<seq<Entry>>)
    ensures Merge(engine, a + b) == Merge(engine, a) + Merge(engine, b)
    ensures Rows(engine, a + b) == Rows(engine, a) + Rows(engine, b)
    decreases |b|
  {
    if |b| == 0 {
      assert a + b == a;
    } else {
      var front, last := b[..|b| - 1], b[|b| - 1];
      assert b == front + [last];
      Assoc(a, front, [last]);
      MergeConcat(engine, a, front);
      MergeOne(engine, a + front, last);
      MergeOne(engine, front, last);
      Assoc(Merge(engine, a), Merge(engine, front), Read(engine, last));
      Assoc(Rows(engine, a), Rows(engine, front), Pushed(engine, last));
    }
  }

  lemma Assoc<T>(a: seq<T>, b: seq<T>, c: seq<T>)
    ensures (a + b) + c == a + (b + c)
  {
  }

  /** A location rule of an earlier reload hides every later rule for what it matches. */
  lemma EarlierRuleWins(engine: Engine, history: seq<seq<Entry>>, later: seq<seq<Entry>>, uri: string)
    requires Configured(engine, history) && DecidesAfter(engine, history, uri).ByLocation?
    ensures Grant(engine, LoadAll(engine, history + later), uri) == Grant(engine, LoadAll(engine, history), uri)
    ensures IsUnprotected(engine, LoadAll(engine, history + later), uri) ==
            IsUnprotected(engine, LoadAll(engine, history), uri)
  {
    DecidedExactly(engine, history, uri);
    DecidedExactly(engine, history + later, uri);
    MergeConcat(engine, history, later);
    LocationsConcat(Merge(engine, history), Merge(engine, later));
    PatternsConcat(Locations(Merge(engine, history)), Locations(Merge(engine, later)));
    FirstMatchConcat(engine, Patterns(Locations(Merge(engine, history))), Patterns(Locations(Merge(engine, later))),
                     uri);
    StaysConfigured(engine, history, later);
  }

  lemma StaysConfigured(engine: Engine, history: seq<seq<Entry>>, later: seq<seq<Entry>>)
    requires Configured(engine, history)
    ensures Configured(engine, history + later)
  {
    MergeConcat(engine, history, later);
    LastDefaultConcat(Merge(engine, history), Merge(engine, later));
    if SomeComplete(engine, history) {
      var i :| 0 <= i < |history| && AllCompile(engine, history[i]);
      assert (history + later)[i] == history[i];
    }
  }

  /** After such a stop a location is decided by the rule of another one. */
  lemma OtherRuleDecides(engine: Engine, uri: string)
    requires !engine.pattern("(") && engine.pattern("^/a") && engine.matches("^/a", uri)
    ensures var history := [[Entry("(", "accept")], [Entry("^/a", "deny")]];
            && Grant(engine, LoadAll(engine, history), uri) == Resolved(true)
            && Verdict(engine, Merge(engine, history), uri) == Resolved(false)
  {
    var bad, good := Entry("(", "accept"), Entry("^/a", "deny");
    OneOfTwo(engine);
    TwoRules(engine, bad, good);
    FirstOfTwo(engine, bad, good, uri);
  }

  lemma OneOfTwo(engine: Engine)
    ensures ConditionSub(engine, "accept") == Some((Ok, 0)) && ConditionSub(engine, "deny") == Some((Nok, 0))
    ensures Location(Entry("(", "accept")) && Location(Entry("^/a", "deny"))
  {
    assert |"deny"| != |"accept"| && |"("| != |"default"| && |"^/a"| != |"default"|;
  }

  lemma TwoRules(engine: Engine, bad: Entry, good: Entry)
    requires Location(bad) && ConditionSub(engine, bad.rule).Some? && !Compiles(engine, bad)
    requires Location(good) && Compiles(engine, good)
    ensures Merge(engine, [[bad], [good]]) == [good]
    ensures var rows := Rows(engine, [[bad], [good]]); |rows| == 2 && rows[0].rule == bad.rule
    ensures Configured(engine, [[bad], [good]])
  {
    OneRule(engine, bad);
    OneRule(engine, good);
    MergeOne(engine, [], [bad]);
    MergeOne(engine, [[bad]], [good]);
    assert [] + [[bad]] == [[bad]] && [[bad]] + [[good]] == [[bad], [good]];
    ConfiguredOne(engine, [[bad]], [good]);
  }

  lemma FirstOfTwo(engine: Engine, bad: Entry, good: Entry, uri: string)
    requires Merge(engine, [[bad], [good]]) == [good] && Location(good) && engine.matches(good.url, uri)
    requires |Rows(engine, [[bad], [good]])| == 2 && Rows(engine, [[bad], [good]])[0].rule == bad.rule
    requires Configured(engine, [[bad], [good]])
    ensures Grant(engine, LoadAll(engine, [[bad], [good]]), uri) == VerdictOf(engine, ByLocation(bad.rule))
    ensures Verdict(engine, [good], uri) == VerdictOf(engine, ByLocation(good.rule))
  {
    assert [good][1..] == [] && Locations([good]) == [good] && Patterns([good]) == [good.url];
    DecidedExactly(engine, [[bad], [good]], uri);
  }

  lemma OneRule(engine: Engine, e: Entry)
    requires Location(e) && ConditionSub(engine, e.rule).Some?
    ensures Read(engine, [e]) == if Compiles(engine, e) then [e] else []
    ensures Pushed(engine, [e]) ==
            [Row(e.url, e.rule, ConditionSub(engine, e.rule).value.0, ConditionSub(engine, e.rule).value.1)]
  {
    assert [e][1..] == [];
  }

  // ---------------------------------------------------------------- what the rules mean

  /** The four words, logout rules, and expressions with the value the sandbox gives them; a default refuses otherwise
      than a location. */
  lemma RuleMeaning(engine: Engine, rule: string)
    ensures var compiles := rule in {"accept", "deny", "unprotect", "skip"} || engine.logoutUrl(rule) != "" ||
                            engine.expression(rule);
            && Protection(engine, ByLocation(rule)) == Protection(engine, ByDefault(rule))
            && Protection(engine, ByDefault(rule)) == (if !compiles then None
                                                       else if rule == "unprotect" then Some(1)
                                                       else if rule == "skip" then Some(2) else Some(0))
            && (!compiles ==>
                  VerdictOf(engine, ByLocation(rule)) == Thrown && VerdictOf(engine, ByDefault(rule)) == Thrown)
    ensures rule in {"accept", "unprotect", "skip"} ==>
              VerdictOf(engine, ByLocation(rule)) == VerdictOf(engine, ByDefault(rule)) == Resolved(true)
    ensures rule == "deny" || (rule !in {"accept", "unprotect", "skip"} && engine.logoutUrl(rule) != "") ==>
              && VerdictOf(engine, ByLocation(rule)) == Resolved(false)
              && VerdictOf(engine, ByDefault(rule)) == Unauthorized
    ensures rule !in {"accept", "deny", "unprotect", "skip"} && engine.logoutUrl(rule) == "" && engine.expression(rule)
            ==> match engine.eval(rule)
                case None => VerdictOf(engine, ByLocation(rule)) == VerdictOf(engine, ByDefault(rule)) == Thrown
                case Some(granted) =>
                  && VerdictOf(engine, ByLocation(rule)) == Resolved(granted)
                  && VerdictOf(engine, ByDefault(rule)) == if granted then Resolved(true) else Unauthorized
  {
    WordsApart();
  }

  lemma WordsApart()
    ensures "accept" != "deny" && "accept" != "unprotect" && "accept" != "skip"
    ensures "deny" != "unprotect" && "deny" != "skip" && "unprotect" != "skip"
  {
    assert "deny"[0] == 'd' && "skip"[0] == 's' && "unprotect"[0] == 'u' && "accept"[0] == 'a';
  }

  /** A list of rules is read to its end when each is understood and each location but "default" is a pattern. */
  lemma ReadToItsEnd(engine: Engine, rules: seq<Entry>)
    ensures AllCompile(engine, rules) <==>
            forall i :: 0 <= i < |rules| ==>
              && (rules[i].rule in {"accept", "deny", "unprotect", "skip"} || engine.logoutUrl(rules[i].rule) != "" ||
                  engine.expression(rules[i].rule))
              && (rules[i].url == "default" || engine.pattern(rules[i].url))
  {
  }

  /** The first location of a list of rules, when it matches and when it does not. */
  lemma FirstRule(engine: Engine, e: Entry, rest: seq<Entry>, uri: string)
    ensures var rules, m := [e] + rest, FirstMatch(engine, Patterns(Locations(rest)), uri);
            var locations, n := Locations(rules), FirstMatch(engine, Patterns(Locations(rules)), uri);
            if e.url == "default" then locations == Locations(rest) && n == m
            else locations == [e] + Locations(rest) && n == if engine.matches(e.url, uri) then 0 else 1 + m
  {
    assert ([e] + rest)[1..] == rest;
    if e.url == "default" {
      assert [] + Locations(rest) == Locations(rest);
    } else {
      PatternsFirst(e, Locations(rest));
      assert ([e.url] + Patterns(Locations(rest)))[1..] == Patterns(Locations(rest));
    }
  }

  /** The first location that matches, in a list of rules. */
  lemma {:induction false} FirstLocation(engine: Engine, rules: seq<Entry>, uri: string, k: nat)
    requires k < |rules| && rules[k].url != "default" && engine.matches(rules[k].url, uri)
    requires forall j :: 0 <= j < k ==> rules[j].url == "default" || !engine.matches(rules[j].url, uri)
    ensures var locations := Locations(rules);
            var i := FirstMatch(engine, Patterns(locations), uri);
            i < |locations| && locations[i] == rules[k]
    decreases k
  {
    assert rules == [rules[0]] + rules[1..];
    FirstRule(engine, rules[0], rules[1..], uri);
    if k > 0 {
      FirstLocation(engine, rules[1..], uri, k - 1);
    }
  }

  lemma {:induction false} NoLocation(engine: Engine, rules: seq<Entry>, uri: string)
    requires forall j :: 0 <= j < |rules| ==> rules[j].url == "default" || !engine.matches(rules[j].url, uri)
    ensures FirstMatch(engine, Patterns(Locations(rules)), uri) == |Locations(rules)|
  {
    if |rules| > 0 {
      assert rules == [rules[0]] + rules[1..];
      FirstRule(engine, rules[0], rules[1..], uri);
      NoLocation(engine, rules[1..], uri);
    }
  }

  /**
   * After one reload that was read to its end, the first location that matches decides, with its protection, whatever
   * "default" entries stand before it.
   */
  lemma LocationDecides(engine: Engine, rules: seq<Entry>, uri: string, k: nat)
    requires AllCompile(engine, rules) && k < |rules|
    requires rules[k].url != "default" && engine.matches(rules[k].url, uri)
    requires forall j :: 0 <= j < k ==> rules[j].url == "default" || !engine.matches(rules[j].url, uri)
    ensures Grant(engine, LoadAll(engine, [rules]), uri) == VerdictOf(engine, ByLocation(rules[k].rule))
    ensures IsUnprotected(engine, LoadAll(engine, [rules]), uri) == Protection(engine, ByLocation(rules[k].rule))
  {
    OneReload(engine, rules, uri);
    FirstLocation(engine, rules, uri, k);
  }

  lemma OneReload(engine: Engine, rules: seq<Entry>, uri: string)
    requires AllCompile(engine, rules)
    ensures var t, d := LoadAll(engine, [rules]), Decides(engine, rules, uri);
            Grant(engine, t, uri) == VerdictOf(engine, d) && IsUnprotected(engine, t, uri) == Protection(engine, d)
  {
    AllRead(engine, rules);
    assert [] + [rules] == [rules] && [] + rules == rules;
    MergeOne(engine, [], rules);
    ConfiguredOne(engine, [], rules);
    assert StopsAtPattern(engine, rules) == false;
    FirstRuleDecides(engine, [rules], uri);
  }

  lemma {:induction false} LastDefaultAt(rules: seq<Entry>)
    ensures LastDefault(rules).None? <==> forall i :: 0 <= i < |rules| ==> rules[i].url != "default"
    ensures forall i :: 0 <= i < |rules| && rules[i].url == "default"
                        && (forall j :: i < j < |rules| ==> rules[j].url != "default") ==>
                          LastDefault(rules) == Some(rules[i].rule)
  {
    if |rules| > 0 {
      LastDefaultAt(rules[..|rules| - 1]);
    }
  }

  /** When no location matches, the last "default" entry decides; without one, everybody is let in. */
  lemma DefaultDecides(engine: Engine, rules: seq<Entry>, uri: string)
    requires AllCompile(engine, rules)
    requires forall j :: 0 <= j < |rules| ==> rules[j].url == "default" || !engine.matches(rules[j].url, uri)
    ensures var t := LoadAll(engine, [rules]);
            && (forall i :: 0 <= i < |rules| && rules[i].url == "default"
                            && (forall j :: i < j < |rules| ==> rules[j].url != "default") ==>
                              && Grant(engine, t, uri) == VerdictOf(engine, ByDefault(rules[i].rule))
                              && IsUnprotected(engine, t, uri) == Protection(engine, ByDefault(rules[i].rule)))
            && ((forall i :: 0 <= i < |rules| ==> rules[i].url != "default") ==>
                  Grant(engine, t, uri) == Resolved(true) && IsUnprotected(engine, t, uri) == Some(0))
  {
    OneReload(engine, rules, uri);
    NoLocation(engine, rules, uri);
    LastDefaultAt(rules);
    RuleMeaning(engine, "accept");
  }
}
