/**
 * The handler's tables as the source keeps them: six records indexed by virtual host, appended to by `reload`
 * (packages/handler/src/init.ts) and scanned by `isUnprotected` and `grant` (packages/handler/src/handlerMain.ts).
 */
module RuleHandler {
  import opened Wrappers
  import opened RuleSpec

  /** The rules of one virtual host in a configuration. */
  datatype HostRules = HostRules(vhost: string, rules: seq<Entry>)

  function Lookup(tables: map<string, Tables>, vhost: string): Tables {
    if vhost in tables then tables[vhost] else NO_TABLES
  }

  /** A reload goes through the virtual hosts in order and stops at the first rule that throws. */
  function Load(engine: Engine, listed: seq<string>, tables: map<string, Tables>, conf: seq<HostRules>)
    : (map<string, Tables>, bool)
    decreases |conf|
  {
    if |conf| == 0 then (tables, true)
    else if conf[0].vhost !in listed then Load(engine, listed, tables, conf[1..])
    else
      var (t, ok) := LoadVhost(engine, Lookup(tables, conf[0].vhost), conf[0].rules);
      var after := tables[conf[0].vhost := t];
      if ok then Load(engine, listed, after, conf[1..]) else (after, false)
  }

  // ---------------------------------------------------------------- what one virtual host sees of the reloads

  /**
   * The lists of rules for one virtual host, up to the first host of the configuration whose rules do not all
   * compile.
   */
  function RulesOf(engine: Engine, listed: seq<string>, conf: seq<HostRules>, vhost: string): seq<seq<Entry>> {
    if |conf| == 0 then []
    else if conf[0].vhost !in listed then RulesOf(engine, listed, conf[1..], vhost)
    else
      (if conf[0].vhost == vhost then [conf[0].rules] else [])
      + (if AllCompile(engine, conf[0].rules) then RulesOf(engine, listed, conf[1..], vhost) else [])
  }

  lemma LoadOne(engine: Engine, history: seq<seq<Entry>>, rules: seq<Entry>)
    ensures LoadAll(engine, history + [rules]) == LoadVhost(engine, LoadAll(engine, history), rules).0
  {
    assert (history + [rules])[..|history|] == history;
  }

  /** What the host sees of the first host of the configuration. */
  lemma HostSeen(engine: Engine, tables: map<string, Tables>, h: HostRules, vhost: string, history: seq<seq<Entry>>)
    requires Lookup(tables, vhost) == LoadAll(engine, history)
    ensures var after := tables[h.vhost := LoadVhost(engine, Lookup(tables, h.vhost), h.rules).0];
            Lookup(after, vhost) == LoadAll(engine, history + (if h.vhost == vhost then [h.rules] else []))
  {
    LoadOne(engine, history, h.rules);
    assert history + [] == history;
  }

  lemma {:induction false} LoadSeen(engine: Engine, listed: seq<string>, tables: map<string, Tables>,
                                    conf: seq<HostRules>, vhost: string, history: seq<seq<Entry>>)
    requires Lookup(tables, vhost) == LoadAll(engine, history)
    ensures Lookup(Load(engine, listed, tables, conf).0, vhost) ==
            LoadAll(engine, history + RulesOf(engine, listed, conf, vhost))
    decreases |conf|
  {
    if |conf| == 0 {
      assert history + [] == history;
    } else if conf[0].vhost !in listed {
      LoadSeen(engine, listed, tables, conf[1..], vhost, history);
    } else {
      var h := conf[0];
      var own := if h.vhost == vhost then [h.rules] else [];
      var after := tables[h.vhost := LoadVhost(engine, Lookup(tables, h.vhost), h.rules).0];
      LoadExact(engine, Lookup(tables, h.vhost), h.rules);
      HostSeen(engine, tables, h, vhost, history);
      if AllCompile(engine, h.rules) {
        LoadSeen(engine, listed, after, conf[1..], vhost, history + own);
        Assoc(history, own, RulesOf(engine, listed, conf[1..], vhost));
      } else {
        assert own + [] == own;
      }
    }
  }

  function Reloads(engine: Engine, listed: seq<string>, confs: seq<seq<HostRules>>): map<string, Tables> {
    if |confs| == 0 then map[]
    else Load(engine, listed, Reloads(engine, listed, confs[..|confs| - 1]), confs[|confs| - 1]).0
  }

  function AllRulesOf(engine: Engine, listed: seq<string>, confs: seq<seq<HostRules>>, vhost: string): seq<seq<Entry>> {
    if |confs| == 0 then []
    else AllRulesOf(engine, listed, confs[..|confs| - 1], vhost) + RulesOf(engine, listed, confs[|confs| - 1], vhost)
  }

  /** The tables of a virtual host come from its own rules only, in the order of the reloads. */
  lemma {:induction false} ReloadsSeen(engine: Engine, listed: seq<string>, confs: seq<seq<HostRules>>, vhost: string)
    ensures Lookup(Reloads(engine, listed, confs), vhost) == LoadAll(engine, AllRulesOf(engine, listed, confs, vhost))
  {
    if |confs| > 0 {
      var before := confs[..|confs| - 1];
      ReloadsSeen(engine, listed, before, vhost);
      LoadSeen(engine, listed, Reloads(engine, listed, before), confs[|confs| - 1], vhost,
               AllRulesOf(engine, listed, before, vhost));
    }
  }

  /** A virtual host's decision is that of the rules that reached it in all reloads, complete or not. */
  lemma HostDecision(engine: Engine, listed: seq<string>, confs: seq<seq<HostRules>>, vhost: string, uri: string)
    ensures var history := AllRulesOf(engine, listed, confs, vhost);
            var t := Lookup(Reloads(engine, listed, confs), vhost);
            var d := DecidesAfter(engine, history, uri);
            && Grant(engine, t, uri) == (if Configured(engine, history) then VerdictOf(engine, d) else NoConfiguration)
            && IsUnprotected(engine, t, uri) == (if Configured(engine, history) then Protection(engine, d) else None)
            && (NeverStops(engine, history) ==> d == Decides(engine, Merge(engine, history), uri))
  {
    var history := AllRulesOf(engine, listed, confs, vhost);
    ReloadsSeen(engine, listed, confs, vhost);
    DecidedExactly(engine, history, uri);
    if NeverStops(engine, history) {
      RowsAreLocations(engine, history);
    }
  }

  // ---------------------------------------------------------------- the object

  /** `if (record[key] === undefined) record[key] = []` */
  function WithEmpty<T>(record: map<string, seq<T>>, key: string): (after: map<string, seq<T>>)
    ensures after.Keys == record.Keys + {key}
    ensures forall k :: k in record ==> after[k] == record[k]
    ensures key !in record ==> after[key] == []
  {
    if key in record then record else record[key := []]
  }

  class Handler {
    const vhostList: seq<string>
    var locationCount: map<string, nat>
    var locationRegexp: map<string, seq<string>>
    var locationProtection: map<string, seq<nat>>
    var locationCondition: map<string, seq<Condition>>
    var defaultCondition: map<string, Condition>
    var defaultProtection: map<string, nat>

    ghost predicate Valid()
      reads this
    {
      && (forall v: string :: v in defaultCondition ==> v in defaultProtection && v in locationRegexp)
      && (forall v: string :: v in locationCondition ==> v in locationRegexp)
      && (forall v: string :: v in locationProtection ==> v in locationRegexp)
      && (forall v: string :: v in locationCount ==> v in locationRegexp)
    }

    /** The tables of a virtual host exist. */
    predicate Prepared(vhost: string)
      reads this
    {
      vhost in locationCount && vhost in locationRegexp && vhost in locationProtection && vhost in locationCondition
    }

    function Of(vhost: string): Tables
      reads this
    {
      Tables(if vhost in locationCondition then locationCondition[vhost] else [],
             if vhost in locationProtection then locationProtection[vhost] else [],
             if vhost in locationRegexp then locationRegexp[vhost] else [],
             if vhost in locationCount then locationCount[vhost] else 0,
             if vhost in defaultCondition && vhost in defaultProtection
             then Some((defaultCondition[vhost], defaultProtection[vhost])) else None)
    }

    function State(): (tables: map<string, Tables>)
      reads this
      ensures tables.Keys == locationRegexp.Keys
    {
      map vhost | vhost in locationRegexp :: Of(vhost)
    }

    constructor (vhostList: seq<string>)
      ensures Valid() && State() == map[] && this.vhostList == vhostList
    {
      this.vhostList := vhostList;
      locationCount, locationRegexp, locationProtection, locationCondition := map[], map[], map[], map[];
      defaultCondition, defaultProtection := map[], map[];
    }

    /** The tables of the other virtual hosts are as they were. */
    twostate predicate OthersKept(vhost: string)
      reads this
    {
      && locationRegexp.Keys == old(locationRegexp.Keys) + {vhost}
      && forall v: string {:trigger Of(v)} {:trigger old(Of(v))} :: v != vhost ==> Of(v) == old(Of(v))
    }

    twostate lemma StateFrom(vhost: string)
      requires OthersKept(vhost)
      ensures State() == old(State())[vhost := Of(vhost)]
    {
      assert State().Keys == old(State())[vhost := Of(vhost)].Keys;
    }

    method SetDefault(vhost: string, cond: Condition, prot: nat)
      requires Valid() && Prepared(vhost)
      modifies this
      ensures Valid() && Prepared(vhost) && OthersKept(vhost) &&
              Of(vhost) == old(Of(vhost)).(default := Some((cond, prot)))
    {
      defaultCondition := defaultCondition[vhost := cond];
      defaultProtection := defaultProtection[vhost := prot];
    }

    method PushRule(vhost: string, cond: Condition, prot: nat)
      requires Valid() && Prepared(vhost)
      modifies this
      ensures Valid() && Prepared(vhost) && OthersKept(vhost)
      ensures Of(vhost) == old(Of(vhost)).(conditions := old(Of(vhost)).conditions + [cond],
                                           protections := old(Of(vhost)).protections + [prot])
    {
      locationCondition := locationCondition[vhost := locationCondition[vhost] + [cond]];
      locationProtection := locationProtection[vhost := locationProtection[vhost] + [prot]];
    }

    method PushPattern(vhost: string, url: string)
      requires Valid() && Prepared(vhost)
      modifies this
      ensures Valid() && Prepared(vhost) && OthersKept(vhost)
      ensures Of(vhost) == old(Of(vhost)).(patterns := old(Of(vhost)).patterns + [url],
                                           count := old(Of(vhost)).count + 1)
    {
      locationRegexp := locationRegexp[vhost := locationRegexp[vhost] + [url]];
      locationCount := locationCount[vhost := locationCount[vhost] + 1];
    }

    /** One rule of the inner loop of `reload`; false when it throws. */
    method LoadRule(engine: Engine, vhost: string, e: Entry) returns (ok: bool)
      requires Valid() && Prepared(vhost)
      modifies this
      ensures Valid() && Prepared(vhost) && OthersKept(vhost)
      ensures (Of(vhost), ok) == AddRule(engine, old(Of(vhost)), e)
    {
      var sub := ConditionSub(engine, e.rule);
      if sub.None? {
        return false;
      }
      var (cond, prot) := sub.value;
      if e.url == "default" {
        SetDefault(vhost, cond, prot);
      } else {
        PushRule(vhost, cond, prot);
        if !engine.pattern(e.url) {
          return false;
        }
        PushPattern(vhost, e.url);
      }
      return true;
    }

    /** The start of the outer loop's body: the count starts again, missing tables are created empty. */
    method Prepare(vhost: string)
      requires Valid()
      modifies this
      ensures Valid() && Prepared(vhost) && OthersKept(vhost)
      ensures Of(vhost) == old(Of(vhost)).(count := 0)
    {
      locationCount := locationCount[vhost := 0];
      locationRegexp := WithEmpty(locationRegexp, vhost);
      locationProtection := WithEmpty(locationProtection, vhost);
      locationCondition := WithEmpty(locationCondition, vhost);
    }

    method CompleteDefault(vhost: string)
      requires Valid() && Prepared(vhost)
      modifies this
      ensures Valid() && Prepared(vhost) && OthersKept(vhost) && Of(vhost) == WithDefault(old(Of(vhost)))
    {
      if vhost !in defaultCondition {
        defaultCondition := defaultCondition[vhost := Ok];
        defaultProtection := defaultProtection[vhost := 0];
      }
    }

    /** `reload` for one virtual host */
    method ReloadHost(engine: Engine, vhost: string, rules: seq<Entry>) returns (ok: bool)
      requires Valid()
      modifies this
      ensures Valid() && Prepared(vhost) && OthersKept(vhost)
      ensures (Of(vhost), ok) == LoadVhost(engine, old(Of(vhost)), rules)
    {
      Prepare(vhost);
      ghost var start := Of(vhost);
      for i := 0 to |rules|
        invariant Valid() && Prepared(vhost) && OthersKept(vhost)
        invariant AddRules(engine, start, rules) == AddRules(engine, Of(vhost), rules[i..])
      {
        assert rules[i..][1..] == rules[i + 1..];
        ok := LoadRule(engine, vhost, rules[i]);
        if !ok {
          return false;
        }
      }
      CompleteDefault(vhost);
      return true;
    }

    /** The location part of `reload`; false when it rejects */
    method Reload(engine: Engine, locationRules: seq<HostRules>) returns (ok: bool)
      requires Valid()
      modifies this
      ensures Valid()
      ensures (State(), ok) == Load(engine, vhostList, old(State()), locationRules)
    {
      for i := 0 to |locationRules|
        invariant Valid()
        invariant Load(engine, vhostList, old(State()), locationRules) ==
                  Load(engine, vhostList, State(), locationRules[i..])
      {
        assert locationRules[i..][1..] == locationRules[i + 1..];
        if locationRules[i].vhost in vhostList {
          label before:
          ok := ReloadHost(engine, locationRules[i].vhost, locationRules[i].rules);
          StateFrom@before(locationRules[i].vhost);
          if !ok {
            return false;
          }
        }
      }
      return true;
    }

    /** `isUnprotected` */
    method IsUnprotected(engine: Engine, vhost: string, uri: string) returns (protection: Option<nat>)
      requires Valid()
      ensures protection == RuleSpec.IsUnprotected(engine, Lookup(State(), vhost), uri)
    {
      if vhost !in defaultCondition {
        return None;
      }
      var patterns := locationRegexp[vhost];
      for i := 0 to |patterns|
        invariant FirstMatch(engine, patterns, uri) == i + FirstMatch(engine, patterns[i..], uri)
      {
        assert patterns[i..][1..] == patterns[i + 1..];
        if engine.matches(patterns[i], uri) {
          var protections := if vhost in locationProtection then locationProtection[vhost] else [];
          return if i < |protections| then Some(protections[i]) else None;
        }
      }
      return Some(defaultProtection[vhost]);
    }

    /** `grant` */
    method Grant(engine: Engine, vhost: string, uri: string) returns (decision: Decision)
      requires Valid()
      ensures decision == RuleSpec.Grant(engine, Lookup(State(), vhost), uri)
    {
      if vhost !in defaultCondition {
        return NoConfiguration;
      }
      var patterns := locationRegexp[vhost];
      for i := 0 to |patterns|
        invariant FirstMatch(engine, patterns, uri) == i + FirstMatch(engine, patterns[i..], uri)
      {
        assert patterns[i..][1..] == patterns[i + 1..];
        if engine.matches(patterns[i], uri) {
          var conditions := if vhost in locationCondition then locationCondition[vhost] else [];
          if i >= |conditions| {
            return InvalidCondition(i);
          }
          return LocationDecision(engine, conditions[i]);
        }
      }
      return DefaultDecision(engine, defaultCondition[vhost]);
    }
  }
}
