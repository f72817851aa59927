/**
 The agent catalog (app/services/agent_sync.py): a mirror of the voice engine's agents,
 which of them a client has enabled, and the events for enabled agents that vanish.
 */
module AgentSync {
  import opened Wrappers

  /** One element of the engine's answer; an id that is missing or falsy is "". */
  datatype Item = Junk | Listed(id: string, name: Option<string>, status: Option<string>)

  /** An answer that is not a list counts as an empty one. */
  datatype Answer = Items(items: seq<Item>) | NotAList

  datatype CatalogRow = CatalogRow(name: Option<string>, status: Option<string>, present: bool, syncedAt: int)

  datatype Config = Config(enabled: bool, displayName: Option<string>, overrides: Option<string>)

  type ConfigKey = (nat, string)  // client and agent

  type Catalog = map<string, CatalogRow>
  type Configs = map<ConfigKey, Config>

  datatype State = State(catalog: Catalog, configs: Configs, drift: multiset<ConfigKey>)

  function ItemsOf(a: Answer): seq<Item> {
    if a.Items? then a.items else []
  }

  predicate Counts(i: Item) { i.Listed? && i.id != "" }

  function Seen(items: seq<Item>): set<string> {
    set i | i in items && Counts(i) :: i.id
  }

  predicate IsPresent(c: Catalog, agent: string) { agent in c && c[agent].present }

  predicate IsEnabled(c: Configs, k: ConfigKey) { k in c && c[k].enabled }

  // ------------------------------------------------------------------ what a sync does

  function Upserted(c: Catalog, items: seq<Item>, now: int): Catalog {
    if items == [] then c
    else
      var before, i := Upserted(c, items[..|items| - 1], now), items[|items| - 1];
      if Counts(i) then before[i.id := CatalogRow(i.name, i.status, true, now)] else before
  }

  function MissingFrom(c: Catalog, seen: set<string>): set<string> {
    set a | a in c && c[a].present && a !in seen
  }

  function Marked(c: Catalog, seen: set<string>, now: int): Catalog {
    map a | a in c :: if c[a].present && a !in seen then c[a].(present := false, syncedAt := now) else c[a]
  }

  /** Whoever had one of these agents enabled. */
  function Affected(configs: Configs, missing: set<string>): set<ConfigKey> {
    set k | k in configs && k.1 in missing && configs[k].enabled
  }

  function Synced(s: State, answer: Answer, now: int): State {
    var items := ItemsOf(answer);
    var upserted := Upserted(s.catalog, items, now);
    State(Marked(upserted, Seen(items), now), s.configs,
          s.drift + multiset(Affected(s.configs, MissingFrom(upserted, Seen(items)))))
  }

  /** The set of a client's enabled agents is replaced; other settings stay. */
  function WithAgents(configs: Configs, client: nat, wanted: set<string>): Configs {
    map k | k in configs.Keys + (set a | a in wanted :: (client, a)) ::
      if k !in configs then Config(true, None, None)
      else if k.0 == client then configs[k].(enabled := k.1 in wanted)
      else configs[k]
  }

  function WithSettings(configs: Configs, k: ConfigKey, displayName: Option<string>,
                        overrides: Option<string>): Configs {
    var c := if k in configs then configs[k] else Config(false, None, None);
    configs[k := c.(displayName := if displayName.Some? then displayName else c.displayName,
                    overrides := if overrides.Some? then overrides else c.overrides)]
  }

  // -------------------------------------------------------------------- the mirror

  lemma {:induction false} UpsertedRows(c: Catalog, items: seq<Item>, now: int)
    ensures var u := Upserted(c, items, now);
            && u.Keys == c.Keys + Seen(items)
            && (forall a :: a in Seen(items) ==> u[a].present)
            && (forall a :: a in c && a !in Seen(items) ==> u[a] == c[a])
  {
    if items != [] {
      var init, i := items[..|items| - 1], items[|items| - 1];
      UpsertedRows(c, init, now);
      assert items == init + [i];
      assert Seen(items) == Seen(init) + if Counts(i) then {i.id} else {};
    }
  }

  /** The answer is a list with an element that has this id. */
  ghost predicate Returned(answer: Answer, agent: string) {
    answer.Items? && agent != "" && exists name, status :: Listed(agent, name, status) in answer.items
  }

  lemma SeenAreReturned(answer: Answer, agent: string)
    ensures agent in Seen(ItemsOf(answer)) <==> Returned(answer, agent)
  {
    if agent in Seen(ItemsOf(answer)) {
      var i :| i in answer.items && Counts(i) && i.id == agent;
      assert i == Listed(agent, i.name, i.status);
    }
  }

  /** Of the elements with one id the last one is stored. */
  lemma {:induction false} LastItemCounts(c: Catalog, items: seq<Item>, now: int, i: nat)
    requires i < |items| && items[i].Listed? && items[i].id != ""
    requires forall j :: i < j < |items| && items[j].Listed? ==> items[j].id != items[i].id
    ensures items[i].id in Upserted(c, items, now)
    ensures Upserted(c, items, now)[items[i].id] == CatalogRow(items[i].name, items[i].status, true, now)
  {
    if i < |items| - 1 { LastItemCounts(c, items[..|items| - 1], now, i); }
  }

  /** A returned agent has the name and the status of the last element with its id, as of now. */
  lemma ReturnedIsStored(s: State, items: seq<Item>, now: int, i: nat)
    requires i < |items| && items[i].Listed? && items[i].id != ""
    requires forall j :: i < j < |items| && items[j].Listed? ==> items[j].id != items[i].id
    ensures var t := Synced(s, Items(items), now);
            items[i].id in t.catalog && t.catalog[items[i].id] == CatalogRow(items[i].name, items[i].status, true, now)
  {
    LastItemCounts(s.catalog, items, now, i);
    UpsertedRows(s.catalog, items, now);
    assert Counts(items[i]) && items[i].id in Seen(items);
  }

  /** After a sync exactly the agents that were returned are present; no row is lost,
      and the rows of other agents keep all but their presence, which they lose as of now. */
  lemma SyncMirrors(s: State, answer: Answer, now: int)
    ensures var t := Synced(s, answer, now);
            && (forall a :: IsPresent(t.catalog, a) <==> a in Seen(ItemsOf(answer)))
            && s.catalog.Keys <= t.catalog.Keys
            && (forall a :: a in s.catalog && a !in Seen(ItemsOf(answer)) ==>
                  t.catalog[a] ==
                  if s.catalog[a].present then s.catalog[a].(present := false, syncedAt := now) else s.catalog[a])
    ensures forall a :: IsPresent(Synced(s, answer, now).catalog, a) <==> Returned(answer, a)
  {
    UpsertedRows(s.catalog, ItemsOf(answer), now);
    forall a ensures a in Seen(ItemsOf(answer)) <==> Returned(answer, a) { SeenAreReturned(answer, a); }
  }

  /** An event is written exactly for those who had an agent enabled that was present
      before the sync and is not after it. */
  lemma SyncReportsDrift(s: State, answer: Answer, now: int, k: ConfigKey)
    ensures var t := Synced(s, answer, now);
            t.drift[k] == s.drift[k] + if Vanishes(s, t, k) then 1 else 0
  {
    var items := ItemsOf(answer);
    UpsertedRows(s.catalog, items, now);
    SyncMirrors(s, answer, now);
    var affected := Affected(s.configs, MissingFrom(Upserted(s.catalog, items, now), Seen(items)));
    assert k in affected <==> Vanishes(s, Synced(s, answer, now), k);
    assert multiset(affected)[k] == if k in affected then 1 else 0;
  }

  /** A client may use an agent that it has enabled and that is still there. */
  predicate IsAgentEnabled(s: State, k: ConfigKey) {
    IsEnabled(s.configs, k) && IsPresent(s.catalog, k.1)
  }

  /** After a sync a client may use exactly the agents it had enabled and the answer has,
      whatever was present before; replacing the enabled agents then means what it says. */
  lemma UsableAfterSync(s: State, answer: Answer, now: int, k: ConfigKey, wanted: set<string>)
    ensures IsAgentEnabled(Synced(s, answer, now), k) <==> IsEnabled(s.configs, k) && k.1 in Seen(ItemsOf(answer))
    ensures var t := Next(Synced(s, answer, now), SetAgents(k.0, wanted));
            IsAgentEnabled(t, k) <==> k.1 in wanted && k.1 in Seen(ItemsOf(answer))
  {
    SyncMirrors(s, answer, now);
  }

  /** The agents that were present and are not any more. */
  function Gone(s: State, t: State): set<string> {
    set a | a in s.catalog && IsPresent(s.catalog, a) && !IsPresent(t.catalog, a)
  }

  lemma MissingAreGone(s: State, answer: Answer, now: int)
    ensures var items := ItemsOf(answer);
            MissingFrom(Upserted(s.catalog, items, now), Seen(items)) == Gone(s, Synced(s, answer, now))
  {
    UpsertedRows(s.catalog, ItemsOf(answer), now);
    SyncMirrors(s, answer, now);
  }

  // -------------------------------------------------------------------------- runs

  datatype Event =
    | Sync(answer: Answer, now: int)
    | SetAgents(client: nat, wanted: set<string>)
    | SetSettings(key: ConfigKey, displayName: Option<string>, overrides: Option<string>)

  function Next(s: State, e: Event): State {
    match e
    case Sync(answer, now) => Synced(s, answer, now)
    case SetAgents(client, wanted) => s.(configs := WithAgents(s.configs, client, wanted))
    case SetSettings(key, displayName, overrides) => s.(configs := WithSettings(s.configs, key, displayName, overrides))
  }

  function Run(s: State, events: seq<Event>): State {
    if events == [] then s else Next(Run(s, events[..|events| - 1]), events[|events| - 1])
  }

  /** An agent that a client has enabled goes from present to absent. */
  predicate Vanishes(s: State, t: State, k: ConfigKey) {
    IsEnabled(s.configs, k) && IsPresent(s.catalog, k.1) && !IsPresent(t.catalog, k.1)
  }

  function Vanishings(s: State, events: seq<Event>, k: ConfigKey): nat {
    if events == [] then 0
    else
      var init := events[..|events| - 1];
      Vanishings(s, init, k) + if Vanishes(Run(s, init), Run(s, events), k) then 1 else 0
  }

  /** Over any run the events for a client and an agent are as many as the times the
      agent vanished while the client had it enabled. */
  lemma {:induction false} DriftCountsVanishings(s: State, events: seq<Event>, k: ConfigKey)
    ensures Run(s, events).drift[k] == s.drift[k] + Vanishings(s, events, k)
  {
    if events != [] {
      var init, e := events[..|events| - 1], events[|events| - 1];
      DriftCountsVanishings(s, init, k);
      if e.Sync? { SyncReportsDrift(Run(s, init), e.answer, e.now, k); }
    }
  }

  /** The same answer again writes no event. */
  lemma ResyncIsQuiet(s: State, answer: Answer, now: int, later: int)
    ensures Synced(Synced(s, answer, now), answer, later).drift == Synced(s, answer, now).drift
  {
    var t := Synced(s, answer, now);
    var items := ItemsOf(answer);
    SyncMirrors(s, answer, now);
    UpsertedRows(t.catalog, items, later);
    assert MissingFrom(Upserted(t.catalog, items, later), Seen(items)) == {};
    assert Affected(t.configs, {}) == {};
  }

  /** An answer that is not a list takes every agent away, with an event for each
      enabled one that was present. */
  lemma BadAnswerEmptiesTheCatalog(s: State, now: int, k: ConfigKey)
    ensures var t := Synced(s, NotAList, now);
            && !IsPresent(t.catalog, k.1)
            && t.drift[k] == s.drift[k] + if IsEnabled(s.configs, k) && IsPresent(s.catalog, k.1) then 1 else 0
  {
  }

  // ------------------------------------------------------------------------ the class

  class AgentTables {
    var catalog: Catalog
    var configs: Configs
    var drift: multiset<ConfigKey>

    function Now(): State
      reads this
    {
      State(catalog, configs, drift)
    }

    method SyncCatalog(answer: Answer, now: int) returns (synced: nat, removed: nat, events: nat)
      modifies this`catalog, this`drift
      ensures Now() == Synced(old(Now()), answer, now)
      ensures synced == |Seen(ItemsOf(answer))| && events == |drift| - |old(drift)|
      ensures removed == |Gone(old(Now()), Now())|
    {
      var items := ItemsOf(answer);
      var seen := UpsertAll(items, now);
      var missing := MarkMissing(seen, now);
      events := DetectDrift(missing);
      synced, removed := |seen|, |missing|;
      MissingAreGone(old(Now()), answer, now);
    }

    method UpsertAll(items: seq<Item>, now: int) returns (seen: set<string>)
      modifies this`catalog
      ensures catalog == Upserted(old(catalog), items, now) && seen == Seen(items)
    {
      seen := {};
      ghost var done := [];
      for i := 0 to |items|
        invariant done == items[..i] && seen == Seen(done)
        invariant catalog == Upserted(old(catalog), done, now)
      {
        assert (done + [items[i]])[..|done|] == done;
        assert Seen(done + [items[i]]) == Seen(done) + if Counts(items[i]) then {items[i].id} else {};
        done := done + [items[i]];
        if Counts(items[i]) {
          seen := seen + {items[i].id};
          catalog := catalog[items[i].id := CatalogRow(items[i].name, items[i].status, true, now)];
        }
      }
      assert done == items;
    }

    method MarkMissing(seen: set<string>, now: int) returns (missing: set<string>)
      modifies this`catalog
      ensures catalog == Marked(old(catalog), seen, now) && missing == MissingFrom(old(catalog), seen)
    {
      ghost var before := catalog;
      missing := {};
      var todo := catalog.Keys;
      while todo != {}
        invariant todo <= before.Keys && catalog.Keys == before.Keys
        invariant forall a :: a in before ==>
                    catalog[a] == if a in todo then before[a] else Marked(before, seen, now)[a]
        invariant forall a :: a in missing <==> a in MissingFrom(before, seen) && a !in todo
        decreases todo
      {
        var a :| a in todo;
        todo := todo - {a};
        if catalog[a].present && a !in seen {
          catalog := catalog[a := catalog[a].(present := false, syncedAt := now)];
          missing := missing + {a};
        }
      }
    }

    method DetectDrift(missing: set<string>) returns (count: nat)
      modifies this`drift
      ensures drift == old(drift) + multiset(Affected(configs, missing)) && count == |Affected(configs, missing)|
    {
      count := 0;
      if missing == {} {
        assert Affected(configs, missing) == {};
        return;
      }
      ghost var done: set<ConfigKey> := {};
      var todo := Affected(configs, missing);
      while todo != {}
        invariant done !! todo && done + todo == Affected(configs, missing)
        invariant drift == old(drift) + multiset(done) && count == |done|
        decreases todo
      {
        var k :| k in todo;
        todo := todo - {k};
        assert multiset(done + {k}) == multiset(done) + multiset{k};
        done := done + {k};
        drift := drift + multiset{k};
        count := count + 1;
      }
    }

    /** The agents a client can use: enabled and still present. */
    method ListClientAgents(client: nat) returns (agents: set<string>)
      ensures forall a :: a in agents <==> IsAgentEnabled(Now(), (client, a))
    {
      agents := set k | k in configs && k.0 == client && configs[k].enabled && IsPresent(catalog, k.1) :: k.1;
      forall a | IsEnabled(configs, (client, a)) && IsPresent(catalog, a) ensures a in agents {
        assert (client, a) in configs;
      }
    }

    method SetClientAgents(client: nat, agents: seq<string>)
      modifies this`configs
      ensures configs == WithAgents(old(configs), client, set a | a in agents)
      ensures forall a :: IsEnabled(configs, (client, a)) <==> a in agents
      ensures forall k: ConfigKey :: k.0 != client ==> (IsEnabled(configs, k) <==> IsEnabled(old(configs), k))
    {
      ghost var before := configs;
      var wanted := set a | a in agents;
      var todo := set k | k in configs && k.0 == client;
      while todo != {}
        invariant configs.Keys == before.Keys && forall k :: k in todo ==> k in before && k.0 == client
        invariant forall k :: k in before ==>
                    configs[k] == if k.0 == client && k !in todo
                                  then before[k].(enabled := k.1 in wanted) else before[k]
        decreases todo
      {
        var k :| k in todo;
        todo := todo - {k};
        configs := configs[k := configs[k].(enabled := k.1 in wanted)];
      }
      AddMissing(client, wanted);
    }

    method AddMissing(client: nat, wanted: set<string>)
      modifies this`configs
      ensures configs.Keys == old(configs.Keys) + set a | a in wanted :: (client, a)
      ensures forall k :: k in configs ==>
                configs[k] == if k in old(configs) then old(configs)[k] else Config(true, None, None)
    {
      var todo := wanted;
      while todo != {}
        invariant todo <= wanted
        invariant configs.Keys == old(configs.Keys) + set a | a in wanted - todo :: (client, a)
        invariant forall k :: k in configs ==>
                    configs[k] == if k in old(configs) then old(configs)[k] else Config(true, None, None)
        decreases todo
      {
        var a :| a in todo;
        todo := todo - {a};
        if (client, a) !in configs { configs := configs[(client, a) := Config(true, None, None)]; }
      }
    }

    /** Settings of an agent that the client does not have yet make a disabled row. */
    method UpdateClientAgentConfig(k: ConfigKey, displayName: Option<string>, overrides: Option<string>)
      modifies this`configs
      ensures configs == WithSettings(old(configs), k, displayName, overrides)
      ensures forall other :: IsEnabled(configs, other) <==> IsEnabled(old(configs), other)
    {
      var c := if k in configs then configs[k] else Config(false, None, None);
      if displayName.Some? { c := c.(displayName := displayName); }
      if overrides.Some? { c := c.(overrides := overrides); }
      configs := configs[k := c];
    }
  }
}
