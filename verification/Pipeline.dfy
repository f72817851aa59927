/**
 The query pipeline (app/sql_agent/pipeline.py): from a question to guarded SQL by
 way of model answers, EXPLAIN and a bounded repair loop.

 Every answer from outside comes from an `Oracle`, which may choose it by all that
 happened before; so what is proved holds whatever the models and the database
 answer. The run keeps a trace of its calls and checks.
 */
module Pipeline {
  import opened Wrappers
  import SqlTree
  import SqlGuard
  import SqlGuardLoops

  /** A generated or repaired query with what the model says about it. */
  datatype Answer = Answer(sql: string, explanation: string, confidence: real)

  datatype Verdict = Verdict(approved: bool, notes: string)

  /** EXPLAIN accepts the text, rejects it, or the database cannot be reached. */
  datatype Planning = Planned | Rejected(message: string) | Unreachable

  datatype Event =
    | Enhanced | AmbiguityChecked | TablesSelected | ColumnsPruned | Voted
    | Raised  // a model call that ended in an `LLMError`
    | Generated(answer: Answer)
    | Criticised(sql: string, approved: bool)
    | Repaired(sql: string, answer: Answer)
    | Guarded(input: string, output: Result<string, SqlGuard.ErrorCode>)
    | Explained(sql: string, planning: Planning)

  type Trace = seq<Event>

  /** Outside answers by the trace so far; `None` is a raised `LLMError`. */
  datatype Oracle = Oracle(
    writeIntent: Trace -> Option<bool>,
    clarify: Trace -> Option<bool>,
    tables: Trace -> Option<seq<string>>,
    prune: Trace -> Option<seq<(string, seq<string>)>>,
    generate: Trace -> Option<Answer>,
    vote: Trace -> Option<nat>,
    critic: (Trace, string) -> Option<Verdict>,
    repair: (Trace, string) -> Option<Answer>,
    plan: (Trace, string) -> Planning
  )

  datatype Settings = Settings(maxRepairs: nat, candidateCount: nat, threshold: real, rowLimit: int, explain: bool)

  /** The catalog, with the parser and printer it is used with. */
  datatype Catalog = Catalog(allow: SqlGuard.Allowlist, schema: string, parse: string -> SqlGuard.Parsed,
                             print_: SqlTree.Node -> string)

  datatype Response =
    | Blocked
    | ClarifyNeeded
    | RepairExhausted
    | Built(sql: string, tables: set<string>, explanation: string, confidence: real, notes: string)
    | Failed  // an exception left `build_query`

  predicate IsModelCall(e: Event) {
    !e.Guarded? && !e.Explained?
  }

  function ModelCalls(t: Trace): nat {
    if t == [] then 0 else ModelCalls(t[..|t| - 1]) + (if IsModelCall(t[|t| - 1]) then 1 else 0)
  }

  function Repairs(t: Trace): nat {
    if t == [] then 0 else Repairs(t[..|t| - 1]) + (if t[|t| - 1].Repaired? then 1 else 0)
  }

  lemma CountOne(t: Trace, e: Event)
    ensures ModelCalls(t + [e]) == ModelCalls(t) + (if IsModelCall(e) then 1 else 0)
    ensures Repairs(t + [e]) == Repairs(t) + (if e.Repaired? then 1 else 0)
  {
  }

  /** Some model gave this answer, as a candidate or as a repair. */
  predicate GivenIn(a: Answer, t: Trace) {
    Generated(a) in t || exists e :: e in t && e.Repaired? && e.answer == a
  }

  /** The guard's verdict on a text: its printed tree and the tables it uses. */
  ghost predicate GuardYields(c: Catalog, s: Settings, input: string, sql: string, tables: set<string>) {
    var g := SqlGuard.Guard(c.parse(input), c.allow, s.rowLimit, c.schema);
    g.Ok? && sql == c.print_(g.value.tree) && tables == g.value.tables
  }

  ghost predicate IsGuardOutput(c: Catalog, s: Settings, input: string, sql: string) {
    exists tables :: GuardYields(c, s, input, sql, tables)
  }

  /** The text to guard next: a repair, or what the critic has let pass. */
  predicate Presents(e: Event, sql: string) {
    (e.Repaired? && e.answer.sql == sql) || e == Criticised(sql, true)
  }

  /** The trace ends with a text's failure: refused by the critic, or by the guard,
      or by EXPLAIN after the guard had printed it. */
  predicate Failing(t: Trace, n: nat, sql: string)
    requires n <= |t|
  {
    && n > 0
    && (|| t[n - 1] == Criticised(sql, false)
        || (t[n - 1].Guarded? && t[n - 1].output.Err? && t[n - 1].input == sql)
        || (&& t[n - 1].Explained? && t[n - 1].planning.Rejected?
            && n > 1 && t[n - 2].Guarded? && t[n - 2].input == sql))
  }

  predicate NotAnswered(o: Oracle, front: Trace, sql: string) {
    o.critic(front, sql).None? || o.repair(front, sql).None?
  }

  /** The event is what the outside said when it was asked, after the events before. */
  ghost predicate AnsweredBy(o: Oracle, front: Trace, e: Event) {
    match e
    case Generated(answer) => o.generate(front) == Some(answer)
    case Voted => o.vote(front).Some?
    case Criticised(sql, approved) => o.critic(front, sql).Some? && o.critic(front, sql).value.approved == approved
    case Repaired(sql, answer) => o.repair(front, sql) == Some(answer)
    case Explained(sql, planning) => o.plan(front, sql) == planning
    case Raised => o.generate(front).None? || o.vote(front).None? || exists sql :: NotAnswered(o, front, sql)
    case _ => true
  }

  ghost predicate AnsweredAt(o: Oracle, t: Trace, i: nat)
    requires i < |t|
  {
    AnsweredBy(o, t[..i], t[i])
  }

  ghost predicate AllAnswered(o: Oracle, t: Trace) {
    forall i {:trigger AnsweredAt(o, t, i)} :: 0 <= i < |t| ==> AnsweredAt(o, t, i)
  }

  lemma AnswerExtends(o: Oracle, t: Trace, e: Event)
    requires AllAnswered(o, t) && AnsweredBy(o, t, e)
    ensures AllAnswered(o, t + [e])
  {
    var more := t + [e];
    assert more[..|t|] == t;
    forall i | 0 <= i < |more| ensures AnsweredAt(o, more, i) {
      if i < |t| {
        assert AnsweredAt(o, t, i);
        assert more[..i] == t[..i];
      }
    }
  }

  /** The critic sees the candidate that was chosen, or what has passed guard and EXPLAIN. */
  ghost predicate Reviews(t: Trace, i: nat, o: Oracle, s: Settings)
    requires 0 < i < |t| && t[i].Criticised?
  {
    || (s.explain && t[i - 1] == Explained(t[i].sql, Planned))
    || (!s.explain && t[i - 1].Guarded? && t[i - 1].output == Ok(t[i].sql))
    || exists a: Answer :: a.sql == t[i].sql && ChosenBy(o, s, t[..i], a)
  }

  ghost predicate SoundAt(t: Trace, i: nat, o: Oracle, c: Catalog, s: Settings)
    requires i < |t|
  {
    && AnsweredAt(o, t, i)
    && (t[i].Explained? ==> i > 0 && t[i - 1].Guarded? && t[i - 1].output == Ok(t[i].sql))
    && (t[i].Guarded? ==> i > 0 && Presents(t[i - 1], t[i].input))
    && (t[i].Guarded? && t[i].output.Ok? ==> IsGuardOutput(c, s, t[i].input, t[i].output.value))
    && (t[i].Guarded? && t[i].output.Err? ==>
          SqlGuard.Guard(c.parse(t[i].input), c.allow, s.rowLimit, c.schema) == Err(t[i].output.error))
    && (t[i].Criticised? ==> i > 0 && Reviews(t, i, o, s))
    && (t[i].Repaired? ==> Failing(t, i, t[i].sql))
  }

  /** The run takes its turns: every text that went to EXPLAIN is what the guard had
      just printed; every text the guard saw is the latest answer; the guard's
      verdicts are its own, and the others what the outside said; the critic sees the
      chosen candidate and then what was guarded; and a repair is asked for the text that
      just failed. */
  ghost predicate TraceIsSound(t: Trace, o: Oracle, c: Catalog, s: Settings) {
    forall i {:trigger SoundAt(t, i, o, c, s)} :: 0 <= i < |t| ==> SoundAt(t, i, o, c, s)
  }

  lemma TraceExtends(t: Trace, e: Event, o: Oracle, c: Catalog, s: Settings)
    requires TraceIsSound(t, o, c, s) && SoundAt(t + [e], |t|, o, c, s)
    ensures TraceIsSound(t + [e], o, c, s)
  {
    var more := t + [e];
    forall i | 0 <= i < |more| ensures SoundAt(more, i, o, c, s) {
      if i < |t| {
        assert SoundAt(t, i, o, c, s);
        assert more[..i] == t[..i];
      }
    }
  }

  /** The text has gone through the guard and, if enabled, EXPLAIN. */
  predicate Clears(before: Trace, t: Trace, sql: string, printed: string, s: Settings) {
    t == before + [Guarded(sql, Ok(printed))] + if s.explain then [Explained(printed, Planned)] else []
  }

  /** The text of the answer was guarded after `before`, then passed EXPLAIN if that is
      enabled, then was approved as it stood. */
  ghost predicate BuiltFrom(a: Answer, before: Trace, r: Response, t: Trace, c: Catalog, s: Settings)
    requires r.Built? && t != []
  {
    && GivenIn(a, before)
    && GuardYields(c, s, a.sql, r.sql, r.tables)
    && r.explanation == a.explanation && r.confidence == a.confidence
    && Clears(before, t[..|t| - 1], a.sql, r.sql, s) && t[|t| - 1] == Criticised(r.sql, true)
  }

  /** How a run that returns SQL ends: the current text goes through the guard; what
      the guard prints passes EXPLAIN when that is enabled and is approved by the
      critic as it stands; and it is returned with the guard's tables, with the
      explanation and confidence of the very answer whose text was guarded, and with the
      critic's last notes. */
  ghost predicate EndsBuilt(r: Response, t: Trace, o: Oracle, c: Catalog, s: Settings)
    requires r.Built?
  {
    && t != [] && o.critic(t[..|t| - 1], r.sql) == Some(Verdict(true, r.notes))
    && exists a: Answer, before: Trace :: BuiltFrom(a, before, r, t, c, s)
  }

  function Max(a: nat, b: nat): nat { if a > b then a else b }

  // -------------------------------------------------------------- single stages

  method AskCritic(o: Oracle, t: Trace, sql: string) returns (t': Trace, v: Option<Verdict>)
    ensures v == o.critic(t, sql)
    ensures t' == t + [if v.Some? then Criticised(sql, v.value.approved) else Raised]
    ensures AnsweredBy(o, t, t'[|t|])
    ensures ModelCalls(t') == ModelCalls(t) + 1 && Repairs(t') == Repairs(t)
  {
    v := o.critic(t, sql);
    t' := t + [if v.Some? then Criticised(sql, v.value.approved) else Raised];
    assert v.None? ==> NotAnswered(o, t, sql);
    CountOne(t, t'[|t|]);
  }

  method AskRepair(o: Oracle, t: Trace, sql: string) returns (t': Trace, a: Option<Answer>)
    ensures a == o.repair(t, sql)
    ensures t' == t + [if a.Some? then Repaired(sql, a.value) else Raised]
    ensures AnsweredBy(o, t, t'[|t|])
    ensures ModelCalls(t') == ModelCalls(t) + 1
    ensures Repairs(t') == Repairs(t) + (if a.Some? then 1 else 0)
  {
    a := o.repair(t, sql);
    t' := t + [if a.Some? then Repaired(sql, a.value) else Raised];
    assert a.None? ==> NotAnswered(o, t, sql);
    CountOne(t, t'[|t|]);
  }

  /** The tables the model names that the catalog knows, each once, in the order
      in which they are named first. */
  method SelectTables(named: seq<string>, allow: SqlGuard.Allowlist) returns (selected: seq<string>)
    ensures forall x :: x in selected <==> x in named && x in allow
    ensures forall i, j :: 0 <= i < j < |selected| ==> selected[i] != selected[j]
    ensures forall i, j :: 0 <= i < j < |selected| ==> FirstAt(named, selected[i]) < FirstAt(named, selected[j])
  {
    selected := [];
    for k := 0 to |named|
      invariant forall x :: x in selected <==> x in named[..k] && x in allow
      invariant forall i, j :: 0 <= i < j < |selected| ==> selected[i] != selected[j]
      invariant forall i :: 0 <= i < |selected| ==> FirstAt(named, selected[i]) < k
      invariant forall i, j :: 0 <= i < j < |selected| ==> FirstAt(named, selected[i]) < FirstAt(named, selected[j])
    {
      assert named[..k + 1] == named[..k] + [named[k]];
      if named[k] in allow && named[k] !in selected {
        FirstHere(named, k);
        selected := selected + [named[k]];
      }
    }
    assert named[..|named|] == named;
  }

  function FirstAt(xs: seq<string>, x: string): nat {
    if xs == [] || xs[0] == x then 0 else 1 + FirstAt(xs[1..], x)
  }

  lemma {:induction false} FirstHere(xs: seq<string>, k: nat)
    requires k < |xs| && xs[k] !in xs[..k]
    ensures FirstAt(xs, xs[k]) == k
  {
    if k > 0 {
      assert xs[0] in xs[..k];
      assert xs[1..][..k - 1] == xs[..k][1..];
      FirstHere(xs[1..], k - 1);
    }
  }

  function ValidColumns(item: (string, seq<string>), allow: SqlGuard.Allowlist): set<string> {
    set c | c in item.1 && SqlGuard.Allowed(allow, item.0, c)
  }

  /** Of the items for a table, the last one with a known column. */
  predicate LastFor(items: seq<(string, seq<string>)>, n: nat, i: nat, table: string, allow: SqlGuard.Allowlist)
    requires n <= |items|
  {
    && i < n && items[i].0 == table && ValidColumns(items[i], allow) != {}
    && forall j :: i < j < n && items[j].0 == table ==> ValidColumns(items[j], allow) == {}
  }

  ghost predicate PrunedTo(items: seq<(string, seq<string>)>, n: nat, table: string, kept: set<string>,
                           allow: SqlGuard.Allowlist)
    requires n <= |items|
  {
    exists i: nat :: LastFor(items, n, i, table, allow) && kept == ValidColumns(items[i], allow)
  }

  /** The columns kept for the selected tables: known ones only; a table with none of
      them is not listed, and of two items for a table the later counts. */
  method PrunedColumns(items: seq<(string, seq<string>)>, selected: seq<string>, allow: SqlGuard.Allowlist)
    returns (pruned: map<string, set<string>>)
    requires forall x :: x in selected ==> x in allow
    ensures forall x :: x in pruned ==> x in selected && PrunedTo(items, |items|, x, pruned[x], allow)
    ensures forall i :: 0 <= i < |items| && items[i].0 in selected && ValidColumns(items[i], allow) != {} ==>
              items[i].0 in pruned
  {
    pruned := map[];
    for k := 0 to |items|
      invariant forall x :: x in pruned ==> x in selected && PrunedTo(items, k, x, pruned[x], allow)
      invariant forall i :: 0 <= i < k && items[i].0 in selected && ValidColumns(items[i], allow) != {} ==>
                  items[i].0 in pruned
    {
      ghost var before := pruned;
      var table, valid := items[k].0, ValidColumns(items[k], allow);
      if table in selected && valid != {} {
        pruned := pruned[table := valid];
        assert LastFor(items, k + 1, k, table, allow);
      }
      forall x | x in before && (x != table || valid == {})
        ensures PrunedTo(items, k + 1, x, before[x], allow)
      {
        var i: nat :| LastFor(items, k, i, x, allow) && before[x] == ValidColumns(items[i], allow);
        assert LastFor(items, k + 1, i, x, allow);
      }
    }
  }

  function Generations(answers: seq<Answer>): Trace {
    seq(|answers|, i requires 0 <= i < |answers| => Generated(answers[i]))
  }

  /** Asks for the alternatives; nothing when a call raised. */
  method GenerateAlternatives(o: Oracle, count: nat, t: Trace) returns (t': Trace, more: Option<seq<Answer>>)
    requires OnlyStages(t) && AllAnswered(o, t)
    ensures ModelCalls(t') <= ModelCalls(t) + count && Repairs(t') == Repairs(t) && OnlyStages(t')
    ensures AllAnswered(o, t') && t <= t' && (more.None? ==> t' != [] && t'[|t'| - 1].Raised?)
    ensures more.Some? ==> |more.value| == count && t' == t + Generations(more.value)
  {
    t' := t;
    var answers: seq<Answer> := [];
    for index := 0 to count
      invariant |answers| == index && t' == t + Generations(answers)
      invariant ModelCalls(t') == ModelCalls(t) + index && Repairs(t') == Repairs(t) && OnlyStages(t')
      invariant AllAnswered(o, t')
    {
      var next := o.generate(t');
      AnswerExtends(o, t', if next.None? then Raised else Generated(next.value));
      if next.None? {
        CountOne(t', Raised);
        return t' + [Raised], None;
      }
      CountOne(t', Generated(next.value));
      assert Generations(answers + [next.value]) == Generations(answers) + [Generated(next.value)];
      t' := t' + [Generated(next.value)];
      answers := answers + [next.value];
    }
    more := Some(answers);
  }

  lemma CandidateWasGenerated(t: Trace, candidates: seq<Answer>, i: nat)
    requires i < |candidates| && Generated(candidates[0]) in t
    ensures Generated(candidates[i]) in t + Generations(candidates[1..])
  {
    if i > 0 { assert Generations(candidates[1..])[i - 1] == Generated(candidates[i]); }
  }

  /** Alternatives when the first candidate is not confident enough: the model picks
      one of the candidates by its index, and an index out of range means the first. */
  method MultiCandidateVote(o: Oracle, s: Settings, t: Trace, first: Answer)
    returns (t': Trace, chosen: Option<Answer>, candidates: seq<Answer>)
    requires Generated(first) in t && OnlyStages(t) && AllAnswered(o, t)
    ensures ModelCalls(t') <= ModelCalls(t) + Max(s.candidateCount, 1) && Repairs(t') == Repairs(t) && OnlyStages(t')
    ensures AllAnswered(o, t') && t <= t' && (chosen.None? ==> t' != [] && t'[|t'| - 1].Raised?)
    ensures chosen.Some? ==>
              && |candidates| == Max(s.candidateCount, 1) && candidates[0] == first
              && (if |candidates| == 1 then t' == t && chosen == Some(first)
                  else
                    var voting := t + Generations(candidates[1..]);
                    && t' == voting + [Voted]
                    && o.vote(voting).Some?
                    && var best := o.vote(voting).value;
                       chosen == Some(if best >= |candidates| then first else candidates[best]))
    ensures chosen.Some? ==> Generated(chosen.value) in t'
  {
    var more;
    t', more := GenerateAlternatives(o, Max(s.candidateCount, 1) - 1, t);
    if more.None? { return t', None, []; }
    candidates := [first] + more.value;
    if |candidates| == 1 { return t, Some(first), candidates; }
    assert candidates[1..] == more.value;
    var vote := o.vote(t');
    var e := if vote.Some? then Voted else Raised;
    CountOne(t', e);
    AnswerExtends(o, t', e);
    t' := t' + [e];
    if vote.None? { return t', None, candidates; }
    if vote.value >= |candidates| { return t', Some(first), candidates; }
    chosen := Some(candidates[vote.value]);
    CandidateWasGenerated(t, candidates, vote.value);
  }

  /** No text has been reviewed, guarded, explained or repaired yet. */
  predicate OnlyStages(t: Trace) {
    forall e :: e in t ==> !e.Criticised? && !e.Guarded? && !e.Explained? && !e.Repaired?
  }

  // ------------------------------------------------------------------ the whole run

  const STAGES: Trace := [Enhanced, AmbiguityChecked, TablesSelected, ColumnsPruned]

  lemma StagesCount(n: nat)
    requires n <= 4
    ensures OnlyStages(STAGES[..n]) && ModelCalls(STAGES[..n]) == n && Repairs(STAGES[..n]) == 0
  {
    if n > 0 {
      StagesCount(n - 1);
      CountOne(STAGES[..n - 1], STAGES[n - 1]);
      assert STAGES[..n] == STAGES[..n - 1] + [STAGES[n - 1]];
    }
  }

  /** The model names a table that the catalog knows. */
  predicate NamesKnown(o: Oracle, c: Catalog) {
    && o.tables(STAGES[..2]).Some?
    && exists x :: x in o.tables(STAGES[..2]).value && x in c.allow
  }

  /** The answers that a run has had which got past so many stages: no write intent, a
      clear question, a known table, and columns to keep. */
  predicate Passed(o: Oracle, c: Catalog, n: nat) {
    && (n > 1 ==> o.writeIntent([]) == Some(false))
    && (n > 2 ==> o.clarify(STAGES[..1]) == Some(false))
    && (n > 3 ==> NamesKnown(o, c))
    && (n > 4 ==> o.prune(STAGES[..3]).Some?)
  }

  /** The stages come first, in their order, and each was passed that has a successor. */
  predicate StagesFirst(t: Trace, o: Oracle, c: Catalog) {
    (t <= STAGES || STAGES <= t) && Passed(o, c, |t|)
  }

  // ------------------------------------------------------------ which response when

  /** The question is to be clarified: the model says so, or names no known table. */
  predicate Unclear(o: Oracle, c: Catalog) {
    && o.writeIntent([]) == Some(false)
    && (|| o.clarify(STAGES[..1]) == Some(true)
        || (o.clarify(STAGES[..1]) == Some(false) && o.tables(STAGES[..2]).Some? && !NamesKnown(o, c)))
  }

  /** The last thing asked of the outside had no answer. */
  predicate Broke(t: Trace, o: Oracle) {
    && t != []
    && match t[|t| - 1]
       case Enhanced => o.writeIntent(t[..|t| - 1]).None?
       case AmbiguityChecked => o.clarify(t[..|t| - 1]).None?
       case TablesSelected => o.tables(t[..|t| - 1]).None?
       case ColumnsPruned => o.prune(t[..|t| - 1]).None?
       case Raised => true
       case Explained(_, planning) => planning.Unreachable?
       case _ => false
  }

  /** The last thing was the critic's approval of what had been guarded or explained. */
  predicate Approved(t: Trace) {
    && |t| > 1 && t[|t| - 1].Criticised? && t[|t| - 1].approved
    && (t[|t| - 2].Guarded? || t[|t| - 2].Explained?)
  }

  /** The last thing was the failure of a text. */
  ghost predicate JustFailed(t: Trace) {
    exists sql :: Failing(t, |t|, sql)
  }

  /** The response is decided by the answers: each kind is given exactly when these call
      for it. */
  ghost predicate Fits(r: Response, t: Trace, o: Oracle, c: Catalog) {
    && (r.Blocked? <==> o.writeIntent([]) == Some(true))
    && (r.ClarifyNeeded? <==> Unclear(o, c))
    && (r.Failed? <==> Broke(t, o))
    && (r.Built? <==> Approved(t))
    && (r.RepairExhausted? <==> JustFailed(t))
  }

  /** The first two stages. */
  method Understand(o: Oracle, c: Catalog) returns (t: Trace, early: Option<Response>)
    ensures early.Some? ==> early.value in {Failed, Blocked, ClarifyNeeded} && Fits(early.value, t, o, c)
    ensures t == STAGES[..1] || t == STAGES[..2]
    ensures early.None? ==> t == STAGES[..2] && Passed(o, c, 3)
    ensures Passed(o, c, |t|)
  {
    var writes := o.writeIntent([]);
    t := [Enhanced];
    assert t == STAGES[..1] && t[..0] == [];
    if writes.None? { return t, Some(Failed); }
    if writes.value { return t, Some(Blocked); }
    var unclear := o.clarify(t);
    t := [Enhanced, AmbiguityChecked];
    assert t == STAGES[..2] && t[..1] == STAGES[..1];
    if unclear.None? { return t, Some(Failed); }
    early := if unclear.value then Some(ClarifyNeeded) else None;
  }

  /** The other two. */
  method PickSchema(o: Oracle, c: Catalog, start: Trace) returns (t: Trace, early: Option<Response>)
    requires start == STAGES[..2] && Passed(o, c, 3)
    ensures early.Some? ==> early.value in {Failed, ClarifyNeeded} && Fits(early.value, t, o, c)
    ensures t == STAGES[..3] || t == STAGES
    ensures early.None? ==> t == STAGES && Passed(o, c, 5)
    ensures Passed(o, c, |t|)
  {
    var named := o.tables(start);
    t := [Enhanced, AmbiguityChecked, TablesSelected];
    assert t == STAGES[..3] && t[..2] == STAGES[..2];
    if named.None? { return t, Some(Failed); }
    var selected := SelectTables(named.value, c.allow);
    if selected == [] {
      assert forall x :: x in named.value && x in c.allow ==> x in selected;
      return t, Some(ClarifyNeeded);
    }
    assert selected[0] in selected;
    var items := o.prune(t);
    t := [Enhanced, AmbiguityChecked, TablesSelected, ColumnsPruned];
    assert t == STAGES && t[..3] == STAGES[..3];
    if items.None? { return t, Some(Failed); }
    var _ := PrunedColumns(items.value, selected, c.allow);
    early := None;
  }

  /** The stages before the first candidate; a response when the run ends there. */
  method NarrowDown(o: Oracle, c: Catalog) returns (t: Trace, early: Option<Response>)
    ensures early.Some? ==> !early.value.Built? && !early.value.RepairExhausted? && Fits(early.value, t, o, c)
    ensures OnlyStages(t) && Repairs(t) == 0 && ModelCalls(t) <= 4
    ensures AllAnswered(o, t) && StagesFirst(t, o, c)
    ensures early.None? ==> t == STAGES && Passed(o, c, 5)
  {
    t, early := Understand(o, c);
    if early.None? { t, early := PickSchema(o, c, t); }
    assert |t| <= 4 && t == STAGES[..|t|];
    StagesCount(|t|);
  }

  /** The stages up to the first candidate. */
  method Prepare(o: Oracle, c: Catalog) returns (t: Trace, early: Option<Response>, first: Option<Answer>)
    ensures early.None? <==> first.Some?
    ensures early.Some? ==> !early.value.Built? && !early.value.RepairExhausted? && Fits(early.value, t, o, c)
    ensures OnlyStages(t) && Repairs(t) == 0 && ModelCalls(t) <= 5
    ensures AllAnswered(o, t) && StagesFirst(t, o, c)
    ensures first.Some? ==> |t| == 5 && t[4] == Generated(first.value)
  {
    t, early := NarrowDown(o, c);
    first := None;
    if early.Some? { return; }
    first := o.generate(t);
    var e := if first.Some? then Generated(first.value) else Raised;
    CountOne(t, e);
    AnswerExtends(o, t, e);
    t := t + [e];
    early := if first.None? then Some(Failed) else None;
  }

  lemma ErrorExtends(t: Trace, sql: string, code: SqlGuard.ErrorCode, o: Oracle, c: Catalog, s: Settings)
    requires TraceIsSound(t, o, c, s) && t != [] && Presents(t[|t| - 1], sql)
    requires SqlGuard.Guard(c.parse(sql), c.allow, s.rowLimit, c.schema) == Err(code)
    ensures TraceIsSound(t + [Guarded(sql, Err(code))], o, c, s)
  {
    TraceExtends(t, Guarded(sql, Err(code)), o, c, s);
  }

  lemma GuardedExtends(t: Trace, sql: string, g: SqlGuard.GuardResult, o: Oracle, c: Catalog, s: Settings)
    requires TraceIsSound(t, o, c, s) && t != [] && Presents(t[|t| - 1], sql)
    requires SqlGuard.Guard(c.parse(sql), c.allow, s.rowLimit, c.schema) == Ok(g)
    ensures TraceIsSound(t + [Guarded(sql, Ok(c.print_(g.tree)))], o, c, s)
  {
    assert GuardYields(c, s, sql, c.print_(g.tree), g.tables);
    assert IsGuardOutput(c, s, sql, c.print_(g.tree));
    TraceExtends(t, Guarded(sql, Ok(c.print_(g.tree))), o, c, s);
  }

  lemma ExplainedExtends(t: Trace, sql: string, o: Oracle, c: Catalog, s: Settings)
    requires TraceIsSound(t, o, c, s)
    requires t != [] && t[|t| - 1].Guarded? && t[|t| - 1].output == Ok(sql)
    ensures TraceIsSound(t + [Explained(sql, o.plan(t, sql))], o, c, s)
  {
    var e := Explained(sql, o.plan(t, sql));
    assert (t + [e])[..|t|] == t;
    TraceExtends(t, e, o, c, s);
  }

  /** The trace after the current text went through the guard and, if enabled, EXPLAIN. */
  method Validate(o: Oracle, c: Catalog, s: Settings, t: Trace, sql: string)
    returns (t': Trace, guarded: Option<SqlGuard.GuardResult>, planning: Planning)
    requires TraceIsSound(t, o, c, s) && t != [] && Presents(t[|t| - 1], sql)
    ensures TraceIsSound(t', o, c, s)
    ensures guarded.None? || planning.Rejected? ==> Failing(t', |t'|, sql)
    ensures guarded.Some? && planning.Unreachable? ==> Broke(t', o)
    ensures ModelCalls(t') == ModelCalls(t) && Repairs(t') == Repairs(t)
    ensures guarded.Some? ==> SqlGuard.Guard(c.parse(sql), c.allow, s.rowLimit, c.schema) == Ok(guarded.value)
    ensures guarded.Some? && planning.Planned? ==>
              Clears(t, t', sql, c.print_(guarded.value.tree), s)
    ensures t <= t'
  {
    var g := SqlGuardLoops.GuardSql(c.parse(sql), c.allow, s.rowLimit, c.schema);
    if g.Err? {
      CountOne(t, Guarded(sql, Err(g.error)));
      ErrorExtends(t, sql, g.error, o, c, s);
      return t + [Guarded(sql, Err(g.error))], None, Planned;
    }
    var printed := c.print_(g.value.tree);
    var event: Event := Guarded(sql, Ok(printed));
    CountOne(t, event);
    GuardedExtends(t, sql, g.value, o, c, s);
    guarded := Some(g.value);
    t', planning := Explain(o, c, s, t + [event], printed);
  }

  /** EXPLAIN for what the guard has just printed, if it is enabled. */
  method Explain(o: Oracle, c: Catalog, s: Settings, t: Trace, printed: string) returns (t': Trace, planning: Planning)
    requires TraceIsSound(t, o, c, s)
    requires t != [] && t[|t| - 1].Guarded? && t[|t| - 1].output == Ok(printed)
    ensures TraceIsSound(t', o, c, s)
    ensures ModelCalls(t') == ModelCalls(t) && Repairs(t') == Repairs(t)
    ensures t' == t + (if s.explain then [Explained(printed, planning)] else [])
    ensures !s.explain ==> planning.Planned?
  {
    if !s.explain { return t, Planned; }
    planning := o.plan(t, printed);
    ExplainedExtends(t, printed, o, c, s);
    CountOne(t, Explained(printed, planning));
    t' := t + [Explained(printed, planning)];
  }

  /** One more answer keeps what was said of the trace. */
  lemma AnswerIsSound(t: Trace, e: Event, o: Oracle, c: Catalog, s: Settings)
    requires TraceIsSound(t, o, c, s) && (e.Raised? || e.Repaired?) && AnsweredBy(o, t, e)
    requires e.Repaired? ==> Failing(t, |t|, e.sql)
    ensures TraceIsSound(t + [e], o, c, s)
  {
    assert (t + [e])[..|t|] == t;
    TraceExtends(t, e, o, c, s);
  }

  lemma ReviewIsSound(t: Trace, e: Event, o: Oracle, c: Catalog, s: Settings)
    requires TraceIsSound(t, o, c, s) && t != [] && AnsweredBy(o, t, e)
    requires e.Raised? || (e.Criticised? && Reviews(t + [e], |t|, o, s))
    ensures TraceIsSound(t + [e], o, c, s)
  {
    assert (t + [e])[..|t|] == t;
    TraceExtends(t, e, o, c, s);
  }

  lemma ReviewIsDue(before: Trace, t: Trace, sql: string, e: Event, printed: string, o: Oracle, c: Catalog, s: Settings)
    requires TraceIsSound(t, o, c, s) && Clears(before, t, sql, printed, s) && AnsweredBy(o, t, e)
    requires e.Raised? || (e.Criticised? && e.sql == printed)
    ensures TraceIsSound(t + [e], o, c, s) && before <= t
  {
    assert t[|t| - 1] == if s.explain then Explained(printed, Planned) else Guarded(sql, Ok(printed));
    ReviewIsSound(t, e, o, c, s);
  }

  /** How a round ends the run: something gave no answer, or the query is built. */
  ghost predicate Stops(r: Response, t: Trace, o: Oracle, c: Catalog, s: Settings) {
    if r.Built? then Approved(t) && EndsBuilt(r, t, o, c, s) else r.Failed? && Broke(t, o)
  }

  lemma ApprovalBuilds(o: Oracle, c: Catalog, s: Settings, t: Trace, a: Answer, before: Trace,
                       g: SqlGuard.GuardResult, notes: string)
    requires GivenIn(a, before) && Clears(before, t, a.sql, c.print_(g.tree), s)
    requires SqlGuard.Guard(c.parse(a.sql), c.allow, s.rowLimit, c.schema) == Ok(g)
    requires o.critic(t, c.print_(g.tree)) == Some(Verdict(true, notes))
    ensures var r := Built(c.print_(g.tree), g.tables, a.explanation, a.confidence, notes);
            Stops(r, t + [Criticised(r.sql, true)], o, c, s)
  {
    var printed := c.print_(g.tree);
    var more := t + [Criticised(printed, true)];
    assert more[..|more| - 1] == t;
    assert GuardYields(c, s, a.sql, printed, g.tables);
    assert BuiltFrom(a, before, Built(printed, g.tables, a.explanation, a.confidence, notes), more, c, s);
  }

  /** The critic on what the guard printed: `None` goes on to a repair. */
  method Review(o: Oracle, c: Catalog, s: Settings, t: Trace, current: Answer, ghost before: Trace,
                g: SqlGuard.GuardResult)
    returns (t': Trace, done: Option<Response>)
    requires TraceIsSound(t, o, c, s) && GivenIn(current, before)
    requires SqlGuard.Guard(c.parse(current.sql), c.allow, s.rowLimit, c.schema) == Ok(g)
    requires Clears(before, t, current.sql, c.print_(g.tree), s)
    ensures TraceIsSound(t', o, c, s) && before <= t'
    ensures ModelCalls(t') == ModelCalls(t) + 1 && Repairs(t') == Repairs(t)
    ensures done.None? ==> Failing(t', |t'|, c.print_(g.tree))
    ensures done.Some? ==> Stops(done.value, t', o, c, s)
  {
    var printed := c.print_(g.tree);
    var verdict;
    t', verdict := AskCritic(o, t, printed);
    ReviewIsDue(before, t, current.sql, t'[|t|], printed, o, c, s);
    if verdict.None? { return t', Some(Failed); }
    if !verdict.value.approved { return t', None; }
    done := Some(Built(printed, g.tables, current.explanation, current.confidence, verdict.value.notes));
    ApprovalBuilds(o, c, s, t, current, before, g, verdict.value.notes);
  }

  /** One round: guard and EXPLAIN, then the critic. Either the run ends, or it is
      known which text has failed. */
  method Round(o: Oracle, c: Catalog, s: Settings, t: Trace, current: Answer)
    returns (t': Trace, done: Option<Response>, failing: string)
    requires TraceIsSound(t, o, c, s) && GivenIn(current, t) && t != [] && Presents(t[|t| - 1], current.sql)
    ensures TraceIsSound(t', o, c, s) && t <= t'
    ensures ModelCalls(t') <= ModelCalls(t) + 1 && Repairs(t') == Repairs(t)
    ensures done.None? ==> Failing(t', |t'|, failing)
    ensures done.Some? ==> Stops(done.value, t', o, c, s)
  {
    var guarded, planning;
    t', guarded, planning := Validate(o, c, s, t, current.sql);
    failing, done := current.sql, None;
    if guarded.Some? && planning.Unreachable? { return t', Some(Failed), failing; }
    if guarded.Some? && planning.Planned? {
      failing := c.print_(guarded.value.tree);
      t', done := Review(o, c, s, t', current, t, guarded.value);
    }
  }

  /** What a run may return, given what is left of its budgets. */
  ghost predicate Ends(r: Response, t: Trace, o: Oracle, c: Catalog, s: Settings) {
    && Repairs(t) <= s.maxRepairs
    && TraceIsSound(t, o, c, s)
    && StagesFirst(t, o, c)
    && Fits(r, t, o, c)
    && (r.Built? ==> EndsBuilt(r, t, o, c, s))
    && (r.RepairExhausted? ==> Repairs(t) == s.maxRepairs)
  }

  /** A run with all its stages behind it. */
  predicate UnderWay(t: Trace, o: Oracle, c: Catalog) {
    STAGES < t && Passed(o, c, |t|)
  }

  lemma OneEnd(t: Trace, o: Oracle)
    ensures Broke(t, o) ==> !Approved(t) && !JustFailed(t)
    ensures Approved(t) ==> !JustFailed(t)
  {
  }

  lemma NoEarlyEnd(t: Trace, o: Oracle, c: Catalog)
    requires UnderWay(t, o, c)
    ensures o.writeIntent([]) == Some(false) && !Unclear(o, c) && StagesFirst(t, o, c)
  {
    assert |t| > |STAGES|;
  }

  lemma Ended(r: Response, t: Trace, o: Oracle, c: Catalog, s: Settings)
    requires UnderWay(t, o, c) && TraceIsSound(t, o, c, s) && Repairs(t) <= s.maxRepairs
    requires Stops(r, t, o, c, s) || (r.RepairExhausted? && JustFailed(t) && Repairs(t) == s.maxRepairs)
    ensures Ends(r, t, o, c, s)
  {
    OneEnd(t, o);
    NoEarlyEnd(t, o, c);
  }

  method RepairLoop(o: Oracle, c: Catalog, s: Settings, start: Trace, first: Answer) returns (r: Response, t: Trace)
    requires Repairs(start) <= s.maxRepairs
    requires TraceIsSound(start, o, c, s) && GivenIn(first, start) && UnderWay(start, o, c)
    requires Presents(start[|start| - 1], first.sql)
    ensures Ends(r, t, o, c, s)
    ensures ModelCalls(t) <= ModelCalls(start) + 1 + 2 * (s.maxRepairs - Repairs(start))
  {
    var current := first;
    t := start;
    var attempts := Repairs(start);
    while true
      invariant attempts == Repairs(t) <= s.maxRepairs
      invariant ModelCalls(t) <= ModelCalls(start) + 2 * (attempts - Repairs(start))
      invariant TraceIsSound(t, o, c, s) && GivenIn(current, t) && UnderWay(t, o, c)
      invariant Presents(t[|t| - 1], current.sql)
      decreases s.maxRepairs - attempts
    {
      var done, failing;
      t, done, failing := Round(o, c, s, t, current);
      if done.Some? {
        Ended(done.value, t, o, c, s);
        return done.value, t;
      }
      if attempts >= s.maxRepairs {
        Ended(RepairExhausted, t, o, c, s);
        return RepairExhausted, t;
      }
      ghost var asked := t;
      var repaired;
      t, repaired := AskRepair(o, t, failing);
      AnswerIsSound(asked, t[|asked|], o, c, s);
      if repaired.None? {
        Ended(Failed, t, o, c, s);
        return Failed, t;
      }
      attempts, current := attempts + 1, repaired.value;
      assert t[|asked|] in t;
    }
  }

  lemma StagesAreSound(t: Trace, o: Oracle, c: Catalog, s: Settings)
    requires OnlyStages(t) && AllAnswered(o, t)
    ensures TraceIsSound(t, o, c, s)
  {
    forall i | 0 <= i < |t| ensures SoundAt(t, i, o, c, s) {
      assert AnsweredAt(o, t, i);
      assert t[i] in t;
    }
  }

  /** A first candidate that is confident enough is taken as it is; otherwise there is
      a vote, if there are alternatives, and the model's index decides, if there is such
      a candidate. */
  predicate ChosenBy(o: Oracle, s: Settings, t: Trace, chosen: Answer) {
    && |t| > 4 && t[4].Generated?
    && if t[4].answer.confidence >= s.threshold || s.candidateCount <= 1
       then |t| == 5 && chosen == t[4].answer
       else && |t| == 5 + s.candidateCount && t[|t| - 1] == Voted
            && match o.vote(t[..|t| - 1])
               case None => false
               case Some(best) => t[if best < s.candidateCount then 4 + best else 4] == Generated(chosen)
  }

  /** The candidate to go on with: the first one, or the one that won the vote. */
  method ChooseCandidate(o: Oracle, c: Catalog, s: Settings)
    returns (t: Trace, early: Option<Response>, chosen: Option<Answer>)
    ensures early.None? <==> chosen.Some?
    ensures early.Some? ==> !early.value.Built? && !early.value.RepairExhausted? && Fits(early.value, t, o, c)
    ensures OnlyStages(t) && Repairs(t) == 0 && ModelCalls(t) <= 5 + Max(s.candidateCount, 1)
    ensures AllAnswered(o, t) && StagesFirst(t, o, c)
    ensures chosen.Some? ==> Generated(chosen.value) in t && ChosenBy(o, s, t, chosen.value)
  {
    t, early, chosen := Prepare(o, c);
    if early.None? && chosen.value.confidence < s.threshold {
      ghost var start, first := t, chosen.value;
      var candidates;
      t, chosen, candidates := MultiCandidateVote(o, s, t, chosen.value);
      if chosen.None? {
        early := Some(Failed);
      } else if |candidates| > 1 {
        VotedFor(start, t, candidates, o, s, chosen.value);
      }
    }
  }

  /** The vote's choice is where the trace has it. */
  lemma VotedFor(start: Trace, t: Trace, candidates: seq<Answer>, o: Oracle, s: Settings, chosen: Answer)
    requires |start| == 5 && |candidates| == s.candidateCount > 1 && start[4] == Generated(candidates[0])
    requires start[4].answer.confidence < s.threshold
    requires t == start + Generations(candidates[1..]) + [Voted]
    requires o.vote(start + Generations(candidates[1..])).Some?
    requires var best := o.vote(start + Generations(candidates[1..])).value;
             chosen == if best >= |candidates| then candidates[0] else candidates[best]
    ensures ChosenBy(o, s, t, chosen)
  {
    assert t[..|t| - 1] == start + Generations(candidates[1..]);
    var best := o.vote(t[..|t| - 1]).value;
    if 0 < best < |candidates| {
      assert t[4 + best] == Generations(candidates[1..])[best - 1];
    }
  }

  /** The first review by the critic, and the repair it may ask for. */
  method FirstCandidate(o: Oracle, c: Catalog, s: Settings)
    returns (t: Trace, early: Option<Response>, current: Option<Answer>)
    ensures early.None? <==> current.Some?
    ensures early.Some? ==> Ends(early.value, t, o, c, s)
    ensures TraceIsSound(t, o, c, s) && Repairs(t) <= s.maxRepairs
    ensures early.None? ==> ModelCalls(t) <= 6 + Max(s.candidateCount, 1) + 2 * Repairs(t)
    ensures ModelCalls(t) <= 7 + Max(s.candidateCount, 1) + 2 * s.maxRepairs
    ensures current.Some? ==>
              GivenIn(current.value, t) && UnderWay(t, o, c) && Presents(t[|t| - 1], current.value.sql)
  {
    t, early, current := ChooseCandidate(o, c, s);
    StagesAreSound(t, o, c, s);
    if early.Some? { return; }
    var candidate := current.value;
    ghost var asked := t;
    var verdict;
    t, verdict := AskCritic(o, t, candidate.sql);
    assert t[..|asked|] == asked;
    ReviewIsSound(asked, t[|asked|], o, c, s);
    assert Generated(candidate) in t;
    if verdict.None? {
      Ended(Failed, t, o, c, s);
      return t, Some(Failed), None;
    }
    if verdict.value.approved { return t, None, Some(candidate); }
    assert Failing(t, |t|, candidate.sql);
    if s.maxRepairs <= 0 {
      Ended(RepairExhausted, t, o, c, s);
      return t, Some(RepairExhausted), None;
    }
    asked := t;
    t, current := AskRepair(o, t, candidate.sql);
    AnswerIsSound(asked, t[|asked|], o, c, s);
    assert t[|asked|] in t;
    early := if current.None? then Some(Failed) else None;
    if current.None? { Ended(Failed, t, o, c, s); }
  }

  /** The run as a whole, for every behaviour of the models and the database: it
      ends, within its budgets; its trace is sound, so that only guarded text reaches the
      database and every step is the due one; each response is given exactly when the
      answers call for it; SQL is returned only as `EndsBuilt` says; and it gives up
      only with the repair budget used up. */
  method BuildQuery(o: Oracle, c: Catalog, s: Settings) returns (r: Response, t: Trace)
    ensures ModelCalls(t) <= 7 + Max(s.candidateCount, 1) + 2 * s.maxRepairs
    ensures Repairs(t) <= s.maxRepairs
    ensures TraceIsSound(t, o, c, s)
    ensures StagesFirst(t, o, c)
    ensures r.Blocked? <==> o.writeIntent([]) == Some(true)
    ensures r.ClarifyNeeded? <==> Unclear(o, c)
    ensures r.Failed? <==> Broke(t, o)
    ensures r.Built? <==> Approved(t)
    ensures r.RepairExhausted? <==> JustFailed(t)
    ensures r.Built? ==> EndsBuilt(r, t, o, c, s)
    ensures r.RepairExhausted? ==> Repairs(t) == s.maxRepairs
  {
    var early, current;
    t, early, current := FirstCandidate(o, c, s);
    if early.Some? { return early.value, t; }
    r, t := RepairLoop(o, c, s, t, current.value);
  }
}
