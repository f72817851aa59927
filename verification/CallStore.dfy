/**
 The calls and batches tables as the code works on them: look-ups, inserts and field
 assignments (app/services/store.py), and the sync passes that isolate each execution
 in a savepoint (app/services/batch_sync.py, `sync_open_single_calls` in
 app/services/call_sync.py).
 */
module CallStore {
  import opened Wrappers
  import opened Store
  import CallStatus

  // ------------------------------------------------------------- a pass, as a function

  /** One fetched execution with the client that the pass works for. */
  datatype Item = Item(payload: Payload, client: nat)

  /** A batch pass queues every terminal call, a single-call pass those that just finished. */
  datatype Mode = QueueTerminal | QueueFinished

  datatype Pass = Pass(tables: Tables, queued: seq<nat>)

  predicate Queues(mode: Mode, s: Synced) {
    s.call.Some? && if mode.QueueTerminal? then Finished(s.tables, s.call.value) else s.justFinished
  }

  ghost predicate Fails(t: Tables, item: Item) {
    Sync(t, item.payload, Some(item.client)).Err?
  }

  /** One execution: when it fails, nothing happens. */
  ghost function PassStep(before: Pass, item: Item, mode: Mode): Pass {
    var r := Sync(before.tables, item.payload, Some(item.client));
    if r.Err? then before
    else Pass(r.value.tables, before.queued + if Queues(mode, r.value) then [r.value.call.value] else [])
  }

  ghost function SyncPass(t: Tables, items: seq<Item>, mode: Mode): Pass {
    if items == [] then Pass(t, [])
    else PassStep(SyncPass(t, items[..|items| - 1], mode), items[|items| - 1], mode)
  }

  /** The executions that do not fail when their turn comes. */
  ghost function Survivors(t: Tables, items: seq<Item>, mode: Mode): seq<Item> {
    if items == [] then []
    else
      var init, item := items[..|items| - 1], items[|items| - 1];
      Survivors(t, init, mode) + if Fails(SyncPass(t, init, mode).tables, item) then [] else [item]
  }

  lemma PassNext(t: Tables, items: seq<Item>, item: Item, mode: Mode)
    ensures SyncPass(t, items + [item], mode) == PassStep(SyncPass(t, items, mode), item, mode)
  {
  }

  lemma SurvivorsNext(t: Tables, items: seq<Item>, item: Item, mode: Mode)
    ensures Survivors(t, items + [item], mode) ==
            Survivors(t, items, mode) + if Fails(SyncPass(t, items, mode).tables, item) then [] else [item]
  {
  }

  lemma FailedStep(before: Pass, item: Item, mode: Mode)
    ensures Fails(before.tables, item) ==> PassStep(before, item, mode) == before
  {
  }

  /** A failing execution takes nothing with it: the pass leaves the rows and the
      queue of the pass over the other executions, all of which succeed there. */
  lemma {:induction false} FailuresAreIsolated(t: Tables, items: seq<Item>, mode: Mode)
    ensures var rest := Survivors(t, items, mode);
            && SyncPass(t, rest, mode) == SyncPass(t, items, mode)
            && Survivors(t, rest, mode) == rest
  {
    if items != [] {
      var init, item := items[..|items| - 1], items[|items| - 1];
      assert items == init + [item];
      FailuresAreIsolated(t, init, mode);
      PassNext(t, init, item, mode);
      SurvivorsNext(t, init, item, mode);
      FailedStep(SyncPass(t, init, mode), item, mode);
      var kept := Survivors(t, init, mode);
      if Fails(SyncPass(t, init, mode).tables, item) {
        assert Survivors(t, items, mode) == kept;
      } else {
        PassNext(t, kept, item, mode);
        SurvivorsNext(t, kept, item, mode);
      }
    }
  }

  function Deliveries(items: seq<Item>): seq<Event> {
    seq(|items|, i requires 0 <= i < |items| => Delivered(items[i].payload, Some(items[i].client)))
  }

  /** A pass is a run of deliveries, so what is proved of runs holds of it. */
  lemma {:induction false} PassIsRun(t: Tables, items: seq<Item>, mode: Mode)
    ensures SyncPass(t, items, mode).tables == Run(t, Deliveries(items))
  {
    if items != [] {
      PassIsRun(t, items[..|items| - 1], mode);
      assert Deliveries(items)[..|items| - 1] == Deliveries(items[..|items| - 1]);
    }
  }

  /** Some execution of the pass was accepted for the row. */
  ghost predicate Touched(t: Tables, items: seq<Item>, id: nat) {
    AcceptedFor(t, Deliveries(items), id) != []
  }

  /** A round queues a call that is terminal after it, unless the call was terminal
      before and the round did not touch it or does not queue such calls. */
  lemma StepQueues(before: Pass, item: Item, mode: Mode, id: nat)
    requires Attributed(before.tables) && OneRowEach(before.tables)
    requires Finished(PassStep(before, item, mode).tables, id)
    ensures var after := PassStep(before, item, mode);
            && (id in before.queued ==> id in after.queued)
            && (id in after.queued
                || (&& Finished(before.tables, id)
                    && (mode.QueueTerminal? ==>
                          !Accepts(before.tables, Delivered(item.payload, Some(item.client)), id))))
  {
    FlagIsEdge(before.tables, item.payload, Some(item.client), id);
  }

  lemma PassKeeps(t: Tables, items: seq<Item>, mode: Mode)
    requires Attributed(t) && OneRowEach(t)
    ensures var u := SyncPass(t, items, mode).tables; Attributed(u) && OneRowEach(u) && u == Run(t, Deliveries(items))
  {
    PassIsRun(t, items, mode);
    RunKeeps(t, Deliveries(items));
  }

  /** No finished call is missed: one that is terminal after the pass is queued by it
      if the pass touched it, or, where only just finished calls are queued, if it was
      not terminal before. */
  lemma {:induction false} FinishedAreQueued(t: Tables, items: seq<Item>, mode: Mode, id: nat)
    requires Attributed(t) && OneRowEach(t)
    requires Finished(SyncPass(t, items, mode).tables, id)
    requires if mode.QueueTerminal? then Touched(t, items, id) else !Finished(t, id)
    ensures id in SyncPass(t, items, mode).queued
  {
    if items != [] {
      var init, item := items[..|items| - 1], items[|items| - 1];
      assert Deliveries(items)[..|items| - 1] == Deliveries(init);
      PassKeeps(t, init, mode);
      var before := SyncPass(t, init, mode);
      StepQueues(before, item, mode, id);
      if id !in SyncPass(t, items, mode).queued {
        FinishedAreQueued(t, init, mode, id);
      }
    }
  }

  /** The round queued the call: it was accepted for it and is terminal afterwards, and, where
      only just finished calls are queued, was not terminal before. */
  ghost predicate QueuedBy(t: Tables, items: seq<Item>, n: nat, mode: Mode, id: nat) {
    && n < |items|
    && var before, after := SyncPass(t, items[..n], mode).tables, SyncPass(t, items[..n + 1], mode).tables;
       && Accepts(before, Delivered(items[n].payload, Some(items[n].client)), id)
       && id in after.calls && after.calls[id].outcome.status in CallStatus.TERMINAL_STATUSES
       && (mode.QueueFinished? && id in before.calls ==>
             before.calls[id].outcome.status !in CallStatus.TERMINAL_STATUSES)
  }

  lemma StepQueuedIt(before: Pass, item: Item, mode: Mode, id: nat)
    requires Attributed(before.tables)
    requires id in PassStep(before, item, mode).queued && id !in before.queued
    ensures Accepts(before.tables, Delivered(item.payload, Some(item.client)), id)
    ensures Finished(PassStep(before, item, mode).tables, id)
    ensures mode.QueueFinished? ==> !Finished(before.tables, id)
  {
    if mode.QueueFinished? { AcceptedEdge(before.tables, item.payload, Some(item.client), id); }
  }

  lemma QueuedByLast(t: Tables, items: seq<Item>, mode: Mode, id: nat)
    requires Attributed(t) && OneRowEach(t) && items != []
    requires id in SyncPass(t, items, mode).queued && id !in SyncPass(t, items[..|items| - 1], mode).queued
    ensures QueuedBy(t, items, |items| - 1, mode, id)
  {
    PassKeeps(t, items[..|items| - 1], mode);
    StepQueuedIt(SyncPass(t, items[..|items| - 1], mode), items[|items| - 1], mode, id);
    assert items[..|items|] == items;
  }

  lemma QueuedByStill(t: Tables, items: seq<Item>, init: seq<Item>, n: nat, mode: Mode, id: nat)
    requires init <= items && QueuedBy(t, init, n, mode, id)
    ensures QueuedBy(t, items, n, mode, id)
  {
    assert items[..n] == init[..n] && items[..n + 1] == init[..n + 1];
  }

  /** No call is queued while it is open: some round of the pass found it finished, or, where
      that is asked, finished it. */
  lemma {:induction false} QueuedAreFinished(t: Tables, items: seq<Item>, mode: Mode, id: nat) returns (n: nat)
    requires Attributed(t) && OneRowEach(t) && id in SyncPass(t, items, mode).queued
    ensures QueuedBy(t, items, n, mode, id)
  {
    var init := items[..|items| - 1];
    if id in SyncPass(t, init, mode).queued {
      n := QueuedAreFinished(t, init, mode, id);
      QueuedByStill(t, items, init, n, mode, id);
    } else {
      n := |init|;
      QueuedByLast(t, items, mode, id);
    }
  }

  /** Executions fetched for a batch carry its id unless they name one of their own. */
  function WithBatchId(p: Payload, voiceBatchId: string): Payload {
    if p.naming.batchId.Absent? then p.(naming := p.naming.(batchId := Text(voiceBatchId))) else p
  }

  function BatchItems(fetched: seq<Payload>, b: Batch): seq<Item>
    requires b.voiceId.Some?
  {
    seq(|fetched|, i requires 0 <= i < |fetched| => Item(WithBatchId(fetched[i], b.voiceId.value), b.client))
  }

  /** A new call of a batch pass: an execution that says nothing of a batch joins the one it
      was fetched for, and one whose batch is null joins none. */
  lemma FetchedJoinsBatch(t: Tables, p: Payload, b: nat, voiceBatchId: string, client: nat, id: nat)
    requires Attributed(t) && FindBatch(t, Some(voiceBatchId)) == One(b) && voiceBatchId != ""
    requires !Truthy(p.naming.runBatchId) && id !in t.calls
    requires Accepts(t, Delivered(WithBatchId(p, voiceBatchId), Some(client)), id)
    ensures var o := Sync(t, WithBatchId(p, voiceBatchId), Some(client)).value.tables.calls[id].owner;
            && (p.naming.batchId.Absent? ==> o.batch == Some(b) && o.client == t.batches[b].client)
            && (p.naming.batchId.Null? ==> o.batch == None && o.client == client)
  {
    var q := WithBatchId(p, voiceBatchId);
    var named := if p.naming.batchId.Absent? then Some(voiceBatchId) else None;
    if !p.naming.batchId.Text? {
      BatchIsNamed(q, named);
      assert NamesBatch(q, named);
    }
    CreatedRow(t, q, Some(client), id);
  }

  /** What the engine answers for the open calls, in their order; a call without an
      answer is passed over. */
  function SingleItems(open: seq<Call>, answers: string -> Option<Payload>): seq<Item> {
    if open == [] then []
    else
      var last := open[|open| - 1];
      var answer := answers(last.voiceId);
      SingleItems(open[..|open| - 1], answers) + if answer.Some? then [Item(answer.value, last.owner.client)] else []
  }

  lemma SingleNext(open: seq<Call>, i: nat, answers: string -> Option<Payload>)
    requires i < |open|
    ensures var answer := answers(open[i].voiceId);
            SingleItems(open[..i + 1], answers) ==
            SingleItems(open[..i], answers) + if answer.Some? then [Item(answer.value, open[i].owner.client)] else []
  {
    assert open[..i + 1][..i] == open[..i];
  }

  const MAX_CALLS_PER_PASS: nat := 200

  /** Single calls that are not finished, of those recorded since the look-back began.
      Ids are given in the order of creation, so `first` is the first id since then. */
  function OpenSingles(t: Tables, first: nat): set<nat> {
    set id | id in t.calls && id >= first && t.calls[id].owner.batch.None? && !Finished(t, id)
  }

  /** The oldest ones of a set, oldest first, up to the limit of a pass. */
  ghost predicate IsSelection(ids: seq<nat>, pool: set<nat>) {
    && (forall i, j :: 0 <= i < j < |ids| ==> ids[i] < ids[j])
    && (forall i :: 0 <= i < |ids| ==> ids[i] in pool)
    && |ids| == (if |pool| < MAX_CALLS_PER_PASS then |pool| else MAX_CALLS_PER_PASS)
    && (forall i, p :: 0 <= i < |ids| && p in pool && p !in ids ==> ids[i] < p)
  }

  /** Each is a single call recorded since the look-back began, and is not finished. */
  ghost predicate AreOpenSingles(ids: seq<nat>, t: Tables, first: nat) {
    forall id :: id in ids ==>
                   && id in t.calls && id >= first && t.calls[id].owner.batch == None
                   && t.calls[id].outcome.status !in CallStatus.TERMINAL_STATUSES
  }

  ghost predicate AreAllOpenSingles(ids: seq<nat>, t: Tables, first: nat) {
    forall id | id in t.calls && id >= first && id !in ids ::
      t.calls[id].owner.batch.Some? || t.calls[id].outcome.status in CallStatus.TERMINAL_STATUSES
  }

  ghost predicate Covers(ids: seq<nat>, pool: set<nat>) {
    forall p :: p in pool ==> p in ids
  }

  lemma SelectedAreOpen(ids: seq<nat>, t: Tables, first: nat)
    requires IsSelection(ids, OpenSingles(t, first))
    ensures AreOpenSingles(ids, t, first)
    ensures Covers(ids, OpenSingles(t, first)) ==> AreAllOpenSingles(ids, t, first)
  {
  }

  function RowsOf(t: Tables, ids: seq<nat>): seq<Call>
    requires forall i :: 0 <= i < |ids| ==> ids[i] in t.calls
  {
    seq(|ids|, i requires 0 <= i < |ids| => t.calls[ids[i]])
  }

  // ------------------------------------------------------------------------ the class

  class Database {
    var calls: map<nat, Call>
    var batches: map<nat, Batch>
    var clients: set<nat>
    var next: nat

    function Now(): Tables
      reads this
    {
      Tables(calls, batches, clients, next)
    }

    constructor ()
      ensures Now() == Tables(map[], map[], {}, 0)
    {
      calls, batches, clients, next := map[], map[], {}, 0;
    }

    /** `scalar_one_or_none` over the rows of every tenant. */
    method CallByVoiceId(voiceId: string) returns (found: Found)
      ensures found == FindCall(Now(), voiceId)
    {
      var rows := set id | id in calls && calls[id].voiceId == voiceId;
      assert forall id :: HasVoice(Now(), id, voiceId) <==> id in rows;
      if rows == {} { return Missing; }
      var row :| row in rows;
      if rows == {row} { return One(row); }
      assert HasVoice(Now(), row, voiceId);
      assert rows - {row} != {};
      ghost var other :| other in rows - {row};
      assert HasVoice(Now(), other, voiceId);
      return Many;
    }

    method BatchByVoiceId(voiceId: Option<string>) returns (found: Found)
      ensures found == FindBatch(Now(), voiceId)
    {
      if voiceId.None? { return Missing; }
      var rows := set b | b in batches && batches[b].voiceId == voiceId;
      assert forall b :: BatchHasVoice(Now(), b, voiceId.value) <==> b in rows;
      if rows == {} { return Missing; }
      var row :| row in rows;
      if rows == {row} { return One(row); }
      assert BatchHasVoice(Now(), row, voiceId.value);
      assert rows - {row} != {};
      ghost var other :| other in rows - {row};
      assert BatchHasVoice(Now(), other, voiceId.value);
      return Many;
    }

    method RecordCall(client: nat, agent: string, voiceId: string, status: string, refs: Refs)
      returns (r: Result<nat, Failure>)
      modifies this
      ensures Now() == old(Next(Now(), Placed(client, agent, voiceId, status, refs)))
      ensures r.Ok? <==> client in old(clients)
      ensures r.Ok? ==> HasVoice(Now(), r.value, voiceId) && calls[r.value].owner.client == client
    {
      if client !in clients { return Err(UnknownClient); }
      var rows := set id | id in calls && calls[id].owner.client == client && calls[id].voiceId == voiceId;
      if rows != {} {
        var row :| row in rows;
        return Ok(row);
      }
      assert forall id :: HasVoice(Now(), id, voiceId) && calls[id].owner.client == client ==> id in rows;
      calls := calls[next := Call(Owner(client, None, agent), voiceId, Blank(status), refs)];
      next := next + 1;
      r := Ok(next - 1);
    }

    /** The unique constraint on (client, voice batch id) refuses a second row. */
    method AddBatch(b: Batch)
      modifies this
      ensures Now() == old(Next(Now(), BatchMade(b)))
      ensures old(Attributed(Now()) && OneRowEach(Now())) ==> Kept(old(Now()), Now())
      ensures old(OneBatchEach(Now())) ==> OneBatchEach(Now())
    {
      ghost var before := Now();
      if Attributed(before) && OneRowEach(before) { NextKeeps(before, BatchMade(b)); }
      var taken := b.voiceId.Some?
                   && exists i :: i in batches && BatchHasVoice(Now(), i, b.voiceId.value)
                                    && batches[i].client == b.client;
      if b.client !in clients || taken { return; }
      batches := batches[next := b];
      next := next + 1;
    }

    method DeleteClientRows(client: nat)
      modifies this
      ensures Now() == old(DeleteClient(Now(), client))
      ensures old(Attributed(Now()) && OneRowEach(Now())) ==> Kept(old(Now()), Now())
      ensures forall id :: id in calls ==> calls[id].owner.client != client
      ensures forall b :: b in batches ==> batches[b].client != client
    {
      ghost var before := Now();
      if Attributed(before) && OneRowEach(before) { DeleteKeeps(before, client); }
      calls := map id | id in calls && calls[id].owner.client != client :: calls[id];
      batches := map b | b in batches && batches[b].client != client :: batches[b];
      clients := clients - {client};
    }

    /** The new row of an execution, if it can be attributed to a client. */
    method InsertCall(voiceId: string, p: Payload, caller: Option<nat>) returns (r: Result<Option<nat>, Failure>)
      modifies this
      ensures var was := old(Now());
              match OwnerOf(was, p, caller) {
                case Err(e) => r == Err(e)
                case Ok(None) => r == Ok(None) && Now() == was
                case Ok(Some(owner)) =>
                  if p.arrival.Raced? then r == Ok(None) && Now() == was
                  else if owner.client !in was.clients then r == Err(UnknownClient)
                  else r == Ok(Some(was.next)) && Now() == Inserted(was, NewCall(owner, voiceId, p))
              }
    {
      var batch := BatchByVoiceId(VoiceBatchId(p));
      if batch.Many? { return Err(Ambiguous); }
      if p.arrival.Raced? || (batch.Missing? && caller.None?) { return Ok(None); }
      var client := if batch.One? then batches[batch.id].client else caller.value;
      if client !in clients { return Err(UnknownClient); }
      var agent := if Truthy(p.naming.agentId) then p.naming.agentId.value
                   else if batch.One? then batches[batch.id].agent else "";
      calls := calls[next := NewCall(Owner(client, if batch.One? then Some(batch.id) else None, agent), voiceId, p)];
      next := next + 1;
      r := Ok(Some(next - 1));
    }

    /** Finds or inserts the row, then assigns its fields one by one; on an error
        the tables are left as they are at that moment. */
    method UpsertCall(p: Payload, caller: Option<nat>) returns (r: Result<Option<nat>, Failure>)
      modifies this
      ensures var was := old(Now());
              match Upsert(was, p, caller) {
                case Err(e) => r == Err(e)
                case Ok(s) => r == Ok(s.call) && Now() == s.tables
              }
    {
      var execution := ExecutionId(p);
      if execution.None? { return Ok(None); }
      var found := CallByVoiceId(execution.value);
      if found.Many? { return Err(Ambiguous); }
      var row: nat;
      if found.One? {
        row := found.id;
      } else {
        var made := InsertCall(execution.value, p, caller);
        if made.Err? || made.value.None? { return made; }
        row := made.value.value;
      }
      AssignFields(row, p);
      if !Storable(p) { return Err(Refused); }
      r := Ok(Some(row));
    }

    /** The loop over the payload's fields, `None` values skipped, and the references
        that are only filled in once. */
    method AssignFields(row: nat, p: Payload)
      requires row in calls
      modifies this`calls
      ensures calls == old(calls)[row := Written(old(calls)[row], p)]
    {
      var refs := calls[row].refs;
      if refs.contact.None? { refs := refs.(contact := ContactNumber(p)); }
      if refs.patient.None? { refs := refs.(patient := Patient(p)); }
      if refs.clientRef.None? { refs := refs.(clientRef := ClientRef(p)); }
      var o := Overwritten(calls[row].outcome, p);
      calls := calls[row := calls[row].(outcome := o, refs := refs)];
    }

    static method Overwritten(o: Outcome, p: Payload) returns (now: Outcome)
      ensures now == WrittenOutcome(o, p)
    {
      var transcript, recording, extracted, cost := o.transcript, o.recording, o.extracted, o.cost;
      var duration, hangup, retries := o.duration, o.hangup, o.retries;
      if Transcript(p).Some? { transcript := Transcript(p); }
      if RecordingUrl(p).Some? { recording := RecordingUrl(p); }
      if Extracted(p).Some? { extracted := Extracted(p); }
      if CostOf(p).Some? { cost := CostOf(p); }
      if Duration(p).Some? { duration := Duration(p); }
      if Hangup(p).Some? { hangup := Hangup(p); }
      if Retries(p).Some? { retries := Retries(p); }
      now := Outcome(StatusOf(p), transcript, recording, extracted, cost, duration, hangup, retries, Some(p));
    }

    method SyncExecution(p: Payload, caller: Option<nat>) returns (r: Result<(Option<nat>, bool), Failure>)
      modifies this
      ensures var was := old(Now());
              match Sync(was, p, caller) {
                case Err(e) => r == Err(e)
                case Ok(s) => r == Ok((s.call, s.justFinished)) && Now() == s.tables
              }
    {
      var execution := ExecutionId(p);
      var wasFinished := false;
      if execution.Some? {
        var found := CallByVoiceId(execution.value);
        if found.Many? { return Err(Ambiguous); }
        wasFinished := found.One? && CallStatus.IsTerminal(calls[found.id].outcome.status);
      }
      var id := UpsertCall(p, caller);
      if id.Err? { return Err(id.error); }
      var finished := id.value.Some? && CallStatus.IsTerminal(calls[id.value.value].outcome.status);
      r := Ok((id.value, finished && !wasFinished));
    }

    /** A client stops a call; the engine's status is stored if it gives one. */
    method StopCall(id: nat, status: string) returns (completes: bool)
      requires id in calls
      modifies this`calls
      ensures Now() == old(Next(Now(), Stopped(id, status)))
      ensures completes <==> old(Flags(Now(), Stopped(id, status), id))
    {
      if status == "" { return false; }
      var wasOpen := !CallStatus.IsTerminal(calls[id].outcome.status);
      calls := calls[id := calls[id].(outcome := calls[id].outcome.(status := status))];
      completes := wasOpen && CallStatus.IsTerminal(status);
    }

    /** One execution in its savepoint, which puts the tables back when it fails. */
    method SyncIsolated(p: Payload, client: nat) returns (r: Result<(Option<nat>, bool), Failure>)
      modifies this
      ensures var was := old(Now());
              match Sync(was, p, Some(client)) {
                case Err(e) => r == Err(e) && Now() == was
                case Ok(s) => r == Ok((s.call, s.justFinished)) && Now() == s.tables
              }
    {
      var savepoint := Now();
      r := SyncExecution(p, Some(client));
      if r.Err? {
        calls, batches, clients, next := savepoint.calls, savepoint.batches, savepoint.clients, savepoint.next;
      }
    }

    /** One round of a pass: sync the execution, and queue its call if it is due. */
    method SyncAndQueue(item: Item, mode: Mode, queued: seq<nat>) returns (more: seq<nat>)
      modifies this
      ensures PassStep(Pass(old(Now()), queued), item, mode) == Pass(Now(), more)
    {
      more := queued;
      var r := SyncIsolated(item.payload, item.client);
      if r.Ok? && r.value.0.Some? {
        var status := calls[r.value.0.value].outcome.status;
        var due := if mode.QueueTerminal? then CallStatus.IsTerminal(status) else r.value.1;
        if due { more := queued + [r.value.0.value]; }
      }
    }

    method SyncBatchExecutions(b: Batch, fetched: seq<Payload>) returns (queued: seq<nat>)
      modifies this
      ensures var was := old(Now());
              if b.voiceId.None? then queued == [] && Now() == was
              else SyncPass(was, BatchItems(fetched, b), QueueTerminal) == Pass(Now(), queued)
    {
      queued := [];
      if b.voiceId.None? { return; }
      ghost var was, items := Now(), BatchItems(fetched, b);
      for i := 0 to |fetched|
        invariant SyncPass(was, items[..i], QueueTerminal) == Pass(Now(), queued)
      {
        assert items[..i + 1] == items[..i] + [items[i]];
        PassNext(was, items[..i], items[i], QueueTerminal);
        queued := SyncAndQueue(Item(WithBatchId(fetched[i], b.voiceId.value), b.client), QueueTerminal, queued);
      }
      assert items[..|fetched|] == items;
    }

    /** The query for open single calls. */
    method SelectOpen(first: nat) returns (ids: seq<nat>)
      ensures IsSelection(ids, OpenSingles(Now(), first))
      ensures |ids| < MAX_CALLS_PER_PASS ==> Covers(ids, OpenSingles(Now(), first))
    {
      ids := [];
      var rest := OpenSingles(Now(), first);
      while rest != {} && |ids| < MAX_CALLS_PER_PASS
        invariant rest <= OpenSingles(Now(), first)
        invariant forall p :: p in OpenSingles(Now(), first) ==> (p in ids <==> p !in rest)
        invariant forall i, j :: 0 <= i < j < |ids| ==> ids[i] < ids[j]
        invariant forall i :: 0 <= i < |ids| ==> ids[i] in OpenSingles(Now(), first)
        invariant forall i, p :: 0 <= i < |ids| && p in rest ==> ids[i] < p
        invariant |ids| + |rest| == |OpenSingles(Now(), first)| && |ids| <= MAX_CALLS_PER_PASS
        decreases rest
      {
        var next := Least(rest);
        ids := ids + [next];
        rest := rest - {next};
      }
    }

    static method Least(rest: set<nat>) returns (least: nat)
      requires rest != {}
      ensures least in rest && forall p :: p in rest ==> least <= p
    {
      least :| least in rest;
      var todo := rest - {least};
      while todo != {}
        invariant todo <= rest && least in rest
        invariant forall p :: p in rest && p !in todo ==> least <= p
        decreases todo
      {
        var p :| p in todo;
        if p < least { least := p; }
        todo := todo - {p};
      }
    }

    /** The pass over the open single calls: each is fetched and synced for its client. */
    method SyncOpenSingleCalls(first: nat, answers: string -> Option<Payload>)
      returns (open: seq<nat>, queued: seq<nat>)
      modifies this
      ensures IsSelection(open, OpenSingles(old(Now()), first))
      ensures AreOpenSingles(open, old(Now()), first)
      ensures |open| < MAX_CALLS_PER_PASS ==> AreAllOpenSingles(open, old(Now()), first)
      ensures SyncPass(old(Now()), SingleItems(RowsOf(old(Now()), open), answers), QueueFinished) == Pass(Now(), queued)
    {
      open := SelectOpen(first);
      SelectedAreOpen(open, Now(), first);
      queued := SyncSingles(RowsOf(Now(), open), answers);
    }

    method SyncSingles(open: seq<Call>, answers: string -> Option<Payload>) returns (queued: seq<nat>)
      modifies this
      ensures SyncPass(old(Now()), SingleItems(open, answers), QueueFinished) == Pass(Now(), queued)
    {
      queued := [];
      ghost var was := Now();
      for i := 0 to |open|
        invariant SyncPass(was, SingleItems(open[..i], answers), QueueFinished) == Pass(Now(), queued)
      {
        SingleNext(open, i, answers);
        var answer := answers(open[i].voiceId);
        if answer.Some? {
          PassNext(was, SingleItems(open[..i], answers), Item(answer.value, open[i].owner.client), QueueFinished);
          queued := SyncAndQueue(Item(answer.value, open[i].owner.client), QueueFinished, queued);
        } else {
          assert SingleItems(open[..i + 1], answers) == SingleItems(open[..i], answers);
        }
      }
      assert open[..|open|] == open;
    }
  }
}
