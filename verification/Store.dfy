/**
 The calls and batches tables and what voice-engine payloads do to them
 (app/services/store.py, `sync_execution` in app/services/call_sync.py,
 `delete_client` in app/services/tenants.py): the operations as functions on tables.
 `CallStore` has the code's own stepwise form of them.
 */
module Store {
  import opened Wrappers
  import CallStatus

  // ------------------------------------------------------------------- payloads

  /** A key of an untrusted object: it may be absent, or present and null. */
  datatype Field = Absent | Null | Text(text: string)

  datatype Cost = NoCost | Minor(units: int) | NotNumeric

  datatype Naming = Naming(id: Option<string>, executionId: Option<string>, runBatchId: Option<string>,
                           batchId: Field, agentId: Option<string>)

  datatype Telephony = Telephony(recordingUrl: Option<string>, hangupReason: Option<string>,
                                 hangupBy: Option<string>, duration: Option<int>)

  datatype Body = Body(status: Option<string>, transcript: Option<string>, extracted: Option<string>,
                       cost: Cost, conversation: Option<int>, retries: Option<int>, telephony: Telephony)

  datatype Person = Person(toNumber: Option<string>, userNumber: Option<string>, recipientNumber: Option<string>,
                           patient: Option<string>, clientRef: Option<string>)

  /** How the database takes a payload: it may refuse the row, over a value of the wrong
      type or one that is too long; and it may do nothing with a new row, because another
      transaction, which cannot be seen yet, is inserting the same one. */
  datatype Arrival = Accepted | Refuses | Raced

  datatype Payload = Payload(naming: Naming, body: Body, person: Person, arrival: Arrival)

  predicate Storable(p: Payload) { !p.arrival.Refuses? }

  predicate Truthy(v: Option<string>) { v.Some? && v.value != "" }

  /** Python's `a or b`. */
  function Or(a: Option<string>, b: Option<string>): Option<string> {
    if Truthy(a) then a else b
  }

  function OrNumber(a: Option<int>, b: Option<int>): Option<int> {
    if a.Some? && a.value != 0 then a else b
  }

  function ExecutionId(p: Payload): Option<string> {
    var id := Or(p.naming.id, p.naming.executionId);
    if Truthy(id) then id else None
  }

  function VoiceBatchId(p: Payload): Option<string> {
    if Truthy(p.naming.runBatchId) then p.naming.runBatchId
    else if p.naming.batchId.Text? && p.naming.batchId.text != "" then Some(p.naming.batchId.text)
    else None
  }

  function ContactNumber(p: Payload): Option<string> {
    Or(Or(p.person.toNumber, p.person.userNumber), p.person.recipientNumber)
  }

  function Patient(p: Payload): Option<string> { p.person.patient }

  function ClientRef(p: Payload): Option<string> { p.person.clientRef }

  function StatusOf(p: Payload): string {
    if Truthy(p.body.status) then p.body.status.value else "pending"
  }

  function Transcript(p: Payload): Option<string> { p.body.transcript }

  function RecordingUrl(p: Payload): Option<string> { p.body.telephony.recordingUrl }

  function Extracted(p: Payload): Option<string> { p.body.extracted }

  /** A cost that is not a number is ignored; amounts stay in minor units here. */
  function CostOf(p: Payload): Option<int> {
    if p.body.cost.Minor? then Some(p.body.cost.units) else None
  }

  function Duration(p: Payload): Option<int> { OrNumber(p.body.conversation, p.body.telephony.duration) }

  function Hangup(p: Payload): Option<string> { Or(p.body.telephony.hangupReason, p.body.telephony.hangupBy) }

  function Retries(p: Payload): Option<int> { p.body.retries }

  function Raw(p: Payload): Option<Payload> { Some(p) }

  // ----------------------------------------------------------------------- rows

  datatype Owner = Owner(client: nat, batch: Option<nat>, agent: string)

  datatype Outcome = Outcome(status: string, transcript: Option<string>, recording: Option<string>,
                             extracted: Option<string>, cost: Option<int>, duration: Option<int>,
                             hangup: Option<string>, retries: Option<int>, raw: Option<Payload>)

  datatype Refs = Refs(contact: Option<string>, patient: Option<string>, clientRef: Option<string>)

  datatype Call = Call(owner: Owner, voiceId: string, outcome: Outcome, refs: Refs)

  datatype Batch = Batch(client: nat, voiceId: Option<string>, agent: string)

  /** The tables; `next` is above every id ever given to a row. */
  datatype Tables = Tables(calls: map<nat, Call>, batches: map<nat, Batch>, clients: set<nat>, next: nat)

  function Blank(status: string): Outcome {
    Outcome(status, None, None, None, None, None, None, None, None)
  }

  function Later<T>(before: Option<T>, given: Option<T>): Option<T> {
    if given.Some? then given else before
  }

  function Earlier<T>(before: Option<T>, given: Option<T>): Option<T> {
    if before.Some? then before else given
  }

  /** Fields the payload leaves out keep their values, except the status. */
  function WrittenOutcome(o: Outcome, p: Payload): Outcome {
    Outcome(StatusOf(p), Later(o.transcript, Transcript(p)), Later(o.recording, RecordingUrl(p)),
            Later(o.extracted, Extracted(p)), Later(o.cost, CostOf(p)), Later(o.duration, Duration(p)),
            Later(o.hangup, Hangup(p)), Later(o.retries, Retries(p)), Later(o.raw, Raw(p)))
  }

  function WrittenRefs(r: Refs, p: Payload): Refs {
    Refs(Earlier(r.contact, ContactNumber(p)), Earlier(r.patient, Patient(p)), Earlier(r.clientRef, ClientRef(p)))
  }

  function Written(c: Call, p: Payload): Call {
    c.(outcome := WrittenOutcome(c.outcome, p), refs := WrittenRefs(c.refs, p))
  }

  // -------------------------------------------------------------------- look-ups

  datatype Found = Missing | One(id: nat) | Many

  predicate HasVoice(t: Tables, id: nat, voiceId: string) {
    id in t.calls && t.calls[id].voiceId == voiceId
  }

  predicate BatchHasVoice(t: Tables, b: nat, voiceId: string) {
    b in t.batches && t.batches[b].voiceId == Some(voiceId)
  }

  /** The look-up across tenants; several rows are an error, not a choice. */
  ghost function FindCall(t: Tables, voiceId: string): (found: Found)
    ensures found.Missing? <==> forall id :: !HasVoice(t, id, voiceId)
    ensures forall id :: found == One(id) <==>
                           HasVoice(t, id, voiceId) && forall other :: HasVoice(t, other, voiceId) ==> other == id
  {
    if exists id :: HasVoice(t, id, voiceId) then
      var id :| HasVoice(t, id, voiceId);
      if forall other :: HasVoice(t, other, voiceId) ==> other == id then One(id) else Many
    else Missing
  }

  ghost function FindBatch(t: Tables, voiceId: Option<string>): (found: Found)
    ensures voiceId.None? ==> found.Missing?
    ensures voiceId.Some? ==> (found.Missing? <==> forall b :: !BatchHasVoice(t, b, voiceId.value))
    ensures forall b :: found == One(b) <==>
                          && voiceId.Some? && BatchHasVoice(t, b, voiceId.value)
                          && forall other :: BatchHasVoice(t, other, voiceId.value) ==> other == b
  {
    if voiceId.Some? && exists b :: BatchHasVoice(t, b, voiceId.value) then
      var b :| BatchHasVoice(t, b, voiceId.value);
      if forall other :: BatchHasVoice(t, other, voiceId.value) ==> other == b then One(b) else Many
    else Missing
  }

  // ------------------------------------------------------------------ operations

  datatype Failure = Ambiguous | Refused | UnknownClient | Duplicate

  datatype Stored = Stored(tables: Tables, call: Option<nat>)

  function Inserted(t: Tables, c: Call): Tables {
    t.(calls := t.calls[t.next := c], next := t.next + 1)
  }

  function AgentOf(p: Payload, default: string): string {
    if Truthy(p.naming.agentId) then p.naming.agentId.value else default
  }

  /** Whose call a new execution is: its batch's client's, or else the caller's. */
  ghost function OwnerOf(t: Tables, p: Payload, client: Option<nat>): Result<Option<Owner>, Failure> {
    match FindBatch(t, VoiceBatchId(p))
    case Many => Err(Ambiguous)
    case One(b) =>
      Ok(Some(Owner(t.batches[b].client, Some(b), AgentOf(p, t.batches[b].agent))))
    case Missing =>
      Ok(if client.Some? then Some(Owner(client.value, None, AgentOf(p, ""))) else None)
  }

  function NewCall(o: Owner, voiceId: string, p: Payload): Call {
    Call(o, voiceId, Blank("pending"), Refs(ContactNumber(p), Patient(p), ClientRef(p)))
  }

  ghost function Upsert(t: Tables, p: Payload, client: Option<nat>): Result<Stored, Failure> {
    var execution := ExecutionId(p);
    if execution.None? then Ok(Stored(t, None))
    else
      match FindCall(t, execution.value)
      case Many => Err(Ambiguous)
      case One(id) =>
        if Storable(p) then Ok(Stored(t.(calls := t.calls[id := Written(t.calls[id], p)]), Some(id)))
        else Err(Refused)
      case Missing =>
        var owner := OwnerOf(t, p, client);
        if owner.Err? then Err(owner.error)
        else if owner.value.None? || p.arrival.Raced? then Ok(Stored(t, None))
        else if owner.value.value.client !in t.clients then Err(UnknownClient)
        else if !Storable(p) then Err(Refused)
        else Ok(Stored(Inserted(t, Written(NewCall(owner.value.value, execution.value, p), p)), Some(t.next)))
  }

  predicate Finished(t: Tables, id: nat) {
    id in t.calls && CallStatus.IsTerminal(t.calls[id].outcome.status)
  }

  datatype Synced = Synced(tables: Tables, call: Option<nat>, justFinished: bool)

  /** The status before the update decides with the one after it. */
  ghost function Sync(t: Tables, p: Payload, client: Option<nat>): Result<Synced, Failure> {
    var execution := ExecutionId(p);
    var found := if execution.Some? then FindCall(t, execution.value) else Missing;
    if found.Many? then Err(Ambiguous)
    else
      var r := Upsert(t, p, client);
      if r.Err? then Err(r.error)
      else
        var id := r.value.call;
        var wasFinished := found.One? && Finished(t, found.id);
        Ok(Synced(r.value.tables, id, id.Some? && Finished(r.value.tables, id.value) && !wasFinished))
  }

  /** A single call is recorded when it is placed, unless its row is there already. */
  function Place(t: Tables, o: Owner, voiceId: string, status: string, refs: Refs): Result<Tables, Failure>
    requires o.batch.None?
  {
    if o.client !in t.clients then Err(UnknownClient)
    else if exists id :: id in t.calls && HasVoice(t, id, voiceId) && t.calls[id].owner.client == o.client
    then Ok(t)
    else Ok(Inserted(t, Call(o, voiceId, Blank(status), refs)))
  }

  function RecordBatch(t: Tables, b: Batch): Result<Tables, Failure> {
    if b.client !in t.clients then Err(UnknownClient)
    else if b.voiceId.Some?
            && exists i :: i in t.batches && BatchHasVoice(t, i, b.voiceId.value) && t.batches[i].client == b.client
    then Err(Duplicate)
    else Ok(t.(batches := t.batches[t.next := b], next := t.next + 1))
  }

  function DeleteClient(t: Tables, client: nat): Tables {
    t.(calls := map id | id in t.calls && t.calls[id].owner.client != client :: t.calls[id],
       batches := map b | b in t.batches && t.batches[b].client != client :: t.batches[b],
       clients := t.clients - {client})
  }

  // ----------------------------------------------------------------------- runs

  datatype Event =
    | Registered
    | Placed(client: nat, agent: string, voiceId: string, status: string, refs: Refs)
    | BatchMade(batch: Batch)
    | Delivered(payload: Payload, caller: Option<nat>)
    | Stopped(id: nat, status: string)  // the engine's answer to a client's stop request
    | ClientDeleted(client: nat)

  /** One transaction; a failed one is rolled back. */
  ghost function Next(t: Tables, e: Event): Tables {
    match e
    case Registered => t.(clients := t.clients + {t.next}, next := t.next + 1)
    case Placed(client, agent, voiceId, status, refs) =>
      var r := Place(t, Owner(client, None, agent), voiceId, status, refs);
      if r.Ok? then r.value else t
    case BatchMade(batch) =>
      var r := RecordBatch(t, batch);
      if r.Ok? then r.value else t
    case Delivered(payload, caller) =>
      var r := Sync(t, payload, caller);
      if r.Ok? then r.value.tables else t
    case Stopped(id, status) => if id in t.calls && status != "" then WithStatus(t, id, status) else t
    case ClientDeleted(client) => DeleteClient(t, client)
  }

  function WithStatus(t: Tables, id: nat, status: string): Tables
    requires id in t.calls
  {
    t.(calls := t.calls[id := t.calls[id].(outcome := t.calls[id].outcome.(status := status))])
  }

  ghost function Run(t: Tables, events: seq<Event>): Tables {
    if events == [] then t else Next(Run(t, events[..|events| - 1]), events[|events| - 1])
  }

  lemma {:induction false} RunPrefix(t: Tables, events: seq<Event>, n: nat)
    requires n < |events|
    ensures Run(t, events[..n + 1]) == Next(Run(t, events[..n]), events[n])
  {
    assert events[..n + 1][..n] == events[..n];
  }

  // ---------------------------------------------------------------- attribution

  /** Every call and batch has a live client, and a call in a batch has the
      client of its batch. */
  ghost predicate Attributed(t: Tables) {
    && (forall id :: id in t.calls ==> id < t.next && t.calls[id].owner.client in t.clients)
    && (forall b :: b in t.batches ==> b < t.next && t.batches[b].client in t.clients)
    && (forall id :: id in t.calls && t.calls[id].owner.batch.Some? ==>
          && t.calls[id].owner.batch.value in t.batches
          && t.batches[t.calls[id].owner.batch.value].client == t.calls[id].owner.client)
  }

  /** A tenant has one row per execution. */
  ghost predicate OneRowEach(t: Tables) {
    forall i, j ::
      (&& i in t.calls && j in t.calls && t.calls[i].voiceId == t.calls[j].voiceId
       && t.calls[i].owner.client == t.calls[j].owner.client) ==> i == j
  }

  /** A client has one batch per voice-engine batch. */
  ghost predicate OneBatchEach(t: Tables) {
    forall i, j ::
      (&& i in t.batches && j in t.batches && t.batches[i].voiceId.Some? && t.batches[i].voiceId == t.batches[j].voiceId
       && t.batches[i].client == t.batches[j].client) ==> i == j
  }

  /** Rows that stay keep their owner, and ids are not given twice. */
  ghost predicate OwnersKept(t: Tables, u: Tables) {
    && t.next <= u.next
    && (forall id :: id in u.calls && id < t.next ==>
          id in t.calls && u.calls[id].owner == t.calls[id].owner && u.calls[id].voiceId == t.calls[id].voiceId)
    && (forall b :: b in u.batches && b < t.next ==> b in t.batches && u.batches[b] == t.batches[b])
  }

  ghost predicate Kept(t: Tables, u: Tables) {
    Attributed(u) && OneRowEach(u) && OwnersKept(t, u)
  }

  lemma InsertKeeps(t: Tables, c: Call)
    requires Attributed(t) && OneRowEach(t)
    requires c.owner.client in t.clients
    requires c.owner.batch.Some? ==>
               c.owner.batch.value in t.batches && t.batches[c.owner.batch.value].client == c.owner.client
    requires forall id :: id in t.calls && t.calls[id].owner.client == c.owner.client ==>
              t.calls[id].voiceId != c.voiceId
    ensures Kept(t, Inserted(t, c))
  {
  }

  lemma RewriteKeeps(t: Tables, id: nat, c: Call)
    requires Attributed(t) && OneRowEach(t)
    requires id in t.calls && c.owner == t.calls[id].owner && c.voiceId == t.calls[id].voiceId
    ensures Kept(t, t.(calls := t.calls[id := c]))
  {
  }

  lemma UpsertKeeps(t: Tables, p: Payload, client: Option<nat>)
    requires Attributed(t) && OneRowEach(t) && Upsert(t, p, client).Ok?
    ensures Kept(t, Upsert(t, p, client).value.tables)
  {
    var execution := ExecutionId(p);
    if execution.Some? {
      var found := FindCall(t, execution.value);
      if found.One? {
        RewriteKeeps(t, found.id, Written(t.calls[found.id], p));
      } else {
        var owner := OwnerOf(t, p, client);
        if owner.value.Some? && !p.arrival.Raced? {
          NewOwner(t, p, client);
          assert forall id :: id in t.calls ==> !HasVoice(t, id, execution.value);
          InsertKeeps(t, Written(NewCall(owner.value.value, execution.value, p), p));
        }
      }
    }
  }

  lemma NewOwner(t: Tables, p: Payload, client: Option<nat>)
    requires OwnerOf(t, p, client).Ok? && OwnerOf(t, p, client).value.Some?
    ensures var o := OwnerOf(t, p, client).value.value;
            o.batch.Some? ==> o.batch.value in t.batches && t.batches[o.batch.value].client == o.client
  {
  }

  lemma DeleteKeeps(t: Tables, client: nat)
    requires Attributed(t) && OneRowEach(t)
    ensures Kept(t, DeleteClient(t, client))
  {
  }

  lemma NextKeeps(t: Tables, e: Event)
    requires Attributed(t) && OneRowEach(t)
    ensures Kept(t, Next(t, e))
  {
    match e
    case Placed(client, agent, voiceId, status, refs) =>
      var r := Place(t, Owner(client, None, agent), voiceId, status, refs);
      if r.Ok? && r.value != t { InsertKeeps(t, Call(Owner(client, None, agent), voiceId, Blank(status), refs)); }
    case Delivered(payload, caller) =>
      if Sync(t, payload, caller).Ok? { UpsertKeeps(t, payload, caller); }
    case Stopped(id, status) =>
      if id in t.calls { RewriteKeeps(t, id, t.calls[id].(outcome := t.calls[id].outcome.(status := status))); }
    case ClientDeleted(client) => DeleteKeeps(t, client);
    case _ =>
  }

  /** Over any run, calls stay attributed to their batch's client, and no row
      changes hands. */
  lemma {:induction false} RunKeeps(t: Tables, events: seq<Event>)
    requires Attributed(t) && OneRowEach(t)
    ensures Kept(t, Run(t, events))
  {
    if events != [] {
      RunKeeps(t, events[..|events| - 1]);
      NextKeeps(Run(t, events[..|events| - 1]), events[|events| - 1]);
    }
  }

  /** Deleting a client removes all that was its own, and nothing else. */
  lemma DeletionIsClean(t: Tables, client: nat)
    requires Attributed(t)
    ensures var u := DeleteClient(t, client);
            && Attributed(u)
            && (forall id :: id in u.calls <==> id in t.calls && t.calls[id].owner.client != client)
            && (forall id :: id in t.calls && t.calls[id].owner.batch.Some? && id in u.calls ==>
                  t.calls[id].owner.batch.value in u.batches)
  {
  }

  /** The client that a caller passes decides something exactly for a new execution that
      names no known batch: otherwise every caller gets the same rows. */
  lemma CallerMattersIff(t: Tables, p: Payload)
    ensures (exists a, b :: Upsert(t, p, a) != Upsert(t, p, b)) <==>
            && ExecutionId(p).Some? && FindCall(t, ExecutionId(p).value).Missing?
            && FindBatch(t, VoiceBatchId(p)).Missing? && !p.arrival.Raced?
  {
    if ExecutionId(p).Some? && FindCall(t, ExecutionId(p).value).Missing? && FindBatch(t, VoiceBatchId(p)).Missing?
       && !p.arrival.Raced?
    {
      assert Upsert(t, p, None) == Ok(Stored(t, None));
      assert Upsert(t, p, Some(0)) != Upsert(t, p, None);
    }
  }

  // ------------------------------------------------------------------- the fold

  /** The payload was accepted for this row. */
  ghost predicate Accepts(t: Tables, e: Event, id: nat) {
    && e.Delivered?
    && Sync(t, e.payload, e.caller).Ok?
    && Sync(t, e.payload, e.caller).value.call == Some(id)
  }

  /** The payloads accepted for a row in the course of a run. */
  ghost function AcceptedFor(t: Tables, events: seq<Event>, id: nat): seq<Payload> {
    if events == [] then []
    else
      var init := events[..|events| - 1];
      var e := events[|events| - 1];
      AcceptedFor(t, init, id) + (if Accepts(Run(t, init), e, id) then [e.payload] else [])
  }

  /** The status that a step writes into this row. */
  ghost function StatusWritten(t: Tables, e: Event, id: nat): Option<string> {
    if Accepts(t, e, id) then Some(StatusOf(e.payload))
    else if e.Stopped? && e.id == id && id in t.calls && e.status != "" then Some(e.status)
    else None
  }

  /** The status after a run, by what was written. */
  ghost function LastStatus(t: Tables, events: seq<Event>, id: nat, before: string): string {
    if events == [] then before
    else
      var init := events[..|events| - 1];
      var written := StatusWritten(Run(t, init), events[|events| - 1], id);
      if written.Some? then written.value else LastStatus(t, init, id, before)
  }

  /** What the payloads give for one column. */
  function Column<T>(ps: seq<Payload>, f: Payload -> Option<T>): seq<Option<T>> {
    seq(|ps|, i requires 0 <= i < |ps| => f(ps[i]))
  }

  ghost predicate NoneGiven<T>(given: seq<Option<T>>) {
    forall i :: 0 <= i < |given| ==> given[i].None?
  }

  ghost predicate LastGivenAt<T>(given: seq<Option<T>>, i: nat) {
    i < |given| && given[i].Some? && forall j :: i < j < |given| ==> given[j].None?
  }

  /** The value is the last one given, or the earlier value if none was given. */
  ghost predicate IsLastGiven<T>(before: Option<T>, given: seq<Option<T>>, after: Option<T>) {
    (NoneGiven(given) && after == before) || exists i: nat :: LastGivenAt(given, i) && after == given[i]
  }

  ghost predicate FirstGivenAt<T>(given: seq<Option<T>>, i: nat) {
    i < |given| && given[i].Some? && forall j :: 0 <= j < i ==> given[j].None?
  }

  /** The value is the earlier value, or the first one given if there was none. */
  ghost predicate IsFirstGiven<T>(before: Option<T>, given: seq<Option<T>>, after: Option<T>) {
    if before.Some? then after == before
    else (NoneGiven(given) && after == None) || exists i: nat :: FirstGivenAt(given, i) && after == given[i]
  }

  lemma LastGivenNext<T>(before: Option<T>, given: seq<Option<T>>, mid: Option<T>, next: Option<T>)
    requires IsLastGiven(before, given, mid)
    ensures IsLastGiven(before, given + [next], Later(mid, next))
  {
    var more := given + [next];
    if next.Some? {
      assert LastGivenAt(more, |given|);
    } else if !NoneGiven(given) || mid != before {
      var i: nat :| LastGivenAt(given, i) && mid == given[i];
      assert LastGivenAt(more, i) && more[i] == given[i];
    }
  }

  lemma FirstGivenNext<T>(before: Option<T>, given: seq<Option<T>>, mid: Option<T>, next: Option<T>)
    requires IsFirstGiven(before, given, mid)
    ensures IsFirstGiven(before, given + [next], Earlier(mid, next))
  {
    var more := given + [next];
    if before.None? {
      if mid.Some? {
        var i: nat :| FirstGivenAt(given, i) && mid == given[i];
        assert FirstGivenAt(more, i) && more[i] == given[i];
      } else if next.Some? {
        assert FirstGivenAt(more, |given|);
      }
    }
  }

  ghost predicate OutcomeIsFold(before: Outcome, ps: seq<Payload>, after: Outcome) {
    && IsLastGiven(before.transcript, Column(ps, Transcript), after.transcript)
    && IsLastGiven(before.recording, Column(ps, RecordingUrl), after.recording)
    && IsLastGiven(before.extracted, Column(ps, Extracted), after.extracted)
    && IsLastGiven(before.cost, Column(ps, CostOf), after.cost)
    && IsLastGiven(before.duration, Column(ps, Duration), after.duration)
    && IsLastGiven(before.hangup, Column(ps, Hangup), after.hangup)
    && IsLastGiven(before.retries, Column(ps, Retries), after.retries)
    && after.raw == (if ps == [] then before.raw else Some(ps[|ps| - 1]))
  }

  ghost predicate RefsAreFold(before: Refs, ps: seq<Payload>, after: Refs) {
    && IsFirstGiven(before.contact, Column(ps, ContactNumber), after.contact)
    && IsFirstGiven(before.patient, Column(ps, Patient), after.patient)
    && IsFirstGiven(before.clientRef, Column(ps, ClientRef), after.clientRef)
  }

  lemma ColumnNext<T>(ps: seq<Payload>, p: Payload, f: Payload -> Option<T>)
    ensures Column(ps + [p], f) == Column(ps, f) + [f(p)]
  {
  }

  lemma ColumnLast<T>(before: Option<T>, ps: seq<Payload>, mid: Option<T>, p: Payload, f: Payload -> Option<T>)
    requires IsLastGiven(before, Column(ps, f), mid)
    ensures IsLastGiven(before, Column(ps + [p], f), Later(mid, f(p)))
  {
    ColumnNext(ps, p, f);
    LastGivenNext(before, Column(ps, f), mid, f(p));
  }

  lemma ColumnFirst<T>(before: Option<T>, ps: seq<Payload>, mid: Option<T>, p: Payload, f: Payload -> Option<T>)
    requires IsFirstGiven(before, Column(ps, f), mid)
    ensures IsFirstGiven(before, Column(ps + [p], f), Earlier(mid, f(p)))
  {
    ColumnNext(ps, p, f);
    FirstGivenNext(before, Column(ps, f), mid, f(p));
  }

  lemma NothingGiven(o: Outcome, r: Refs)
    ensures OutcomeIsFold(o, [], o) && RefsAreFold(r, [], r)
  {
  }

  lemma OutcomeFolds(before: Outcome, ps: seq<Payload>, mid: Outcome, p: Payload)
    requires OutcomeIsFold(before, ps, mid)
    ensures OutcomeIsFold(before, ps + [p], WrittenOutcome(mid, p))
  {
    ColumnLast(before.transcript, ps, mid.transcript, p, Transcript);
    ColumnLast(before.recording, ps, mid.recording, p, RecordingUrl);
    ColumnLast(before.extracted, ps, mid.extracted, p, Extracted);
    ColumnLast(before.cost, ps, mid.cost, p, CostOf);
    ColumnLast(before.duration, ps, mid.duration, p, Duration);
    ColumnLast(before.hangup, ps, mid.hangup, p, Hangup);
    ColumnLast(before.retries, ps, mid.retries, p, Retries);
  }

  lemma StatusIsNoColumn(before: Outcome, ps: seq<Payload>, mid: Outcome, after: Outcome)
    requires OutcomeIsFold(before, ps, mid) && after == mid.(status := after.status)
    ensures OutcomeIsFold(before, ps, after)
  {
  }

  lemma RefsFold(before: Refs, ps: seq<Payload>, mid: Refs, p: Payload)
    requires RefsAreFold(before, ps, mid)
    ensures RefsAreFold(before, ps + [p], WrittenRefs(mid, p))
  {
    ColumnFirst(before.contact, ps, mid.contact, p, ContactNumber);
    ColumnFirst(before.patient, ps, mid.patient, p, Patient);
    ColumnFirst(before.clientRef, ps, mid.clientRef, p, ClientRef);
  }

  /** What a step does to a row that is there before and after it. */
  lemma RowNext(t: Tables, e: Event, id: nat)
    requires Attributed(t) && OneRowEach(t) && id in t.calls && id in Next(t, e).calls
    ensures var c, written := t.calls[id], StatusWritten(t, e, id);
            Next(t, e).calls[id] == if Accepts(t, e, id) then Written(c, e.payload)
                                    else if written.Some? then c.(outcome := c.outcome.(status := written.value))
                                    else c
  {
  }

  /** A row holds, column by column, what the payloads accepted for it say: the last value
      given for an outcome, the first one for a reference; and its status is the last one
      written, by a payload ("pending" if it has none) or by a stop. */
  lemma {:induction false} RowIsFold(t: Tables, events: seq<Event>, id: nat)
    requires Attributed(t) && OneRowEach(t) && id in t.calls && id in Run(t, events).calls
    ensures var ps := AcceptedFor(t, events, id);
            && OutcomeIsFold(t.calls[id].outcome, ps, Run(t, events).calls[id].outcome)
            && RefsAreFold(t.calls[id].refs, ps, Run(t, events).calls[id].refs)
    ensures Run(t, events).calls[id].outcome.status == LastStatus(t, events, id, t.calls[id].outcome.status)
  {
    if events != [] {
      var init, e := events[..|events| - 1], events[|events| - 1];
      var mid := Run(t, init);
      RunKeeps(t, init);
      NextKeeps(mid, e);
      RowIsFold(t, init, id);
      RowNext(mid, e, id);
      if Accepts(mid, e, id) {
        OutcomeFolds(t.calls[id].outcome, AcceptedFor(t, init, id), mid.calls[id].outcome, e.payload);
        RefsFold(t.calls[id].refs, AcceptedFor(t, init, id), mid.calls[id].refs, e.payload);
      } else {
        assert AcceptedFor(t, events, id) == AcceptedFor(t, init, id);
        StatusIsNoColumn(t.calls[id].outcome, AcceptedFor(t, init, id), mid.calls[id].outcome,
                         Run(t, events).calls[id].outcome);
      }
    } else {
      NothingGiven(t.calls[id].outcome, t.calls[id].refs);
    }
  }

  // ------------------------------------------------------ the payload, key by key

  /** Of several keys, the first whose value is neither missing nor empty. */
  predicate IsPick<T(==)>(choices: seq<Option<T>>, empty: T, i: nat) {
    && i < |choices| && choices[i].Some? && choices[i].value != empty
    && forall j :: 0 <= j < i ==> choices[j].None? || choices[j].value == empty
  }

  ghost predicate Picks<T>(choices: seq<Option<T>>, empty: T, picked: Option<T>) {
    exists i: nat :: IsPick(choices, empty, i) && picked == choices[i]
  }

  /** The column takes the pick; without one it takes the last value, empty as it is, and
      keeps its own where that key is missing. */
  ghost predicate Stores<T>(choices: seq<Option<T>>, empty: T, before: Option<T>, after: Option<T>) {
    || Picks(choices, empty, after)
    || (&& (forall i :: 0 <= i < |choices| ==> choices[i].None? || choices[i].value == empty)
        && after == if choices != [] && choices[|choices| - 1].Some? then choices[|choices| - 1] else before)
  }

  lemma OneStores<T>(a: Option<T>, empty: T, before: Option<T>)
    ensures Stores([a], empty, before, if a.Some? then a else before)
  {
    if a.Some? && a.value != empty { assert IsPick([a], empty, 0); }
  }

  lemma EitherStores<T>(a: Option<T>, b: Option<T>, empty: T, before: Option<T>)
    ensures var or := if a.Some? && a.value != empty then a else b;
            Stores([a, b], empty, before, if or.Some? then or else before)
  {
    if a.Some? && a.value != empty { assert IsPick([a, b], empty, 0); }
    else if b.Some? && b.value != empty { assert IsPick([a, b], empty, 1); }
  }

  lemma AnyStores(a: Option<string>, b: Option<string>, c: Option<string>, before: Option<string>)
    ensures Stores([a, b, c], "", before, Later(before, Or(Or(a, b), c)))
  {
    if Truthy(a) { assert IsPick([a, b, c], "", 0); }
    else if Truthy(b) { assert IsPick([a, b, c], "", 1); }
    else if Truthy(c) { assert IsPick([a, b, c], "", 2); }
  }

  /** Every column of the outcome after a payload, by the keys of the payload. */
  ghost predicate OutcomeStored(before: Outcome, p: Payload, after: Outcome) {
    && after.status == (if p.body.status.Some? && p.body.status.value != "" then p.body.status.value else "pending")
    && Stores([p.body.transcript], "", before.transcript, after.transcript)
    && Stores([p.body.telephony.recordingUrl], "", before.recording, after.recording)
    && Stores([p.body.extracted], "", before.extracted, after.extracted)
    && after.cost == (match p.body.cost case Minor(units) => Some(units) case _ => before.cost)
    && Stores([p.body.conversation, p.body.telephony.duration], 0, before.duration, after.duration)
    && Stores([p.body.telephony.hangupReason, p.body.telephony.hangupBy], "", before.hangup, after.hangup)
    && Stores([p.body.retries], 0, before.retries, after.retries)
    && after.raw == Some(p)
  }

  /** The references are filled once; the contact is the number called, or else the
      user's, or else the recipient's. */
  ghost predicate RefsStored(before: Refs, p: Payload, after: Refs) {
    && (if before.contact.Some? then after.contact == before.contact
        else Stores([p.person.toNumber, p.person.userNumber, p.person.recipientNumber], "", None, after.contact))
    && after.patient == (if before.patient.Some? then before.patient else p.person.patient)
    && after.clientRef == (if before.clientRef.Some? then before.clientRef else p.person.clientRef)
  }

  lemma OutcomeIsStored(o: Outcome, p: Payload)
    ensures OutcomeStored(o, p, WrittenOutcome(o, p))
  {
    OneStores(p.body.transcript, "", o.transcript);
    OneStores(p.body.telephony.recordingUrl, "", o.recording);
    OneStores(p.body.extracted, "", o.extracted);
    OneStores(p.body.retries, 0, o.retries);
    EitherStores(p.body.conversation, p.body.telephony.duration, 0, o.duration);
    EitherStores(p.body.telephony.hangupReason, p.body.telephony.hangupBy, "", o.hangup);
  }

  lemma RefsAreStored(r: Refs, p: Payload)
    ensures RefsStored(r, p, WrittenRefs(r, p))
  {
    AnyStores(p.person.toNumber, p.person.userNumber, p.person.recipientNumber, None);
  }

  /** The batch that a payload names: its run's, or else the one at the top. */
  ghost predicate NamesBatch(p: Payload, voiceId: Option<string>) {
    var top := if p.naming.batchId.Text? then Some(p.naming.batchId.text) else None;
    if voiceId.Some? then Picks([p.naming.runBatchId, top], "", voiceId)
    else forall v: Option<string> :: !Picks([p.naming.runBatchId, top], "", v)
  }

  /** The execution that a payload names. */
  ghost predicate NamesExecution(p: Payload, voiceId: string) {
    Picks([p.naming.id, p.naming.executionId], "", Some(voiceId))
  }

  lemma PickOfTwo(a: Option<string>, b: Option<string>, v: Option<string>)
    ensures Picks([a, b], "", v) <==> Truthy(v) && v == if Truthy(a) then a else b
  {
    if Truthy(a) { assert IsPick([a, b], "", 0); }
    else if Truthy(b) { assert IsPick([a, b], "", 1); }
  }

  /** When a payload is accepted for a row: exactly when it names the row's
      execution, no other tenant has a row of that name, and it can be stored. */
  lemma AcceptedIff(t: Tables, p: Payload, client: Option<nat>, id: nat)
    requires id in t.calls && Attributed(t)
    ensures Accepts(t, Delivered(p, client), id) <==>
              && NamesExecution(p, t.calls[id].voiceId)
              && (forall other :: HasVoice(t, other, t.calls[id].voiceId) ==> other == id)
              && Storable(p)
  {
    assert HasVoice(t, id, t.calls[id].voiceId);
    PickOfTwo(p.naming.id, p.naming.executionId, Some(t.calls[id].voiceId));
    if ExecutionId(p) == Some(t.calls[id].voiceId) {
      var found := FindCall(t, t.calls[id].voiceId);
      assert !found.Missing?;
      if found.One? { assert HasVoice(t, found.id, t.calls[id].voiceId); }
    }
  }

  /** What an accepted payload leaves in its row, column by column and key by key: in a
      row that was there over its values, in a new one over none. */
  lemma PayloadIsStored(t: Tables, p: Payload, client: Option<nat>, id: nat)
    requires Attributed(t) && Accepts(t, Delivered(p, client), id)
    ensures id in Sync(t, p, client).value.tables.calls
    ensures var before := if id in t.calls then t.calls[id].outcome else Blank("");
            OutcomeStored(before, p, Sync(t, p, client).value.tables.calls[id].outcome)
    ensures var before := if id in t.calls then t.calls[id].refs else Refs(None, None, None);
            RefsStored(before, p, Sync(t, p, client).value.tables.calls[id].refs)
  {
    OutcomeIsStored(if id in t.calls then t.calls[id].outcome else Blank("pending"), p);
    RefsAreStored(if id in t.calls then t.calls[id].refs else Refs(None, None, None), p);
  }

  /** An accepted payload sends its call to completion exactly when it carries a terminal
      status and the row was not there or open. */
  lemma PayloadFinishesIff(t: Tables, p: Payload, client: Option<nat>, id: nat)
    requires Attributed(t) && Accepts(t, Delivered(p, client), id)
    ensures Sync(t, p, client).value.justFinished <==>
            && p.body.status.Some? && p.body.status.value in CallStatus.TERMINAL_STATUSES
            && (id in t.calls ==> t.calls[id].outcome.status !in CallStatus.TERMINAL_STATUSES)
  {
    AcceptedEdge(t, p, client, id);
    PayloadIsStored(t, p, client, id);
    GivenStatusEnds(p.body.status);
  }

  /** Without a status a call is pending, which ends nothing. */
  lemma GivenStatusEnds(given: Option<string>)
    ensures var status := if given.Some? && given.value != "" then given.value else "pending";
            CallStatus.IsTerminal(status) <==> given.Some? && given.value in CallStatus.TERMINAL_STATUSES
  {
  }

  /** The step writes no status into the row. */
  ghost predicate LeavesStatus(t: Tables, e: Event, id: nat) {
    !Accepts(t, e, id) && !(e.Stopped? && e.id == id && e.status != "")
  }

  /** The status of a row is that of the last payload accepted for it, "pending" if that
      has none, unless a stop has written one since. */
  lemma {:induction false} StatusIsTold(t: Tables, events: seq<Event>, n: nat, id: nat)
    requires Attributed(t) && OneRowEach(t) && n < |events| && id in Run(t, events).calls
    requires Accepts(Run(t, events[..n]), events[n], id)
    requires forall m :: n < m < |events| ==> LeavesStatus(Run(t, events[..m]), events[m], id)
    ensures var given := events[n].payload.body.status;
            Run(t, events).calls[id].outcome.status ==
            if given.Some? && given.value != "" then given.value else "pending"
  {
    var init, last := events[..|events| - 1], events[|events| - 1];
    RunKeeps(t, init);
    if n == |init| {
      PayloadIsStored(Run(t, init), last.payload, last.caller, id);
    } else {
      assert init[..n] == events[..n];
      assert forall m :: n < m < |init| ==> init[..m] == events[..m];
      assert LeavesStatus(Run(t, events[..|init|]), events[|init|], id);
      StillKnown(t, init, n, last, id);
      StatusIsTold(t, init, n, id);
      StatusStays(Run(t, init), last, id);
    }
  }

  lemma StatusStays(t: Tables, e: Event, id: nat)
    requires Attributed(t) && OneRowEach(t) && id in t.calls && id in Next(t, e).calls && LeavesStatus(t, e, id)
    ensures Next(t, e).calls[id].outcome.status == t.calls[id].outcome.status
  {
    RowNext(t, e, id);
  }

  /** A row that an earlier payload was accepted for is no new one. */
  lemma StillKnown(t: Tables, init: seq<Event>, n: nat, last: Event, id: nat)
    requires Attributed(t) && OneRowEach(t) && n < |init|
    requires Accepts(Run(t, init[..n]), init[n], id) && id in Next(Run(t, init), last).calls
    ensures id in Run(t, init).calls
  {
    RunKeeps(t, init[..n]);
    RunKeeps(t, init);
    RunPrefix(t, init, n);
    AcceptedIsKnown(Run(t, init[..n]), init[n], id);
    RunFrom(t, init, n + 1);
    NextKeeps(Run(t, init), last);
  }

  lemma AcceptedIsKnown(t: Tables, e: Event, id: nat)
    requires Attributed(t) && OneRowEach(t) && Accepts(t, e, id)
    ensures id < Next(t, e).next
  {
    NextKeeps(t, e);
    PayloadIsStored(t, e.payload, e.caller, id);
  }

  /** The ids given at some point of a run stay given. */
  lemma {:induction false} RunFrom(t: Tables, events: seq<Event>, n: nat)
    requires Attributed(t) && OneRowEach(t) && n <= |events|
    ensures Run(t, events[..n]).next <= Run(t, events).next
  {
    if n < |events| {
      var init := events[..|events| - 1];
      RunFrom(t, init, n);
      assert init[..n] == events[..n];
      RunKeeps(t, init);
      NextKeeps(Run(t, init), events[|events| - 1]);
    } else {
      assert events[..n] == events;
    }
  }

  /** A row made by a payload has the execution that this names, and the client of the batch
      that it names, or the caller's if it names no known batch; and its agent is the one
      named, or else the batch's. */
  lemma CreatedRow(t: Tables, p: Payload, client: Option<nat>, id: nat)
    requires Attributed(t) && id !in t.calls && Accepts(t, Delivered(p, client), id)
    ensures var c := Sync(t, p, client).value.tables.calls[id];
            && OutcomeStored(Blank(""), p, c.outcome)
            && RefsStored(Refs(None, None, None), p, c.refs)
            && NamesExecution(p, c.voiceId)
    ensures var o := Sync(t, p, client).value.tables.calls[id].owner;
            forall v :: NamesBatch(p, v) ==>
              match FindBatch(t, v) {
                case One(b) =>
                  && o.batch == Some(b) && o.client == t.batches[b].client
                  && Stores([p.naming.agentId, Some(t.batches[b].agent)], "", None, Some(o.agent))
                case _ =>
                  && o.batch == None && client == Some(o.client)
                  && Stores([p.naming.agentId, Some("")], "", None, Some(o.agent))
              }
  {
    var o := Sync(t, p, client).value.tables.calls[id].owner;
    PayloadIsStored(t, p, client, id);
    PickOfTwo(p.naming.id, p.naming.executionId, ExecutionId(p));
    forall v ensures NamesBatch(p, v) <==> v == VoiceBatchId(p) { BatchIsNamed(p, v); }
    var found := FindBatch(t, VoiceBatchId(p));
    EitherStores(p.naming.agentId, Some(if found.One? then t.batches[found.id].agent else ""), "", None);
  }

  lemma BatchIsNamed(p: Payload, v: Option<string>)
    ensures NamesBatch(p, v) <==> v == VoiceBatchId(p)
  {
    var top := if p.naming.batchId.Text? then Some(p.naming.batchId.text) else None;
    forall w: Option<string>
      ensures Picks([p.naming.runBatchId, top], "", w) <==>
              Truthy(w) && w == if Truthy(p.naming.runBatchId) then p.naming.runBatchId else top
    {
      PickOfTwo(p.naming.runBatchId, top, w);
    }
  }

  /** Delivering the same payload again changes nothing. */
  lemma RedeliveryChangesNothing(t: Tables, p: Payload, client: Option<nat>, again: Option<nat>, id: nat)
    requires Attributed(t) && Accepts(t, Delivered(p, client), id)
    ensures var u := Sync(t, p, client).value.tables; Sync(u, p, again) == Ok(Synced(u, Some(id), false))
  {
    var u := Sync(t, p, client).value.tables;
    StillFound(t, p, client, id);
    WrittenOnce(t, p, client, id);
    WriteAgain(u, p, again, id);
  }

  lemma WriteAgain(u: Tables, p: Payload, caller: Option<nat>, id: nat)
    requires ExecutionId(p).Some? && FindCall(u, ExecutionId(p).value) == One(id)
    requires Storable(p) && id in u.calls && Written(u.calls[id], p) == u.calls[id]
    ensures Sync(u, p, caller) == Ok(Synced(u, Some(id), false))
  {
    assert u.calls[id := Written(u.calls[id], p)] == u.calls;
  }

  lemma WrittenOnce(t: Tables, p: Payload, client: Option<nat>, id: nat)
    requires Attributed(t) && Accepts(t, Delivered(p, client), id)
    ensures var u := Sync(t, p, client).value.tables;
            Storable(p) && id in u.calls && Written(u.calls[id], p) == u.calls[id]
  {
  }

  lemma StillFound(t: Tables, p: Payload, client: Option<nat>, id: nat)
    requires Attributed(t) && Accepts(t, Delivered(p, client), id)
    ensures FindCall(Sync(t, p, client).value.tables, ExecutionId(p).value) == One(id)
  {
    var u := Sync(t, p, client).value.tables;
    var voiceId := ExecutionId(p).value;
    assert HasVoice(u, id, voiceId);
    forall other | HasVoice(u, other, voiceId) ensures other == id {
      if other != id { assert HasVoice(t, other, voiceId); }
    }
  }

  // ------------------------------------------------------------- the finished flag

  /** The step sends the row to completion: by the flag of a delivery, or because a stop
      has finished an open call. */
  ghost predicate Flags(t: Tables, e: Event, id: nat) {
    if e.Delivered? then Accepts(t, e, id) && Sync(t, e.payload, e.caller).value.justFinished
    else StatusWritten(t, e, id).Some? && !Finished(t, id) && CallStatus.IsTerminal(StatusWritten(t, e, id).value)
  }

  /** The step takes a finished row back into the open. */
  ghost predicate Reopens(t: Tables, e: Event, id: nat) {
    StatusWritten(t, e, id).Some? && !CallStatus.IsTerminal(StatusWritten(t, e, id).value)
  }

  /** A delivery raises the flag for a row exactly when it takes the stored status
      of that row from absent or open to terminal. */
  lemma FlagIsEdge(t: Tables, p: Payload, client: Option<nat>, id: nat)
    requires Attributed(t) && OneRowEach(t)
    ensures var e := Delivered(p, client);
            Flags(t, e, id) <==> !Finished(t, id) && Finished(Next(t, e), id)
  {
    if Accepts(t, Delivered(p, client), id) {
      AcceptedEdge(t, p, client, id);
    } else {
      NotAcceptedStays(t, p, client, id);
    }
  }

  lemma AcceptedEdge(t: Tables, p: Payload, client: Option<nat>, id: nat)
    requires Attributed(t) && Accepts(t, Delivered(p, client), id)
    ensures Sync(t, p, client).value.justFinished <==> !Finished(t, id) && Finished(Next(t, Delivered(p, client)), id)
  {
  }

  lemma NotAcceptedStays(t: Tables, p: Payload, client: Option<nat>, id: nat)
    requires !Accepts(t, Delivered(p, client), id)
    ensures Finished(Next(t, Delivered(p, client)), id) <==> Finished(t, id)
  {
  }

  /** Between two flags for a row its status was written, and was not terminal. */
  lemma {:induction false} FlagsAreSeparated(t: Tables, events: seq<Event>, i: nat, j: nat, id: nat) returns (m: nat)
    requires Attributed(t) && OneRowEach(t) && i < j < |events|
    requires Flags(Run(t, events[..i]), events[i], id) && Flags(Run(t, events[..j]), events[j], id)
    ensures i < m < j && Reopens(Run(t, events[..m]), events[m], id)
  {
    RunKeeps(t, events[..i]);
    FlaggedFinishes(Run(t, events[..i]), events[i], id);
    RunPrefix(t, events, i);
    m := Reopened(t, events, i + 1, j, id);
  }

  lemma FlaggedFinishes(t: Tables, e: Event, id: nat)
    requires Attributed(t) && OneRowEach(t) && Flags(t, e, id)
    ensures !Finished(t, id) && Finished(Next(t, e), id)
  {
    if e.Delivered? { FlagIsEdge(t, e.payload, e.caller, id); }
  }

  lemma ReopenedHere(t: Tables, e: Event, id: nat)
    requires Attributed(t) && OneRowEach(t)
    requires Finished(t, id) && id in Next(t, e).calls && !Finished(Next(t, e), id)
    ensures Reopens(t, e, id)
  {
    RowNext(t, e, id);
  }

  /** A row that is finished at one point and the object of a flag later. */
  lemma {:induction false} Reopened(t: Tables, events: seq<Event>, k: nat, j: nat, id: nat) returns (m: nat)
    requires Attributed(t) && OneRowEach(t) && k <= j < |events|
    requires Finished(Run(t, events[..k]), id) && Flags(Run(t, events[..j]), events[j], id)
    ensures k <= m < j && Reopens(Run(t, events[..m]), events[m], id)
    decreases j - k
  {
    if k == j {
      NotTwice(t, events, k, id);
    } else if Finished(Run(t, events[..k + 1]), id) {
      m := Reopened(t, events, k + 1, j, id);
    } else {
      ReopenedBefore(t, events, k, j, id);
      m := k;
    }
  }

  /** No flag is raised for a row that is finished. */
  lemma NotTwice(t: Tables, events: seq<Event>, k: nat, id: nat)
    requires Attributed(t) && OneRowEach(t) && k < |events|
    requires Finished(Run(t, events[..k]), id)
    ensures !Flags(Run(t, events[..k]), events[k], id)
  {
    RunKeeps(t, events[..k]);
    if Flags(Run(t, events[..k]), events[k], id) { FlaggedFinishes(Run(t, events[..k]), events[k], id); }
  }

  lemma KnownAfter(t: Tables, events: seq<Event>, k: nat, id: nat)
    requires Attributed(t) && OneRowEach(t) && k < |events| && id in Run(t, events[..k]).calls
    ensures Attributed(Run(t, events[..k])) && OneRowEach(Run(t, events[..k]))
    ensures id < Run(t, events[..k + 1]).next
    ensures Run(t, events[..k + 1]) == Next(Run(t, events[..k]), events[k])
  {
    RunKeeps(t, events[..k]);
    RunPrefix(t, events, k);
    NextKeeps(Run(t, events[..k]), events[k]);
  }

  lemma ReopenedBefore(t: Tables, events: seq<Event>, k: nat, j: nat, id: nat)
    requires Attributed(t) && OneRowEach(t) && k < j < |events|
    requires Finished(Run(t, events[..k]), id) && !Finished(Run(t, events[..k + 1]), id)
    requires Flags(Run(t, events[..j]), events[j], id)
    ensures Reopens(Run(t, events[..k]), events[k], id)
  {
    KnownAfter(t, events, k, id);
    StillThere(t, events, k + 1, j, id);
    ReopenedHere(Run(t, events[..k]), events[k], id);
  }

  lemma FlaggedIsThere(t: Tables, e: Event, id: nat)
    requires Attributed(t) && OneRowEach(t) && Flags(t, e, id) && id < t.next
    ensures id in t.calls
  {
    NextKeeps(t, e);
    FlaggedFinishes(t, e, id);
  }

  /** A row that a flag is raised for was there all the time since its id was given. */
  lemma {:induction false} StillThere(t: Tables, events: seq<Event>, k: nat, j: nat, id: nat)
    requires Attributed(t) && OneRowEach(t) && k <= j < |events| && id < Run(t, events[..k]).next
    requires Flags(Run(t, events[..j]), events[j], id)
    ensures id in Run(t, events[..k]).calls
    decreases j - k
  {
    RunKeeps(t, events[..k]);
    RunPrefix(t, events, k);
    NextKeeps(Run(t, events[..k]), events[k]);
    if k == j {
      FlaggedIsThere(Run(t, events[..k]), events[k], id);
    } else {
      StillThere(t, events, k + 1, j, id);
    }
  }
}
