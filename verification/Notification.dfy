/**
 The completion and notification protocol for one row: a call
 (app/services/call_sync.py, `complete_call`) or a batch (`notify_batch_status`).

 Any number of workers race on the row. Each one reads and writes it in separate
 committed transactions, so the protocol is a step system: one action is one
 commit, one answer from outside, or one crash. Every interleaving of workers is
 a sequence of actions, and `Exec` runs such a sequence from a start state.
 */
module Notification {
  import opened Wrappers
  import CallStatus

  /** How the call's analysis row came about; `NoAnalysis` when there is none. */
  datatype Source = NoAnalysis | StatusGuess | LlmAnalysis

  datatype Kind = Call | Batch

  /** What `run_analysis_for_call` decided from the row it read. */
  datatype Plan = Classify | Analyze(upgrading: bool)

  /** The answer of `analyze_call`: a classification, nothing, or an exception. */
  datatype LlmAnswer = Classified | Unavailable | Raised

  /** Where a worker stands between two of its commits. The epoch of a claim is
      the number of times the row had been re-opened when it was taken. */
  datatype Pc =
    | Starting
    | Analysing(plan: Plan)
    | Claiming
    | Holding(epoch: nat)
    | Releasing(epoch: nat)

  /** The columns of the row that the protocol reads and writes. */
  datatype Row = Row(
    kind: Kind,
    present: bool,
    notified: bool,
    status: string,
    transcript: bool,
    source: Source
  )

  /** What happened so far; no worker reads it. */
  datatype History = History(
    finished: bool,       // a trigger has been seen: the only reason a worker starts
    resets: nat,          // times the row was re-opened by an upgrade or a status change
    delivered: seq<nat>,  // epochs of the claims whose POST the client confirmed
    ended: seq<nat>,      // epochs of the claims that found no webhook configured
    abandoned: seq<nat>,  // epochs of the claims lost to a crash
    absorbed: nat,        // re-openings and releases of a row that was open already
    dropped: nat          // openings and claims lost with the deleted row
  )

  datatype State = State(row: Row, workers: map<nat, Pc>, past: History)

  datatype Action =
    | Sync(status: string, transcript: Option<bool>)  // a transcript, if given: is it non-empty?
    | Request(answer: LlmAnswer)
    | Start(w: nat)
    | Look(w: nat)
    | Analyse(w: nat, answer: LlmAnswer)
    | Claim(w: nat, webhook: bool)
    | Post(w: nat, accepted: bool)
    | Release(w: nat)
    | Crash(w: nat)
    | Reopen
    | Delete

  /** A call row starts open; a batch row starts claimed, because the response
      that created it already carried its status. */
  function Init(kind: Kind): State {
    State(Row(kind, true, kind.Batch?, "pending", false, NoAnalysis), map[],
          History(false, 0, [], [], [], 0, 0))
  }

  predicate Holds(pc: Pc) {
    pc.Holding? || pc.Releasing?
  }

  function Holders(workers: map<nat, Pc>): set<nat> {
    set w | w in workers && Holds(workers[w])
  }

  function Goto(s: State, w: nat, pc: Pc): State {
    s.(workers := s.workers[w := pc])
  }

  function Leave(s: State, w: nat): State {
    s.(workers := s.workers - {w})
  }

  /** Writes NULL into `notified_at`. */
  function Open(s: State): State {
    if !s.row.present then s.(past := s.past.(dropped := s.past.dropped + 1))
    else if !s.row.notified then s.(past := s.past.(absorbed := s.past.absorbed + 1))
    else s.(row := s.row.(notified := false))
  }

  function Reset(s: State): State {
    Open(s.(past := s.past.(resets := s.past.resets + 1)))
  }

  function PlanFor(row: Row): Plan {
    if CallStatus.IsConnected(row.status) && row.transcript
    then Analyze(row.source.StatusGuess?)
    else Classify
  }

  predicate At(s: State, w: nat, pc: Pc) {
    w in s.workers && s.workers[w] == pc
  }

  /** One step. `Sync` is a payload, or a stop that writes a status; `Request` is an
      analysis asked for over the API, which neither asks for the status nor re-opens
      the row; `Reopen` is a change of a batch's status. An action that is not enabled leaves the state as it is. */
  function Step(s: State, a: Action): State {
    match a
    case Sync(status, transcript) => SyncRow(s, status, transcript)
    case Request(answer) =>
      if s.row.kind.Call? && s.row.present && s.row.transcript && answer.Classified?
      then s.(row := s.row.(source := LlmAnalysis))
      else s
    case Start(w) =>
      if s.past.finished && w !in s.workers
      then Goto(s, w, if s.row.kind.Call? then Starting else Claiming)
      else s
    case Look(w) => if At(s, w, Starting) then Goto(s, w, AfterLook(s.row)) else s
    case Analyse(w, answer) =>
      if w in s.workers && s.workers[w].Analysing?
      then WriteAnalysis(Goto(s, w, Claiming), s.workers[w].plan, answer)
      else s
    case Claim(w, webhook) => if At(s, w, Claiming) then TakeClaim(s, w, webhook) else s
    case Post(w, accepted) =>
      if w in s.workers && s.workers[w].Holding? then EndPost(s, w, s.workers[w].epoch, accepted) else s
    case Release(w) => if w in s.workers && s.workers[w].Releasing? then Open(Leave(s, w)) else s
    case Crash(w) => if w in s.workers then Die(s, w, s.workers[w]) else s
    case Reopen =>
      if s.row.kind.Batch? && s.row.present
      then Reset(s.(past := s.past.(finished := true)))
      else s
    case Delete =>
      if s.row.present && !s.row.notified
      then s.(row := s.row.(present := false), past := s.past.(dropped := s.past.dropped + 1))
      else s.(row := s.row.(present := false))
  }

  /** A payload arrives: its status is written, and its transcript if it has one. */
  function SyncRow(s: State, status: string, transcript: Option<bool>): State {
    if s.row.kind.Call? && s.row.present
    then s.(row := s.row.(status := status,
                          transcript := if transcript.Some? then transcript.value else s.row.transcript),
            past := s.past.(finished := s.past.finished || CallStatus.IsTerminal(status)))
    else s
  }

  /** The early returns of `run_analysis_for_call`: the row is gone, or it has an
      analysis that is not to be upgraded. */
  function AfterLook(row: Row): Pc {
    if !row.present || (!row.source.NoAnalysis? && PlanFor(row) != Analyze(true))
    then Claiming
    else Analysing(PlanFor(row))
  }

  /** The commit that ends `run_analysis_for_call`. An exception, or a row that
      is gone, leaves everything as it was; the worker goes on to claim anyway. */
  function WriteAnalysis(s: State, plan: Plan, answer: LlmAnswer): State {
    if !s.row.present || (plan.Analyze? && answer.Raised?) then s
    else if plan.Classify? then s.(row := s.row.(source := StatusGuess))
    else
      var written := if answer.Classified? then s.(row := s.row.(source := LlmAnalysis)) else s;
      if plan.upgrading then Reset(written) else written
  }

  /** The conditional UPDATE on `notified_at`, and the commit that keeps it. */
  function TakeClaim(s: State, w: nat, webhook: bool): State {
    if !s.row.present || s.row.notified then Leave(s, w)
    else
      var claimed := s.(row := s.row.(notified := true));
      if webhook then Goto(claimed, w, Holding(s.past.resets))
      else Leave(claimed, w).(past := s.past.(ended := s.past.ended + [s.past.resets]))
  }

  function EndPost(s: State, w: nat, epoch: nat, accepted: bool): State {
    if accepted then Leave(s, w).(past := s.past.(delivered := s.past.delivered + [epoch]))
    else Goto(s, w, Releasing(epoch))
  }

  function Die(s: State, w: nat, pc: Pc): State {
    if Holds(pc) then Leave(s, w).(past := s.past.(abandoned := s.past.abandoned + [pc.epoch]))
    else Leave(s, w)
  }

  function Exec(s: State, actions: seq<Action>): State
    decreases |actions|
  {
    if actions == [] then s else Exec(Step(s, actions[0]), actions[1..])
  }

  lemma {:induction false} ExecConcat(s: State, xs: seq<Action>, ys: seq<Action>)
    ensures Exec(s, xs + ys) == Exec(Exec(s, xs), ys)
    decreases |xs|
  {
    if xs == [] {
      assert xs + ys == ys;
    } else {
      assert (xs + ys)[0] == xs[0] && (xs + ys)[1..] == xs[1..] + ys;
      ExecConcat(Step(s, xs[0]), xs[1..], ys);
    }
  }

  // ---------------------------------------------------------------- conservation

  /** Where every right to notify the client is: waiting in the open row, held by
      a worker, or gone for one of five reasons. */
  function Placed(s: State): nat {
    InRow(s.row) + |Holders(s.workers)| + Spent(s.past)
  }

  function InRow(row: Row): nat {
    if row.present && !row.notified then 1 else 0
  }

  function Spent(past: History): nat {
    |past.delivered| + |past.ended| + |past.abandoned| + past.absorbed + past.dropped
  }

  /** How many such rights were ever created. */
  function Minted(s: State): nat {
    (if s.row.kind.Call? then 1 else 0) + s.past.resets
  }

  ghost predicate HeldSince(workers: map<nat, Pc>, epoch: nat) {
    exists w :: w in workers && Holds(workers[w]) && workers[w].epoch == epoch
  }

  /** Some claim of the given epoch is being worked on or came to an end. */
  ghost predicate Claimed(s: State, epoch: nat) {
    || epoch in s.past.delivered
    || epoch in s.past.ended
    || epoch in s.past.abandoned
    || HeldSince(s.workers, epoch)
  }

  /** Once re-opened (or, for a call, from the start), a row that is marked as
      notified was claimed after its last re-opening. */
  ghost predicate LastOpeningClaimed(s: State) {
    s.row.present && s.row.notified && Minted(s) > 0 ==> Claimed(s, s.past.resets)
  }

  predicate Quiet(s: State) {
    s.workers == map[] && s.past.delivered == [] && s.past.ended == [] && s.past.abandoned == []
  }

  ghost predicate Inv(s: State) {
    && Placed(s) == Minted(s)
    && (s.past.absorbed > 0 ==> s.past.resets > 0)
    && (s.row.present ==> s.past.dropped == 0)
    && LastOpeningClaimed(s)
    && (!s.past.finished ==> Quiet(s))
  }

  lemma HoldersGoto(workers: map<nat, Pc>, w: nat, pc: Pc)
    ensures |Holders(workers[w := pc])| ==
            |Holders(workers)| + (if Holds(pc) then 1 else 0)
            - (if w in workers && Holds(workers[w]) then 1 else 0)
  {
    var before, after := Holders(workers), Holders(workers[w := pc]);
    assert after == if Holds(pc) then before + {w} else before - {w};
    assert w in before <==> w in workers && Holds(workers[w]);
  }

  lemma HoldersLeave(workers: map<nat, Pc>, w: nat)
    ensures |Holders(workers - {w})| ==
            |Holders(workers)| - (if w in workers && Holds(workers[w]) then 1 else 0)
  {
    assert Holders(workers - {w}) == Holders(workers) - {w};
    assert w in Holders(workers) <==> w in workers && Holds(workers[w]);
  }

  /** Writing NULL moves one right into the row, or counts it as absorbed or dropped. */
  lemma OpenConserves(s: State)
    ensures Placed(Open(s)) == Placed(s) + 1 && Minted(Open(s)) == Minted(s)
  {
  }

  lemma ResetConserves(s: State)
    ensures Placed(Reset(s)) - Placed(s) == 1 && Minted(Reset(s)) - Minted(s) == 1
  {
    OpenConserves(s.(past := s.past.(resets := s.past.resets + 1)));
  }

  lemma WriteConserves(s: State, plan: Plan, answer: LlmAnswer)
    ensures var t := WriteAnalysis(s, plan, answer); Placed(t) - Placed(s) == Minted(t) - Minted(s)
  {
    if s.row.present && plan.Analyze? && !answer.Raised? && plan.upgrading {
      ResetConserves(if answer.Classified? then s.(row := s.row.(source := LlmAnalysis)) else s);
    }
  }

  lemma ClaimConserves(s: State, w: nat, webhook: bool)
    requires At(s, w, Claiming)
    ensures var t := TakeClaim(s, w, webhook); Placed(t) == Placed(s) && Minted(t) == Minted(s)
  {
    HoldersLeave(s.workers, w);
    HoldersGoto(s.workers, w, Holding(s.past.resets));
  }

  lemma PostConserves(s: State, w: nat, accepted: bool)
    requires w in s.workers && s.workers[w].Holding?
    ensures var t := EndPost(s, w, s.workers[w].epoch, accepted); Placed(t) == Placed(s) && Minted(t) == Minted(s)
  {
    HoldersLeave(s.workers, w);
    HoldersGoto(s.workers, w, Releasing(s.workers[w].epoch));
  }

  lemma RowConserves(s: State, a: Action)
    requires a.Sync? || a.Request? || a.Reopen? || a.Delete?
    ensures var t := Step(s, a); Placed(t) - Placed(s) == Minted(t) - Minted(s)
  {
    if a.Reopen? { ResetConserves(s.(past := s.past.(finished := true))); }
  }

  lemma WorkConserves(s: State, a: Action)
    requires a.Start? || a.Look?
    ensures var t := Step(s, a); Placed(t) == Placed(s) && Minted(t) == Minted(s)
  {
    if a.w in Step(s, a).workers { HoldersGoto(s.workers, a.w, Step(s, a).workers[a.w]); }
  }

  lemma EndConserves(s: State, a: Action)
    requires a.Release? || a.Crash?
    ensures var t := Step(s, a); Placed(t) == Placed(s) && Minted(t) == Minted(s)
  {
    HoldersLeave(s.workers, a.w);
    if a.Release? { OpenConserves(Leave(s, a.w)); }
  }

  /** No step creates or loses a right to notify, but for the re-openings. */
  lemma StepConserves(s: State, a: Action)
    ensures var t := Step(s, a); Placed(t) - Placed(s) == Minted(t) - Minted(s)
  {
    match a
    case Start(_) => WorkConserves(s, a);
    case Look(_) => WorkConserves(s, a);
    case Analyse(w, answer) =>
      if w in s.workers && s.workers[w].Analysing? {
        HoldersGoto(s.workers, w, Claiming);
        WriteConserves(Goto(s, w, Claiming), s.workers[w].plan, answer);
      }
    case Claim(w, webhook) => if At(s, w, Claiming) { ClaimConserves(s, w, webhook); }
    case Post(w, accepted) => if w in s.workers && s.workers[w].Holding? { PostConserves(s, w, accepted); }
    case Release(_) => EndConserves(s, a);
    case Crash(_) => EndConserves(s, a);
    case _ => RowConserves(s, a);
  }

  lemma OnlyClaimMarks(s: State, a: Action)
    requires s.row.present && !s.row.notified && Step(s, a).row.notified
    ensures Claimed(Step(s, a), s.past.resets) && Step(s, a).past.resets == s.past.resets
  {
    var t := Step(s, a);
    assert a.Claim? && At(s, a.w, Claiming);
    if a.webhook {
      assert a.w in t.workers && Holds(t.workers[a.w]);
    } else {
      assert t.past.ended[|s.past.ended|] == s.past.resets;
    }
  }

  /** A claim leaves its holder for a list of ended claims, or for the open row. */
  lemma ClaimSurvives(s: State, a: Action, v: nat)
    requires v in s.workers && Holds(s.workers[v]) && s.row.present && s.row.notified
    ensures Step(s, a).row.notified ==> Claimed(Step(s, a), s.workers[v].epoch)
  {
    var t := Step(s, a);
    if v in t.workers && Holds(t.workers[v]) {
      assert t.workers[v].epoch == s.workers[v].epoch;
    }
  }

  lemma StepKeepsClaimed(s: State, a: Action)
    requires LastOpeningClaimed(s)
    ensures LastOpeningClaimed(Step(s, a))
  {
    var t := Step(s, a);
    if t.row.present && t.row.notified && Minted(t) > 0 {
      if !s.row.notified {
        OnlyClaimMarks(s, a);
      } else {
        assert t.past.resets == s.past.resets;
        if HeldSince(s.workers, s.past.resets) {
          var v :| v in s.workers && Holds(s.workers[v]) && s.workers[v].epoch == s.past.resets;
          ClaimSurvives(s, a, v);
        }
      }
    }
  }

  lemma StepKeepsInv(s: State, a: Action)
    requires Inv(s)
    ensures Inv(Step(s, a)) && Step(s, a).row.kind == s.row.kind
  {
    StepConserves(s, a);
    StepKeepsClaimed(s, a);
    StepKeepsRest(s, a);
  }

  lemma StepKeepsRest(s: State, a: Action)
    requires s.past.absorbed > 0 ==> s.past.resets > 0
    requires Placed(s) == Minted(s)
    requires s.row.present ==> s.past.dropped == 0
    requires !s.past.finished ==> Quiet(s)
    ensures var t := Step(s, a);
            && (t.past.absorbed > 0 ==> t.past.resets > 0)
            && (t.row.present ==> t.past.dropped == 0)
            && (!t.past.finished ==> Quiet(t))
            && t.row.kind == s.row.kind
  {
    if a.Release? && a.w in s.workers && s.workers[a.w].Releasing? {
      HoldersLeave(s.workers, a.w);
    }
  }
}
