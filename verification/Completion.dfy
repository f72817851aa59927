/**
 `complete_call` and `recover_unnotified_calls` (app/services/call_sync.py) on the
 table of calls, one completion at a time, and the progress recovery makes.
 */
module Completion {
  import opened Notification
  import CallStatus
  import Analysis

  const MAX_CALLS_PER_PASS: nat := 200

  datatype Record = Record(row: Row, createdAt: int, webhook: bool)

  /** The row after a whole completion: analysis, claim, POST and, when the client
      did not confirm, the release of the claim. */
  function Completed(r: Record, answer: LlmAnswer, accepted: bool): Record {
    var analysed := Analysis.RunAnalysis(r.row, answer);
    r.(row := analysed.(notified := analysed.notified || !r.webhook || accepted))
  }

  predicate Posts(r: Record, answer: LlmAnswer) {
    !Analysis.RunAnalysis(r.row, answer).notified && r.webhook
  }

  /** A completion is a run of the protocol by one fresh worker. */
  lemma CompletionIsARun(s: State, w: nat, r: Record, answer: LlmAnswer, accepted: bool)
    requires s.row == r.row && r.row.kind.Call? && r.row.present && s.past.finished && w !in s.workers
    ensures var t := Exec(s, [Start(w), Look(w), Analyse(w, answer)]
                             + [Claim(w, r.webhook), Post(w, accepted), Release(w)]);
            && t.row == Completed(r, answer, accepted).row
            && t.workers == s.workers
            && |t.past.delivered| == |s.past.delivered| + (if Posts(r, answer) && accepted then 1 else 0)
  {
    var s1 := Step(s, Start(w));
    assert At(s1, w, Starting) && s1.row == s.row;
    Analysis.RunIsTwoSteps(s1, w, answer);
    var s3 := Exec(s1, [Look(w), Analyse(w, answer)]);
    WritesKeepHistory(s1, w, answer);
    var tail := [Claim(w, r.webhook), Post(w, accepted), Release(w)];
    assert [Start(w), Look(w), Analyse(w, answer)][1..] == [Look(w), Analyse(w, answer)];
    ExecConcat(s, [Start(w), Look(w), Analyse(w, answer)], tail);
    ClaimPostRelease(s3, w, r.webhook, accepted);
    var t := Exec(s3, tail);
    assert t.workers == s.workers;
  }

  lemma WritesKeepHistory(s: State, w: nat, answer: LlmAnswer)
    requires At(s, w, Starting)
    ensures var t := Exec(s, [Look(w), Analyse(w, answer)]);
            t.past.delivered == s.past.delivered && t.workers == s.workers[w := Claiming]
  {
    Analysis.ExecTwo(s, Look(w), Analyse(w, answer));
    assert Step(s, Look(w)).workers[w := Claiming] == s.workers[w := Claiming];
  }

  lemma ClaimPostRelease(s: State, w: nat, webhook: bool, accepted: bool)
    requires At(s, w, Claiming) && s.row.present
    ensures var t := Exec(s, [Claim(w, webhook), Post(w, accepted), Release(w)]);
            && t.row == s.row.(notified := s.row.notified || !webhook || accepted)
            && t.workers == s.workers - {w}
            && |t.past.delivered| == |s.past.delivered| + (if !s.row.notified && webhook && accepted then 1 else 0)
  {
    var script := [Claim(w, webhook), Post(w, accepted), Release(w)];
    var s1 := Step(s, Claim(w, webhook));
    var s2 := Step(s1, Post(w, accepted));
    Analysis.Unroll(s, script);
    Analysis.Unroll(s1, script[1..]);
    Analysis.Unroll(s2, script[2..]);
    assert Exec(s, script) == Step(s2, Release(w));
    if !s.row.notified && webhook {
      assert s1.workers == s.workers[w := Holding(s.past.resets)];
    }
  }

  predicate IsPending(r: Record, cutoff: int) {
    CallStatus.IsTerminal(r.row.status) && !r.row.notified && r.createdAt >= cutoff
  }

  /** Finished calls in the look-back that still owe their client a notification. */
  function Pending(calls: map<nat, Record>, cutoff: int): set<nat> {
    set id | id in calls && IsPending(calls[id], cutoff)
  }

  function Min(a: nat, b: nat): nat { if a < b then a else b }

  ghost predicate Distinct(ids: seq<nat>) {
    forall i, j :: 0 <= i < j < |ids| ==> ids[i] != ids[j]
  }

  ghost predicate AllIn(ids: seq<nat>, s: set<nat>) {
    forall id :: id in ids ==> id in s
  }

  /** No call that was left out is older than a selected one. */
  ghost predicate OldestFirst(ids: seq<nat>, calls: map<nat, Record>, pool: set<nat>) {
    forall id, p :: id in ids && p in pool && p !in ids ==>
                      id in calls && p in calls && calls[id].createdAt <= calls[p].createdAt
  }

  function SetOf(ids: seq<nat>): set<nat> {
    set id | id in ids
  }

  /** The outbox after the first `n` calls of a pass: one POST more for each that was open
      after its analysis and has a webhook, in the order of the pass. */
  function Sent(outbox: seq<nat>, ids: seq<nat>, n: nat, calls: map<nat, Record>, answers: nat -> LlmAnswer): seq<nat>
    requires n <= |ids|
  {
    if n == 0 then outbox
    else
      var before, id := Sent(outbox, ids, n - 1, calls, answers), ids[n - 1];
      if id in calls && Posts(calls[id], answers(id)) then before + [id] else before
  }

  /** Calls that are in progress, that are notified already or that lie before the
      look-back are not written, and nothing is sent for them. */
  ghost predicate LeavesOthers(before: map<nat, Record>, after: map<nat, Record>, sent: seq<nat>, outbox: seq<nat>,
                               cutoff: int) {
    && sent <= outbox
    && forall id :: id in before && id in after
                    && (|| before[id].row.status !in CallStatus.TERMINAL_STATUSES
                        || before[id].row.notified || before[id].createdAt < cutoff) ==>
                      after[id] == before[id] && id !in outbox[|sent|..]
  }

  ghost predicate AllOwed(ids: seq<nat>, calls: map<nat, Record>, cutoff: int) {
    forall id :: id in ids ==>
                   && id in calls && calls[id].row.status in CallStatus.TERMINAL_STATUSES
                   && !calls[id].row.notified && calls[id].createdAt >= cutoff
  }

  /** Every call of the look-back that has ended is notified. */
  ghost predicate NothingOwed(calls: map<nat, Record>, cutoff: int) {
    forall id :: id in calls ==>
                   || calls[id].row.status !in CallStatus.TERMINAL_STATUSES
                   || calls[id].row.notified || calls[id].createdAt < cutoff
  }

  /** At most so many calls have ended in the look-back and are not notified. */
  ghost predicate AtMostOwed(calls: map<nat, Record>, cutoff: int, bound: nat) {
    |set id | id in calls && calls[id].row.status in CallStatus.TERMINAL_STATUSES
              && !calls[id].row.notified && calls[id].createdAt >= cutoff| <= bound
  }

  lemma PendingAreOwed(calls: map<nat, Record>, cutoff: int, bound: nat)
    ensures NothingOwed(calls, cutoff) <==> Pending(calls, cutoff) == {}
    ensures AtMostOwed(calls, cutoff, bound) <==> |Pending(calls, cutoff)| <= bound
  {
    assert forall id :: id in Pending(calls, cutoff) <==> id in calls && IsPending(calls[id], cutoff);
    var owed := set id | id in calls && calls[id].row.status in CallStatus.TERMINAL_STATUSES
                         && !calls[id].row.notified && calls[id].createdAt >= cutoff;
    assert owed == Pending(calls, cutoff);
  }

  /** What is left of so many pending calls after some passes. */
  function Left(before: nat, passes: nat): nat {
    before - Min(MAX_CALLS_PER_PASS * passes, before)
  }

  lemma LeftNext(before: nat, passes: nat)
    ensures Left(before, passes + 1) == Left(before, passes) - Min(MAX_CALLS_PER_PASS, Left(before, passes))
  {
  }

  lemma EnoughPasses(before: map<nat, Record>, after: map<nat, Record>, cutoff: int, bound: nat)
    requires |Pending(before, cutoff)| <= bound ==> |Pending(after, cutoff)| == 0
    ensures AtMostOwed(before, cutoff, bound) ==> NothingOwed(after, cutoff)
  {
    PendingAreOwed(before, cutoff, bound);
    PendingAreOwed(after, cutoff, 0);
  }

  lemma OnePass(before: map<nat, Record>, after: map<nat, Record>, cutoff: int, count: nat, accepts: nat -> bool)
    requires count == Min(MAX_CALLS_PER_PASS, |Pending(before, cutoff)|)
    requires AllSettle(before, accepts) ==> |Pending(after, cutoff)| == |Pending(before, cutoff)| - count
    ensures AllSettle(before, accepts) && AtMostOwed(before, cutoff, MAX_CALLS_PER_PASS) ==> NothingOwed(after, cutoff)
  {
    if AllSettle(before, accepts) { EnoughPasses(before, after, cutoff, MAX_CALLS_PER_PASS); }
  }

  /** Every POST of a pass is for a call of it. */
  lemma {:induction false} SentIsSelected(outbox: seq<nat>, ids: seq<nat>, n: nat, calls: map<nat, Record>,
                                          answers: nat -> LlmAnswer)
    requires n <= |ids|
    ensures outbox <= Sent(outbox, ids, n, calls, answers)
    ensures forall id :: id in Sent(outbox, ids, n, calls, answers)[|outbox|..] ==> id in ids
  {
    if n > 0 { SentIsSelected(outbox, ids, n - 1, calls, answers); }
  }

  lemma PassLeavesOthers(before: map<nat, Record>, after: map<nat, Record>, sent: seq<nat>, outbox: seq<nat>,
                         cutoff: int, ids: seq<nat>, answers: nat -> LlmAnswer, accepts: nat -> bool)
    requires AllIn(ids, Pending(before, cutoff)) && CompletedAll(before, after, ids, answers, accepts)
    requires outbox == Sent(sent, ids, |ids|, before, answers)
    ensures LeavesOthers(before, after, sent, outbox, cutoff)
  {
    SentIsSelected(sent, ids, |ids|, before, answers);
    assert forall id :: id in ids ==> id in before && IsPending(before[id], cutoff);
  }

  predicate Settles(r: Record, accepted: bool) {
    accepted || !r.webhook
  }

  /** The selected calls whose client confirmed, or has no webhook to confirm with. */
  function Settled(ids: seq<nat>, calls: map<nat, Record>, accepts: nat -> bool): set<nat> {
    set id | id in ids && id in calls && Settles(calls[id], accepts(id))
  }

  ghost predicate AllSettle(calls: map<nat, Record>, accepts: nat -> bool) {
    forall id :: id in calls ==> Settles(calls[id], accepts(id))
  }

  class CallTable {
    var calls: map<nat, Record>
    var outbox: seq<nat>  // every POST that was sent, in order

    ghost predicate Valid()
      reads this
    {
      forall id :: id in calls ==> calls[id].row.kind.Call? && calls[id].row.present
    }

    /** Completes one call; a row that is gone is left alone. */
    method CompleteCall(id: nat, answer: LlmAnswer, accepted: bool)
      requires Valid()
      modifies this
      ensures Valid()
      ensures calls == if id in old(calls)
                       then old(calls)[id := Completed(old(calls)[id], answer, accepted)]
                       else old(calls)
      ensures outbox == if id in old(calls) && Posts(old(calls)[id], answer) then old(outbox) + [id] else old(outbox)
    {
      if id !in calls { return; }
      var r := calls[id];
      r := r.(row := Analysis.RunAnalysis(r.row, answer));
      Write(id, r);
      if r.row.notified { return; }
      Write(id, r.(row := r.row.(notified := true)));
      if !r.webhook { return; }
      outbox := outbox + [id];
      if !accepted { Write(id, r.(row := r.row.(notified := false))); }
    }

    /** One commit. */
    method Write(id: nat, r: Record)
      requires id in calls
      modifies this`calls
      ensures calls == old(calls)[id := r]
    {
      calls := calls[id := r];
    }

    /** The query of the recovery pass: the oldest pending calls, up to a limit. */
    method SelectPending(cutoff: int) returns (ids: seq<nat>)
      ensures Distinct(ids) && AllIn(ids, Pending(calls, cutoff))
      ensures |ids| == Min(MAX_CALLS_PER_PASS, |Pending(calls, cutoff)|)
      ensures OldestFirst(ids, calls, Pending(calls, cutoff))
      ensures AllOwed(ids, calls, cutoff)
    {
      ids := [];
      var rest := Pending(calls, cutoff);
      while rest != {} && |ids| < MAX_CALLS_PER_PASS
        invariant rest <= Pending(calls, cutoff)
        invariant forall p :: p in Pending(calls, cutoff) ==> (p in ids <==> p !in rest)
        invariant Distinct(ids) && AllIn(ids, Pending(calls, cutoff))
        invariant |ids| + |rest| == |Pending(calls, cutoff)|
        invariant |ids| <= MAX_CALLS_PER_PASS
        invariant OldestFirst(ids, calls, Pending(calls, cutoff))
        decreases rest
      {
        var oldest := Oldest(rest);
        ids := ids + [oldest];
        rest := rest - {oldest};
      }
    }

    method Oldest(rest: set<nat>) returns (oldest: nat)
      requires rest != {} && rest <= calls.Keys
      ensures oldest in rest
      ensures forall p :: p in rest ==> calls[oldest].createdAt <= calls[p].createdAt
    {
      oldest :| oldest in rest;
      var todo := rest - {oldest};
      while todo != {}
        invariant todo <= rest && oldest in rest
        invariant forall p :: p in rest - todo ==> calls[oldest].createdAt <= calls[p].createdAt
        decreases todo
      {
        var p :| p in todo;
        if calls[p].createdAt < calls[oldest].createdAt { oldest := p; }
        todo := todo - {p};
      }
    }

    /** One recovery pass. Of the pending calls exactly those leave the list that
        were selected and whose client confirmed or has no webhook; every call
        that was not selected is as it was. So what is in progress, notified or too old is
        neither written nor sent; and when every delivery settles and one pass can hold
        what is owed, nothing is owed afterwards. */
    method RecoverUnnotifiedCalls(cutoff: int, answers: nat -> LlmAnswer, accepts: nat -> bool)
      returns (count: nat, ids: seq<nat>)
      requires Valid()
      modifies this
      ensures Valid() && calls.Keys == old(calls.Keys)
      ensures count == |ids| == Min(MAX_CALLS_PER_PASS, |Pending(old(calls), cutoff)|)
      ensures Distinct(ids) && AllIn(ids, Pending(old(calls), cutoff))
      ensures forall id :: id in ids ==> calls[id] == Completed(old(calls)[id], answers(id), accepts(id))
      ensures forall id :: id in calls && id !in ids ==> calls[id] == old(calls)[id]
      ensures outbox == Sent(old(outbox), ids, |ids|, old(calls), answers)
      ensures Pending(calls, cutoff) == Pending(old(calls), cutoff) - Settled(ids, old(calls), accepts)
      ensures SameWebhooks(old(calls), calls)
      ensures AllSettle(old(calls), accepts) ==>
                |Pending(calls, cutoff)| == |Pending(old(calls), cutoff)| - |ids|
      ensures LeavesOthers(old(calls), calls, old(outbox), outbox, cutoff)
      ensures AllSettle(old(calls), accepts) && AtMostOwed(old(calls), cutoff, MAX_CALLS_PER_PASS) ==>
                NothingOwed(calls, cutoff)
    {
      ids := SelectPending(cutoff);
      ghost var before, sent := calls, outbox;
      CompleteAll(ids, answers, accepts);
      count := |ids|;
      CompletedLeaves(before, calls, cutoff, ids, answers, accepts);
      PassLeavesOthers(before, calls, sent, outbox, cutoff, ids, answers, accepts);
      OnePass(before, calls, cutoff, |ids|, accepts);
    }

    /** The loop of the pass. */
    method CompleteAll(ids: seq<nat>, answers: nat -> LlmAnswer, accepts: nat -> bool)
      requires Valid() && Distinct(ids) && AllIn(ids, calls.Keys)
      modifies this
      ensures Valid() && CompletedAll(old(calls), calls, ids, answers, accepts)
      ensures outbox == Sent(old(outbox), ids, |ids|, old(calls), answers)
    {
      ghost var before, sent := calls, outbox;
      for i := 0 to |ids|
        invariant Valid() && PassAt(before, sent, ids, i, calls, outbox, answers, accepts)
      {
        CompleteNext(before, sent, ids, i, answers, accepts);
      }
      assert ids[..|ids|] == ids;
    }

    /** One round of it. */
    method CompleteNext(ghost before: map<nat, Record>, ghost sent: seq<nat>, ids: seq<nat>, i: nat,
                        answers: nat -> LlmAnswer, accepts: nat -> bool)
      requires Valid() && Distinct(ids) && AllIn(ids, before.Keys) && i < |ids|
      requires PassAt(before, sent, ids, i, calls, outbox, answers, accepts)
      modifies this
      ensures Valid() && PassAt(before, sent, ids, i + 1, calls, outbox, answers, accepts)
    {
      ghost var mid := calls;
      NotYetDone(ids, i, before, mid, answers, accepts);
      CompleteCall(ids[i], answers(ids[i]), accepts(ids[i]));
      CompletedOneMore(before, mid, calls, ids, i, answers, accepts);
    }

    /** With every delivery confirmed or unneeded, whatever the models answer in each
        pass, a pass takes 200 calls off the list, so that enough passes empty it: then
        every call of the look-back that has ended is notified. */
    method RecoverRepeatedly(passes: nat, cutoff: int, answers: (nat, nat) -> LlmAnswer, accepts: (nat, nat) -> bool)
      requires Valid()
      requires forall pass :: 0 <= pass < passes ==> AllSettle(calls, Nth(accepts, pass))
      modifies this
      ensures |Pending(calls, cutoff)| == Left(|Pending(old(calls), cutoff)|, passes)
      ensures AtMostOwed(old(calls), cutoff, MAX_CALLS_PER_PASS * passes) ==> NothingOwed(calls, cutoff)
    {
      ghost var before, start := |Pending(calls, cutoff)|, calls;
      for i := 0 to passes
        invariant Valid() && SameWebhooks(start, calls)
        invariant |Pending(calls, cutoff)| == Left(before, i)
      {
        LeftNext(before, i);
        StillSettle(start, calls, Nth(accepts, i));
        var _, _ := RecoverUnnotifiedCalls(cutoff, Nth(answers, i), Nth(accepts, i));
      }
      EnoughPasses(start, calls, cutoff, MAX_CALLS_PER_PASS * passes);
    }
  }

  /** The answers of one pass. */
  function Nth<T>(f: (nat, nat) -> T, pass: nat): nat -> T {
    (id: nat) => f(pass, id)
  }

  ghost predicate SameWebhooks(before: map<nat, Record>, after: map<nat, Record>) {
    before.Keys == after.Keys && forall id :: id in after ==> after[id].webhook == before[id].webhook
  }

  lemma StillSettle(before: map<nat, Record>, after: map<nat, Record>, accepts: nat -> bool)
    requires SameWebhooks(before, after)
    ensures AllSettle(before, accepts) <==> AllSettle(after, accepts)
  {
  }

  lemma {:induction false} DistinctSize(ids: seq<nat>)
    requires Distinct(ids)
    ensures |SetOf(ids)| == |ids|
  {
    if ids != [] {
      var last := |ids| - 1;
      var rest := ids[..last];
      DistinctSize(rest);
      assert forall id :: id in ids <==> id in rest || id == ids[last] by {
        assert ids == rest + [ids[last]];
      }
      assert SetOf(ids) == SetOf(rest) + {ids[last]};
    } else {
      assert SetOf(ids) == {};
    }
  }

  ghost predicate CompletedAll(before: map<nat, Record>, after: map<nat, Record>, ids: seq<nat>,
                               answers: nat -> LlmAnswer, accepts: nat -> bool) {
    && before.Keys == after.Keys
    && AllIn(ids, before.Keys)
    && (forall id :: id in ids ==> after[id] == Completed(before[id], answers(id), accepts(id)))
    && (forall id :: id in after && id !in ids ==> after[id] == before[id])
  }

  ghost predicate PassAt(before: map<nat, Record>, sent: seq<nat>, ids: seq<nat>, i: nat, calls: map<nat, Record>,
                         outbox: seq<nat>, answers: nat -> LlmAnswer, accepts: nat -> bool)
    requires i <= |ids|
  {
    CompletedAll(before, calls, ids[..i], answers, accepts) && outbox == Sent(sent, ids, i, before, answers)
  }

  lemma NotYetDone(ids: seq<nat>, i: nat, before: map<nat, Record>, mid: map<nat, Record>,
                   answers: nat -> LlmAnswer, accepts: nat -> bool)
    requires i < |ids| && Distinct(ids) && AllIn(ids, before.Keys)
    requires CompletedAll(before, mid, ids[..i], answers, accepts)
    ensures ids[i] !in ids[..i] && ids[i] in mid && ids[i] in before && mid[ids[i]] == before[ids[i]]
  {
  }

  lemma CompletedOneMore(before: map<nat, Record>, mid: map<nat, Record>, after: map<nat, Record>,
                         ids: seq<nat>, i: nat, answers: nat -> LlmAnswer, accepts: nat -> bool)
    requires i < |ids| && ids[i] in before && ids[i] !in ids[..i]
    requires CompletedAll(before, mid, ids[..i], answers, accepts)
    requires after == mid[ids[i] := Completed(mid[ids[i]], answers(ids[i]), accepts(ids[i]))]
    ensures CompletedAll(before, after, ids[..i + 1], answers, accepts)
  {
    assert mid[ids[i]] == before[ids[i]];
    assert ids[..i + 1] == ids[..i] + [ids[i]];
  }

  /** A completed call stays pending exactly when its client refused the POST. */
  lemma CompletedLeaves(before: map<nat, Record>, after: map<nat, Record>, cutoff: int, ids: seq<nat>,
                        answers: nat -> LlmAnswer, accepts: nat -> bool)
    requires Distinct(ids) && AllIn(ids, Pending(before, cutoff))
    requires CompletedAll(before, after, ids, answers, accepts)
    ensures Pending(after, cutoff) == Pending(before, cutoff) - Settled(ids, before, accepts)
    ensures SameWebhooks(before, after)
    ensures AllSettle(before, accepts) ==> |Pending(after, cutoff)| == |Pending(before, cutoff)| - |ids|
  {
    forall id | id in ids
      ensures IsPending(after[id], cutoff) <==> !Settles(before[id], accepts(id))
    {
      CompletionSettles(before[id], answers(id), accepts(id), cutoff);
    }
    assert Pending(after, cutoff) == Pending(before, cutoff) - Settled(ids, before, accepts);
    if AllSettle(before, accepts) {
      DistinctSize(ids);
      assert Settled(ids, before, accepts) == SetOf(ids);
    }
  }

  lemma CompletionSettles(r: Record, answer: LlmAnswer, accepted: bool, cutoff: int)
    requires IsPending(r, cutoff)
    ensures IsPending(Completed(r, answer, accepted), cutoff) <==> !Settles(r, accepted)
    ensures Completed(r, answer, accepted).webhook == r.webhook
  {
  }
}
