/**
 What a delivery tells the client (app/services/call_sync.py, app/routers/webhooks.py,
 app/routers/batches.py). The outcome of a call is built after its claim. The event of a
 batch is built before: when the worker is queued, or read for recovery. So a worker may
 claim the present opening with the status of an earlier one.
 */
module Telling {
  import opened Notification
  import opened NotificationRuns
  import opened Epochs

  /** The protocol, with the re-opening whose status each worker carries, and those that
      the confirmed deliveries told. */
  datatype Teller = Teller(base: State, carries: map<nat, nat>, told: seq<nat>)

  function Start0(kind: Kind): Teller {
    Teller(Init(kind), map[], [])
  }

  /** The worker enters, or the claim of a call succeeds: it carries what is there now. */
  predicate Builds(s: State, a: Action) {
    || (a.Start? && s.past.finished && a.w !in s.workers)
    || (a.Claim? && s.row.kind.Call? && At(s, a.w, Claiming) && IsOpen(s.row))
  }

  function Carried(t: Teller, w: nat): nat {
    if w in t.carries then t.carries[w] else 0
  }

  function Tell(t: Teller, a: Action): Teller {
    var next := Step(t.base, a);
    Teller(next,
           if Builds(t.base, a) then t.carries[a.w := t.base.past.resets] else t.carries,
           if a.Post? && next.past.delivered != t.base.past.delivered then t.told + [Carried(t, a.w)] else t.told)
  }

  function TellAll(t: Teller, actions: seq<Action>): Teller
    decreases |actions|
  {
    if actions == [] then t else TellAll(Tell(t, actions[0]), actions[1..])
  }

  /** The protocol itself is not affected. */
  lemma {:induction false} TellIsExec(t: Teller, actions: seq<Action>)
    ensures TellAll(t, actions).base == Exec(t.base, actions)
    decreases |actions|
  {
    if actions != [] { TellIsExec(Tell(t, actions[0]), actions[1..]); }
  }

  lemma TellOne(t: Teller, a: Action, rest: seq<Action>)
    ensures TellAll(t, [a] + rest) == TellAll(Tell(t, a), rest)
  {
    assert ([a] + rest)[1..] == rest;
  }

  lemma {:induction false} TellConcat(t: Teller, xs: seq<Action>, ys: seq<Action>)
    ensures TellAll(t, xs + ys) == TellAll(TellAll(t, xs), ys)
    decreases |xs|
  {
    if xs == [] {
      assert xs + ys == ys;
    } else {
      assert (xs + ys)[0] == xs[0] && (xs + ys)[1..] == xs[1..] + ys;
      TellConcat(Tell(t, xs[0]), xs[1..], ys);
    }
  }

  // --------------------------------------------------- when what is told is claimed

  /** A batch is claimed by a worker whose event was built before the last re-opening. */
  predicate ClaimsOld(t: Teller, a: Action) {
    && a.Claim? && t.base.row.kind.Batch? && At(t.base, a.w, Claiming) && IsOpen(t.base.row)
    && Carried(t, a.w) != t.base.past.resets
  }

  predicate NoneOld(t: Teller, actions: seq<Action>)
    decreases |actions|
  {
    actions == [] || (!ClaimsOld(t, actions[0]) && NoneOld(Tell(t, actions[0]), actions[1..]))
  }

  ghost predicate TellsClaims(t: Teller) {
    && t.told == t.base.past.delivered
    && forall w: nat, e: nat :: HoldsEpoch(t.base, w, e) ==> Carried(t, w) == e
  }

  lemma StepTellsClaims(t: Teller, a: Action)
    requires TellsClaims(t) && !ClaimsOld(t, a)
    ensures TellsClaims(Tell(t, a))
  {
    var u := Tell(t, a);
    ClaimsHeldAfter(t.base, a);
    ConfirmedAfter(t.base, a);
    forall w: nat, e: nat | HoldsEpoch(u.base, w, e) ensures Carried(u, w) == e {
      if HoldsEpoch(t.base, w, e) {
        assert Builds(t.base, a) ==> a.w != w;
      }
    }
    if u.base.past.delivered != t.base.past.delivered {
      var e: nat :| Sends(t.base, a.w, e) && u.base.past.delivered == t.base.past.delivered + [e];
      assert HoldsEpoch(t.base, a.w, e);
    }
  }

  lemma {:induction false} RunTellsClaims(t: Teller, actions: seq<Action>)
    requires TellsClaims(t) && NoneOld(t, actions)
    ensures TellsClaims(TellAll(t, actions))
    decreases |actions|
  {
    if actions != [] {
      StepTellsClaims(t, actions[0]);
      RunTellsClaims(Tell(t, actions[0]), actions[1..]);
    }
  }

  lemma {:induction false} CallsNeverOld(t: Teller, actions: seq<Action>)
    requires t.base.row.kind.Call?
    ensures NoneOld(t, actions)
    decreases |actions|
  {
    if actions != [] {
      assert Step(t.base, actions[0]).row.kind == t.base.row.kind;
      CallsNeverOld(Tell(t, actions[0]), actions[1..]);
    }
  }

  /** A call's deliveries tell what was claimed, in every run. A batch's do in every run in
      which each claim is by a worker whose event was built since the last re-opening. */
  lemma WhatIsToldWasClaimed(kind: Kind, actions: seq<Action>)
    requires kind.Call? || NoneOld(Start0(kind), actions)
    ensures TellAll(Start0(kind), actions).told == Exec(Init(kind), actions).past.delivered
  {
    if kind.Call? { CallsNeverOld(Start0(kind), actions); }
    RunTellsClaims(Start0(kind), actions);
    TellIsExec(Start0(kind), actions);
  }

  /** So without stale releases either, nothing is told twice. */
  lemma EachStatusIsToldOnce(kind: Kind, actions: seq<Action>)
    requires kind.Call? || NoneOld(Start0(kind), actions)
    requires NoneStale(Init(kind), actions)
    ensures Distinct(TellAll(Start0(kind), actions).told)
  {
    WhatIsToldWasClaimed(kind, actions);
    EachOpeningIsDeliveredOnce(kind, actions);
  }

  // --------------------------------------------------- how the last status is lost

  /** Two status changes queue a worker each. */
  lemma TwoAreQueued() returns (actions: seq<Action>)
    ensures forall a :: a in actions ==> !a.Release?
    ensures var u := TellAll(Start0(Batch), actions);
            && u.base.row.kind.Batch? && IsOpen(u.base.row) && u.base.past.resets == 2 && u.base.past.finished
            && u.base.past.delivered == [] && u.told == []
            && u.base.workers == map[0 := Claiming, 1 := Claiming] && u.carries == map[0 := 1, 1 := 2]
  {
    var t := Start0(Batch);
    var t1 := Tell(t, Reopen);
    var t2 := Tell(t1, Start(0));
    var t3 := Tell(t2, Reopen);
    TellOne(t, Reopen, [Start(0), Reopen, Start(1)]);
    TellOne(t1, Start(0), [Reopen, Start(1)]);
    TellOne(t2, Reopen, [Start(1)]);
    TellOne(t3, Start(1), []);
    actions := [Reopen, Start(0), Reopen, Start(1)];
  }

  /** The first one claims and is confirmed; the second one finds the row claimed. */
  lemma TheFirstClaims(u: Teller) returns (actions: seq<Action>)
    requires u.base.row.kind.Batch? && IsOpen(u.base.row) && u.base.past.resets == 2
    requires u.base.past.delivered == [] && u.told == []
    requires u.base.workers == map[0 := Claiming, 1 := Claiming] && u.carries == map[0 := 1, 1 := 2]
    ensures forall a :: a in actions ==> !a.Release?
    ensures var v := TellAll(u, actions);
            && v.told == [1] && v.base.past.resets == 2 && v.base.past.finished == u.base.past.finished
            && v.base.row == u.base.row.(notified := true) && v.base.workers == map[]
  {
    var u1 := Tell(u, Claim(0, true));
    assert u1.base.workers[0] == Holding(2);
    var u2 := Tell(u1, Post(0, true));
    TellOne(u, Claim(0, true), [Post(0, true), Claim(1, true)]);
    TellOne(u1, Post(0, true), [Claim(1, true)]);
    TellOne(u2, Claim(1, true), []);
    actions := [Claim(0, true), Post(0, true), Claim(1, true)];
  }

  lemma NothingIsLeft(t: Teller)
    requires t.base.row.kind.Batch? && t.base.row.notified && t.base.workers == map[] && t.base.past.finished
    ensures !CanStillDeliver(t.base) && !CanTellLast(t)
  {
    assert Holders(map[]) == {};
    CanStillDeliverIff(t.base);
    LastStatusCanBeToldIff(t);
  }

  /** Two status changes queue two workers. The first one claims with its own event, which
      the client confirms; the second one finds the row claimed. The last status is never
      told, and nothing is left that could: without a crash, a failed POST or a stale
      release. */
  lemma LastStatusIsLost() returns (actions: seq<Action>)
    ensures NoneStale(Init(Batch), actions)
    ensures var t := TellAll(Start0(Batch), actions);
            && t.told == [1] && t.base.past.resets == 2 && t.base.row.present && t.base.row.notified
            && t.base.workers == map[] && !CanStillDeliver(t.base) && !CanTellLast(t)
  {
    var first := TwoAreQueued();
    var second := TheFirstClaims(TellAll(Start0(Batch), first));
    actions := first + second;
    TellConcat(Start0(Batch), first, second);
    NothingIsLeft(TellAll(Start0(Batch), actions));
    NoReleaseNoneStale(Init(Batch), actions);
  }

  lemma {:induction false} NoReleaseNoneStale(s: State, actions: seq<Action>)
    requires forall a :: a in actions ==> !a.Release?
    ensures NoneStale(s, actions)
    decreases |actions|
  {
    if actions != [] { NoReleaseNoneStale(Step(s, actions[0]), actions[1..]); }
  }

  // ------------------------------------------- when an older status can be told

  predicate CarriesOld(t: Teller, w: nat) {
    Carried(t, w) < t.base.past.resets
  }

  predicate SendsOld(t: Teller, w: nat) {
    w in t.base.workers && t.base.workers[w].Holding? && CarriesOld(t, w)
  }

  predicate WaitsWithOld(t: Teller, w: nat) {
    At(t.base, w, Claiming) && CarriesOld(t, w)
  }

  /** The workers of a batch have nothing to analyse. */
  ghost predicate OnlyNotifies(s: State) {
    s.row.kind.Batch? && forall w :: w in s.workers ==> !s.workers[w].Starting? && !s.workers[w].Analysing?
  }

  lemma StepOnlyNotifies(s: State, a: Action)
    requires OnlyNotifies(s)
    ensures OnlyNotifies(Step(s, a))
  {
  }

  lemma {:induction false} BatchesOnlyNotify(s: State, actions: seq<Action>)
    requires OnlyNotifies(s)
    ensures OnlyNotifies(Exec(s, actions))
    decreases |actions|
  {
    if actions != [] {
      StepOnlyNotifies(s, actions[0]);
      BatchesOnlyNotify(Step(s, actions[0]), actions[1..]);
    }
  }

  /** The row is there, and open or in the hands of a worker that may release it. */
  ghost predicate CanBeClaimed(s: State) {
    s.row.present && (IsOpen(s.row) || Holders(s.workers) != {})
  }

  /** An older status is being sent, or waits for a row that can be claimed. */
  ghost predicate OldIsComing(t: Teller) {
    (exists w :: SendsOld(t, w)) || (CanBeClaimed(t.base) && exists w :: WaitsWithOld(t, w))
  }

  /** What a step tells, if anything, is the present status or a newer one. */
  ghost predicate NotOlder(t: Teller, u: Teller) {
    u.told == t.told || exists e: nat :: e >= t.base.past.resets && u.told == t.told + [e]
  }

  lemma ClaimableBefore(s: State, a: Action)
    requires s.row.kind.Batch? && Step(s, a).past.resets == s.past.resets && CanBeClaimed(Step(s, a))
    ensures CanBeClaimed(s)
  {
    var t := Step(s, a);
    if IsOpen(t.row) {
      if !IsOpen(s.row) {
        OpenAfter(s, a);
        assert a.w in Holders(s.workers);
      }
    } else {
      var w :| w in Holders(t.workers);
      assert HoldsEpoch(t, w, t.workers[w].epoch);
      ClaimsHeldAfter(s, a);
      if !IsOpen(s.row) { assert w in Holders(s.workers); }
    }
  }

  /** Without an older status on its way, none comes up unless the row is re-opened, and
      what a step tells is not older. */
  lemma NoneComesUp(t: Teller, a: Action)
    requires OnlyNotifies(t.base) && !OldIsComing(t) && Tell(t, a).base.past.resets == t.base.past.resets
    ensures !OldIsComing(Tell(t, a))
    ensures NotOlder(t, Tell(t, a))
  {
    var u := Tell(t, a);
    NoOldSender(t, a);
    if CanBeClaimed(u.base) {
      ClaimableBefore(t.base, a);
      forall w ensures !WaitsWithOld(u, w) {
        assert !WaitsWithOld(t, w);
      }
    }
    if a.Post? { assert !SendsOld(t, a.w); }
  }

  lemma NoOldSender(t: Teller, a: Action)
    requires OnlyNotifies(t.base) && !OldIsComing(t) && Tell(t, a).base.past.resets == t.base.past.resets
    ensures forall w :: !SendsOld(Tell(t, a), w)
  {
    SendersAfter(t.base, a);
    forall w ensures !SendsOld(Tell(t, a), w) {
      assert !SendsOld(t, w);
      assert CanBeClaimed(t.base) ==> !WaitsWithOld(t, w);
      if SendsOld(Tell(t, a), w) {
        assert Sends(Tell(t, a).base, w, Tell(t, a).base.workers[w].epoch);
      }
    }
  }

  ghost predicate TellsOlder(t: Teller, u: Teller) {
    exists i :: |t.told| <= i < |u.told| && u.told[i] < t.base.past.resets
  }

  lemma ToldOnward(t: Teller, u: Teller, v: Teller)
    requires u.base.past.resets == t.base.past.resets && NotOlder(t, u)
    requires u.told <= v.told && !TellsOlder(u, v)
    ensures t.told <= v.told && !TellsOlder(t, v)
  {
    forall i | |t.told| <= i < |v.told| ensures v.told[i] >= t.base.past.resets {
      if i < |u.told| { assert v.told[i] == u.told[i]; }
    }
  }

  lemma {:induction false} NoneIsTold(t: Teller, actions: seq<Action>)
    requires OnlyNotifies(t.base) && !OldIsComing(t) && TellAll(t, actions).base.past.resets == t.base.past.resets
    ensures t.told <= TellAll(t, actions).told && !TellsOlder(t, TellAll(t, actions))
    decreases |actions|
  {
    if actions != [] {
      ResetsKept(t, actions);
      NoneComesUp(t, actions[0]);
      StepOnlyNotifies(t.base, actions[0]);
      NoneIsTold(Tell(t, actions[0]), actions[1..]);
      ToldOnward(t, Tell(t, actions[0]), TellAll(t, actions));
    }
  }

  lemma ResetsKept(t: Teller, actions: seq<Action>)
    requires actions != [] && TellAll(t, actions).base.past.resets == t.base.past.resets
    ensures Tell(t, actions[0]).base.past.resets == t.base.past.resets
  {
    var u := Tell(t, actions[0]);
    TellIsExec(u, actions[1..]);
    ResetsGrow(u.base, actions[1..]);
    StepResets(t.base, actions[0]);
  }

  /** What a sender's confirmed POST tells. */
  lemma PostTells(t: Teller, w: nat)
    requires w in t.base.workers && t.base.workers[w].Holding?
    ensures var u := TellAll(t, [Post(w, true)]);
            u.told == t.told + [Carried(t, w)] && u.base.past.resets == t.base.past.resets
  {
    TellOne(t, Post(w, true), []);
    assert Tell(t, Post(w, true)).base.past.delivered == t.base.past.delivered + [t.base.workers[w].epoch];
  }

  /** The worker that waits with an older event claims the open row and delivers. */
  lemma WaiterTells(t: Teller, w: nat)
    requires t.base.row.kind.Batch? && IsOpen(t.base.row) && WaitsWithOld(t, w)
    ensures var u := TellAll(t, [Claim(w, true), Post(w, true)]);
            u.base.past.resets == t.base.past.resets && u.told == t.told + [Carried(t, w)]
  {
    var t1 := Tell(t, Claim(w, true));
    assert t1.base.workers[w] == Holding(t.base.past.resets);
    TellOne(t, Claim(w, true), [Post(w, true)]);
    TellOne(t1, Post(w, true), []);
  }

  /** A release tells nothing, and leaves the others as they are. */
  lemma ReleaseTellsNothing(t: Teller, v: nat) returns (actions: seq<Action>)
    requires t.base.row.kind.Batch? && t.base.row.present && t.base.row.notified && v in Holders(t.base.workers)
    ensures var u := TellAll(t, actions);
            && IsOpen(u.base.row) && u.base.row.kind.Batch? && u.base.past == t.base.past
            && u.told == t.told && u.carries == t.carries && u.base.workers == t.base.workers - {v}
  {
    if t.base.workers[v].Holding? {
      var t1 := Tell(t, Post(v, false));
      TellOne(t, Post(v, false), [Release(v)]);
      TellOne(t1, Release(v), []);
      assert t1.base.workers - {v} == t.base.workers - {v};
      actions := [Post(v, false), Release(v)];
    } else {
      TellOne(t, Release(v), []);
      actions := [Release(v)];
    }
  }

  ghost predicate CanTellOlder(t: Teller) {
    exists actions :: TellAll(t, actions).base.past.resets == t.base.past.resets && TellsOlder(t, TellAll(t, actions))
  }

  /** Whoever stands in the way of a worker releases its claim, if it must. */
  lemma OpensFor(t: Teller, w: nat) returns (actions: seq<Action>)
    requires t.base.row.kind.Batch? && CanBeClaimed(t.base) && At(t.base, w, Claiming)
    ensures var u := TellAll(t, actions);
            && IsOpen(u.base.row) && u.base.row.kind.Batch? && u.base.past == t.base.past
            && u.told == t.told && u.carries == t.carries && At(u.base, w, Claiming)
  {
    if IsOpen(t.base.row) {
      actions := [];
    } else {
      var v :| v in Holders(t.base.workers);
      actions := ReleaseTellsNothing(t, v);
    }
  }

  lemma OldCanBeTold(t: Teller)
    requires t.base.row.kind.Batch? && OldIsComing(t)
    ensures CanTellOlder(t)
  {
    if w :| SendsOld(t, w) {
      PostTells(t, w);
      assert TellAll(t, [Post(w, true)]).told[|t.told|] < t.base.past.resets;
      assert TellsOlder(t, TellAll(t, [Post(w, true)]));
    } else {
      var w :| WaitsWithOld(t, w);
      var first := OpensFor(t, w);
      WaiterTells(TellAll(t, first), w);
      TellConcat(t, first, [Claim(w, true), Post(w, true)]);
      var all := first + [Claim(w, true), Post(w, true)];
      assert TellAll(t, all).told[|t.told|] < t.base.past.resets;
      assert TellsOlder(t, TellAll(t, all));
    }
  }

  /** Exactly when, without a further re-opening, a delivery of a batch can tell an older
      status than the last: one is being sent, or it waits and the row can be claimed. */
  lemma OlderStatusCanBeToldIff(t: Teller)
    requires OnlyNotifies(t.base)
    ensures CanTellOlder(t) <==> OldIsComing(t)
  {
    if OldIsComing(t) {
      OldCanBeTold(t);
    } else {
      forall actions | TellAll(t, actions).base.past.resets == t.base.past.resets
        ensures !TellsOlder(t, TellAll(t, actions))
      {
        NoneIsTold(t, actions);
      }
    }
  }

  // ---------------------------------------- when the last status can still be told

  predicate SendsLast(t: Teller, w: nat) {
    w in t.base.workers && t.base.workers[w].Holding? && Carried(t, w) == t.base.past.resets
  }

  ghost predicate LastIsComing(t: Teller) {
    CanBeClaimed(t.base) || exists w :: SendsLast(t, w)
  }

  ghost predicate TellsLast(t: Teller, u: Teller) {
    exists i :: |t.told| <= i < |u.told| && u.told[i] == t.base.past.resets
  }

  /** Without it on its way, it does not come up again. */
  lemma LastStaysAway(t: Teller, a: Action)
    requires OnlyNotifies(t.base) && !LastIsComing(t) && Tell(t, a).base.past.resets == t.base.past.resets
    ensures !LastIsComing(Tell(t, a))
    ensures Tell(t, a).told == t.told || exists e: nat :: e != t.base.past.resets && Tell(t, a).told == t.told + [e]
  {
    var u := Tell(t, a);
    SendersAfter(t.base, a);
    if CanBeClaimed(u.base) { ClaimableBefore(t.base, a); }
    forall w ensures !SendsLast(u, w) {
      assert !SendsLast(t, w);
      if SendsLast(u, w) { assert Sends(u.base, w, u.base.workers[w].epoch); }
    }
    if a.Post? { assert !SendsLast(t, a.w); }
  }

  lemma {:induction false} LastIsNotTold(t: Teller, actions: seq<Action>)
    requires OnlyNotifies(t.base) && !LastIsComing(t) && TellAll(t, actions).base.past.resets == t.base.past.resets
    ensures t.told <= TellAll(t, actions).told
    ensures !TellsLast(t, TellAll(t, actions))
    decreases |actions|
  {
    if actions != [] {
      var u, v := Tell(t, actions[0]), TellAll(t, actions);
      ResetsKept(t, actions);
      LastStaysAway(t, actions[0]);
      StepOnlyNotifies(t.base, actions[0]);
      LastIsNotTold(u, actions[1..]);
      forall i | |t.told| <= i < |v.told| ensures v.told[i] != t.base.past.resets {
        if i < |u.told| { assert v.told[i] == u.told[i]; }
      }
    }
  }

  /** A worker that reads the batch now tells the last status. */
  lemma RecoveryTells(t: Teller)
    requires t.base.row.kind.Batch? && IsOpen(t.base.row) && t.base.past.finished
    ensures exists actions ::
              var u := TellAll(t, actions);
              u.base.past.resets == t.base.past.resets && u.told == t.told + [t.base.past.resets]
  {
    var w := FreshWorker(t.base.workers);
    var t1 := Tell(t, Start(w));
    var t2 := Tell(t1, Claim(w, true));
    assert t2.base.workers[w] == Holding(t.base.past.resets) && Carried(t2, w) == t.base.past.resets;
    TellOne(t, Start(w), [Claim(w, true), Post(w, true)]);
    TellOne(t1, Claim(w, true), [Post(w, true)]);
    PostTells(t2, w);
    var all := [Start(w)] + [Claim(w, true), Post(w, true)];
    assert TellAll(t, all).told == t.told + [t.base.past.resets];
  }

  ghost predicate CanTellLast(t: Teller) {
    exists actions :: TellAll(t, actions).base.past.resets == t.base.past.resets && TellsLast(t, TellAll(t, actions))
  }

  lemma LastTold(t: Teller, actions: seq<Action>)
    requires var u := TellAll(t, actions);
             u.base.past.resets == t.base.past.resets && u.told == t.told + [t.base.past.resets]
    ensures CanTellLast(t)
  {
    assert TellAll(t, actions).told[|t.told|] == t.base.past.resets;
    assert TellsLast(t, TellAll(t, actions));
  }

  lemma LastCanBeTold(t: Teller)
    requires t.base.row.kind.Batch? && t.base.past.finished && LastIsComing(t)
    ensures CanTellLast(t)
  {
    if w :| SendsLast(t, w) {
      PostTells(t, w);
      LastTold(t, [Post(w, true)]);
    } else {
      var first := [];
      if !IsOpen(t.base.row) {
        var v :| v in Holders(t.base.workers);
        first := ReleaseTellsNothing(t, v);
      }
      var u := TellAll(t, first);
      RecoveryTells(u);
      var more :| TellAll(u, more).base.past.resets == u.base.past.resets
                  && TellAll(u, more).told == u.told + [u.base.past.resets];
      TellConcat(t, first, more);
      LastTold(t, first + more);
    }
  }

  /** Exactly when, without a further re-opening, a batch's client can still be told its
      last status: some worker is sending it, or the row can be claimed. Otherwise, if it
      was not told before, it is lost. */
  lemma LastStatusCanBeToldIff(t: Teller)
    requires OnlyNotifies(t.base) && t.base.past.finished
    ensures CanTellLast(t) <==> LastIsComing(t)
  {
    if LastIsComing(t) {
      LastCanBeTold(t);
    } else {
      forall actions | TellAll(t, actions).base.past.resets == t.base.past.resets
        ensures !TellsLast(t, TellAll(t, actions))
      {
        LastIsNotTold(t, actions);
      }
    }
  }

  /** Both conditions, at any point of any run of a batch. */
  lemma RunsTellStatusesIff(actions: seq<Action>)
    ensures var t := TellAll(Start0(Batch), actions);
            && (CanTellOlder(t) <==> OldIsComing(t))
            && (t.base.past.finished ==> (CanTellLast(t) <==> LastIsComing(t)))
  {
    var t := TellAll(Start0(Batch), actions);
    TellIsExec(Start0(Batch), actions);
    BatchesOnlyNotify(Init(Batch), actions);
    OlderStatusCanBeToldIff(t);
    if t.base.past.finished { LastStatusCanBeToldIff(t); }
  }
}
