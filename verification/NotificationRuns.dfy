/**
 What holds of every run of the notification protocol: how many notifications a
 client can get, which openings can be lost, and which crashes recovery repairs.
 */
module NotificationRuns {
  import opened Wrappers
  import opened Notification
  import CallStatus

  lemma {:induction false} RunKeepsInv(s: State, actions: seq<Action>)
    requires Inv(s)
    ensures Inv(Exec(s, actions)) && Exec(s, actions).row.kind == s.row.kind
    decreases |actions|
  {
    if actions != [] {
      StepKeepsInv(s, actions[0]);
      RunKeepsInv(Step(s, actions[0]), actions[1..]);
    }
  }

  lemma InitInv(kind: Kind)
    ensures Inv(Init(kind))
  {
  }

  /** Claim conservation over every interleaving of any number of workers, crashes,
      releases, upgrades, deletions and recovery passes. The openings of the row and the
      places they went to agree in number; so a client is told at most as often as the
      row was opened. Which opening it is told of is another matter (module `Epochs`). */
  lemma ClaimConservation(kind: Kind, actions: seq<Action>)
    ensures var t := Exec(Init(kind), actions);
            && (if t.row.present && !t.row.notified then 1 else 0) + |Holders(t.workers)|
               + |t.past.delivered| + |t.past.ended| + |t.past.abandoned| + t.past.absorbed + t.past.dropped
               == (if kind.Call? then 1 else 0) + t.past.resets
            && (t.row.present && t.past.resets == 0 ==> t.past.absorbed == t.past.dropped == 0)
            && |t.past.delivered| <= (if kind.Call? then 1 else 0) + t.past.resets
  {
    InitInv(kind);
    RunKeepsInv(Init(kind), actions);
  }

  /** A row marked as notified was claimed after it was last opened, by a worker that is
      still at it or that came to an end. Whether that worker tells the client what the
      row was opened for is another matter: for a call it does, for a batch it may carry
      an older status (module `Telling`). */
  lemma LastOpeningIsClaimed(kind: Kind, actions: seq<Action>)
    ensures var t := Exec(Init(kind), actions);
            t.row.present && t.row.notified && (kind.Call? || t.past.resets > 0) ==> Claimed(t, t.past.resets)
  {
    InitInv(kind);
    RunKeepsInv(Init(kind), actions);
  }

  /** A call is never reported to its client unless some payload finished it. */
  lemma {:induction false} NothingSentBeforeFinish(actions: seq<Action>)
    requires forall a :: a in actions && a.Sync? ==> !CallStatus.IsTerminal(a.status)
    ensures var t := Exec(Init(Call), actions);
            t.workers == map[] && t.past.delivered == [] && t.past.ended == [] && t.past.abandoned == []
  {
    InitInv(Call);
    RunKeepsInv(Init(Call), actions);
    StaysUnfinished(Init(Call), actions);
  }

  lemma {:induction false} StaysUnfinished(s: State, actions: seq<Action>)
    requires s.row.kind.Call? && !s.past.finished
    requires forall a :: a in actions && a.Sync? ==> !CallStatus.IsTerminal(a.status)
    ensures !Exec(s, actions).past.finished
    decreases |actions|
  {
    if actions != [] {
      StaysUnfinished(Step(s, actions[0]), actions[1..]);
    }
  }

  // ------------------------------------------------- the bound is reached

  /** One completion of the call by worker 0, confirmed by the client, in which
      the model gives no answer. */
  const CYCLE: seq<Action> :=
    [Start(0), Look(0), Analyse(0, Unavailable), Claim(0, true), Post(0, true)]

  const FIRST_DELIVERY: seq<Action> := [Sync("completed", None)] + CYCLE + [Sync("completed", Some(true))]

  function Cycles(n: nat): seq<Action> {
    if n == 0 then [] else CYCLE + Cycles(n - 1)
  }

  /** A call whose outcome so far is the status guess, with the transcript there
      and every earlier claim confirmed: what the upgrade test looks for. */
  predicate AwaitsUpgrade(s: State) {
    && s.row.kind.Call? && s.row.present && s.row.notified && s.past.finished && s.workers == map[]
    && s.row.status == "completed" && s.row.transcript && s.row.source.StatusGuess?
  }

  lemma CycleRedelivers(s: State)
    requires AwaitsUpgrade(s)
    ensures var t := Exec(s, CYCLE);
            AwaitsUpgrade(t) && t.past.resets == s.past.resets + 1 && |t.past.delivered| == |s.past.delivered| + 1
  {
  }

  lemma ExecFive(s: State, a: Action, b: Action, c: Action, d: Action, e: Action)
    ensures Exec(s, [a, b, c, d, e]) == Step(Step(Step(Step(Step(s, a), b), c), d), e)
  {
    ExecOne(s, a, [b, c, d, e]);
    ExecOne(Step(s, a), b, [c, d, e]);
    ExecOne(Step(Step(s, a), b), c, [d, e]);
    ExecOne(Step(Step(Step(s, a), b), c), d, [e]);
    ExecOne(Step(Step(Step(Step(s, a), b), c), d), e, []);
  }

  lemma ExecOne(s: State, a: Action, rest: seq<Action>)
    ensures Exec(s, [a] + rest) == Exec(Step(s, a), rest)
  {
  }

  lemma {:induction false} CyclesRedeliver(s: State, n: nat)
    requires AwaitsUpgrade(s)
    ensures var t := Exec(s, Cycles(n));
            AwaitsUpgrade(t) && t.past.resets == s.past.resets + n && |t.past.delivered| == |s.past.delivered| + n
    decreases n
  {
    if n > 0 {
      CycleRedelivers(s);
      CyclesRedeliver(Exec(s, CYCLE), n - 1);
      ExecConcat(s, CYCLE, Cycles(n - 1));
    }
  }

  lemma FirstDelivery()
    ensures var t := Exec(Init(Call), FIRST_DELIVERY);
            AwaitsUpgrade(t) && t.past.resets == 0 && |t.past.delivered| == 1
  {
    var s := Step(Init(Call), Sync("completed", None));
    var s2 := Step(Step(s, Start(0)), Look(0));
    assert s2.workers[0] == Analysing(Classify);
    var s5 := Step(Step(Step(s2, Analyse(0, Unavailable)), Claim(0, true)), Post(0, true));
    assert s5.workers == map[];
    ExecOne(Init(Call), Sync("completed", None), CYCLE + [Sync("completed", Some(true))]);
    assert FIRST_DELIVERY == [Sync("completed", None)] + (CYCLE + [Sync("completed", Some(true))]);
    ExecConcat(s, CYCLE, [Sync("completed", Some(true))]);
    ExecFive(s, Start(0), Look(0), Analyse(0, Unavailable), Claim(0, true), Post(0, true));
    ExecOne(s5, Sync("completed", Some(true)), []);
  }

  /** The bound of as many deliveries as openings is reached for every number of
      re-openings, with a model that never answers: the upgrade re-opens the row
      whether or not it replaced the guess, so the same status guess goes out
      again each time. "Exactly one caller forwards it" therefore holds of a run
      in which no upgrade was committed, and of no larger class by count alone. */
  lemma DeliveryBoundIsTight(n: nat)
    ensures exists actions ::
              var t := Exec(Init(Call), actions);
              t.past.resets == n && |t.past.delivered| == n + 1 && t.row.source.StatusGuess?
  {
    FirstDelivery();
    CyclesRedeliver(Exec(Init(Call), FIRST_DELIVERY), n);
    ExecConcat(Init(Call), FIRST_DELIVERY, Cycles(n));
    var t := Exec(Init(Call), FIRST_DELIVERY + Cycles(n));
    assert t.past.resets == n && |t.past.delivered| == n + 1 && t.row.source.StatusGuess?;
  }

  // ------------------------------------------------- which crashes are repaired

  /** Some continuation gets one more delivery confirmed without re-opening the row. */
  ghost predicate CanStillDeliver(s: State) {
    exists actions :: Exec(s, actions).past.resets == s.past.resets
                      && |Exec(s, actions).past.delivered| > |s.past.delivered|
  }

  predicate IsOpen(row: Row) {
    row.present && !row.notified
  }

  /** The worker is sending, or about to release its claim into a row that is there. */
  predicate CanPassOn(s: State, w: nat) {
    w in s.workers && (s.workers[w].Holding? || (s.row.present && s.workers[w].Releasing?))
  }

  ghost predicate SomethingLeft(s: State) {
    IsOpen(s.row) || exists w :: CanPassOn(s, w)
  }

  /** With nothing left a step delivers nothing and brings nothing back, unless it
      re-opens the row. */
  lemma NothingComesBack(s: State, a: Action)
    requires !SomethingLeft(s)
    ensures var t := Step(s, a);
            && t.past.resets >= s.past.resets
            && (t.past.resets == s.past.resets ==> !SomethingLeft(t) && t.past.delivered == s.past.delivered)
  {
    var t := Step(s, a);
    assert a.Post? || a.Release? ==> !CanPassOn(s, a.w);
    if t.past.resets == s.past.resets {
      forall w ensures !CanPassOn(t, w) {
        assert !CanPassOn(s, w);
      }
    }
  }

  lemma StepResets(s: State, a: Action)
    ensures s.past.resets <= Step(s, a).past.resets
  {
  }

  lemma {:induction false} ResetsGrow(s: State, actions: seq<Action>)
    ensures s.past.resets <= Exec(s, actions).past.resets
    decreases |actions|
  {
    if actions != [] {
      StepResets(s, actions[0]);
      ResetsGrow(Step(s, actions[0]), actions[1..]);
    }
  }

  lemma {:induction false} NothingIsDelivered(s: State, actions: seq<Action>)
    requires !SomethingLeft(s) && Exec(s, actions).past.resets == s.past.resets
    ensures Exec(s, actions).past.delivered == s.past.delivered
    decreases |actions|
  {
    if actions != [] {
      NothingComesBack(s, actions[0]);
      ResetsGrow(Step(s, actions[0]), actions[1..]);
      NothingIsDelivered(Step(s, actions[0]), actions[1..]);
    }
  }

  /** What one delivery for the present opening leaves behind. */
  ghost predicate DeliveredOnce(s: State, t: State) {
    && t.row.present && t.row.notified && t.row.kind == s.row.kind && t.workers == s.workers
    && t.past.resets == s.past.resets && t.past.finished && t.past.delivered == s.past.delivered + [s.past.resets]
  }

  /** A finished call as the recovery query finds it: a fresh worker claims the open
      row and delivers, here with an analysis that raises. */
  lemma RecoveryDelivers(s: State, w: nat)
    requires s.row.kind.Call? && IsOpen(s.row) && CallStatus.IsTerminal(s.row.status)
    requires s.past.finished && w !in s.workers
    ensures DeliveredOnce(s, Exec(s, [Start(w), Look(w), Analyse(w, Raised), Claim(w, true), Post(w, true)]))
  {
    var s3 := Step(Step(Step(s, Start(w)), Look(w)), Analyse(w, Raised));
    assert s3.workers[w] == Claiming && IsOpen(s3.row) && s3.past == s.past;
    assert s3.workers == s.workers[w := Claiming];
    var s4 := Step(s3, Claim(w, true));
    assert s4.workers == s.workers[w := Holding(s.past.resets)];
    assert s.workers[w := Holding(s.past.resets)] - {w} == s.workers;
    ExecFive(s, Start(w), Look(w), Analyse(w, Raised), Claim(w, true), Post(w, true));
  }

  /** For a batch every open row is found. */
  lemma BatchRecoveryDelivers(s: State, w: nat)
    requires s.row.kind.Batch? && IsOpen(s.row) && s.past.finished && w !in s.workers
    ensures DeliveredOnce(s, Exec(s, [Start(w), Claim(w, true), Post(w, true)]))
  {
    var s1 := Step(s, Start(w));
    var s2 := Step(s1, Claim(w, true));
    assert s2.workers == s.workers[w := Holding(s.past.resets)];
    assert s.workers[w := Holding(s.past.resets)] - {w} == s.workers;
    ExecOne(s, Start(w), [Claim(w, true), Post(w, true)]);
    ExecOne(s1, Claim(w, true), [Post(w, true)]);
    ExecOne(s2, Post(w, true), []);
  }

  /** An open row can be delivered whatever else goes on: by recovery, for a call as
      soon as its status is terminal, so after one more payload if it is not. */
  lemma OpenRowIsDelivered(s: State) returns (actions: seq<Action>)
    requires IsOpen(s.row) && s.past.finished
    ensures DeliveredOnce(s, Exec(s, actions))
    ensures s.row.kind.Call? && !CallStatus.IsTerminal(s.row.status) ==> actions != [] && actions[0].Sync?
  {
    var w := FreshWorker(s.workers);
    if s.row.kind.Batch? {
      BatchRecoveryDelivers(s, w);
      return [Start(w), Claim(w, true), Post(w, true)];
    }
    actions := [Start(w), Look(w), Analyse(w, Raised), Claim(w, true), Post(w, true)];
    if CallStatus.IsTerminal(s.row.status) {
      RecoveryDelivers(s, w);
    } else {
      var payload := Sync("completed", None);
      RecoveryDelivers(Step(s, payload), w);
      ExecOne(s, payload, actions);
      actions := [payload] + actions;
    }
  }

  /** What a failed POST and the release that follows it leave behind: the row is open. */
  lemma HolderReleases(s: State, w: nat) returns (actions: seq<Action>)
    requires s.row.present && s.row.notified && CanPassOn(s, w)
    ensures var t := Exec(s, actions);
            && IsOpen(t.row) && t.row.kind == s.row.kind && t.workers == s.workers - {w} && t.past == s.past
  {
    if s.workers[w].Holding? {
      var s1 := Step(s, Post(w, false));
      ExecOne(s, Post(w, false), [Release(w)]);
      ExecOne(s1, Release(w), []);
      assert s1.workers - {w} == s.workers - {w};
      actions := [Post(w, false), Release(w)];
    } else {
      ExecOne(s, Release(w), []);
      actions := [Release(w)];
    }
  }

  /** Whoever holds a claim can deliver it, or release it to be delivered anew. */
  lemma HolderDelivers(s: State, w: nat)
    requires s.past.finished && CanPassOn(s, w)
    ensures CanStillDeliver(s)
  {
    if s.workers[w].Holding? {
      ExecOne(s, Post(w, true), []);
      assert |Exec(s, [Post(w, true)]).past.delivered| > |s.past.delivered|;
    } else if s.row.notified {
      var release := HolderReleases(s, w);
      DeliversAfter(s, release);
    } else {
      DeliversAfter(s, []);
    }
  }

  lemma DeliversAfter(s: State, first: seq<Action>)
    requires IsOpen(Exec(s, first).row) && Exec(s, first).past == s.past && s.past.finished
    ensures CanStillDeliver(s)
  {
    var more := OpenRowIsDelivered(Exec(s, first));
    ExecConcat(s, first, more);
    assert |Exec(s, first + more).past.delivered| > |s.past.delivered|;
  }

  /** Exactly what it takes, for a call or a batch and after any number of re-openings,
      to get one more delivery confirmed without a further re-opening. */
  lemma CanStillDeliverIff(s: State)
    requires s.past.finished
    ensures CanStillDeliver(s) <==> SomethingLeft(s)
  {
    if IsOpen(s.row) {
      DeliversAfter(s, []);
    } else if w :| CanPassOn(s, w) {
      HolderDelivers(s, w);
    } else {
      forall actions | Exec(s, actions).past.resets == s.past.resets
        ensures Exec(s, actions).past.delivered == s.past.delivered
      {
        NothingIsDelivered(s, actions);
      }
    }
  }

  /** After a worker's crash the notification can still be delivered exactly when the
      row is open or another worker has a claim to deliver or to release. So the crash
      takes it along exactly when it was this worker's alone to pass on. */
  lemma CrashIsRepairedIff(s: State, w: nat)
    requires Inv(s) && w in s.workers
    ensures CanStillDeliver(Step(s, Crash(w))) <==>
            IsOpen(s.row) || exists v :: v != w && CanPassOn(s, v)
    ensures CanStillDeliver(s) && !CanStillDeliver(Step(s, Crash(w))) <==>
            !IsOpen(s.row) && CanPassOn(s, w) && forall v :: v != w ==> !CanPassOn(s, v)
  {
    var t := Step(s, Crash(w));
    CanStillDeliverIff(s);
    CanStillDeliverIff(t);
    forall v ensures CanPassOn(t, v) <==> v != w && CanPassOn(s, v) {
    }
  }

  // ----------------------------------------------------------------------- deletion

  lemma StepOfGone(s: State, a: Action)
    requires !s.row.present
    ensures var t := Step(s, a);
            !t.row.present
            && |t.past.delivered| + |Holders(t.workers)| <= |s.past.delivered| + |Holders(s.workers)|
  {
    StepConserves(s, a);
    DropsOnly(s, a);
  }

  /** Without a row every new right is dropped at once, and no account is ever reduced. */
  lemma DropsOnly(s: State, a: Action)
    requires !s.row.present
    ensures var t := Step(s, a);
            && !t.row.present && t.row.kind == s.row.kind
            && t.past.dropped - s.past.dropped >= t.past.resets - s.past.resets
            && |t.past.ended| >= |s.past.ended| && |t.past.abandoned| >= |s.past.abandoned|
            && t.past.absorbed >= s.past.absorbed
  {
  }

  lemma {:induction false} GoneStaysQuiet(s: State, actions: seq<Action>)
    requires !s.row.present
    ensures var t := Exec(s, actions);
            !t.row.present
            && |t.past.delivered| + |Holders(t.workers)| <= |s.past.delivered| + |Holders(s.workers)|
    decreases |actions|
  {
    if actions != [] {
      StepOfGone(s, actions[0]);
      GoneStaysQuiet(Step(s, actions[0]), actions[1..]);
    }
  }

  /** Once the row is deleted, whatever follows, the client gets no more than the POSTs of
      those that hold a claim at that moment. */
  lemma DeletionSilences(s: State, actions: seq<Action>)
    ensures var t := Exec(Step(s, Delete), actions);
            !t.row.present && |t.past.delivered| <= |s.past.delivered| + |Holders(s.workers)|
  {
    GoneStaysQuiet(Step(s, Delete), actions);
  }

  ghost function FreshWorker(workers: map<nat, Pc>): (w: nat)
    ensures w !in workers
  {
    MaxKey(workers.Keys) + 1
  }

  ghost function MaxKey(keys: set<nat>): (top: nat)
    ensures forall k :: k in keys ==> k <= top
  {
    if keys == {} then 0
    else
      var k :| k in keys;
      var rest := MaxKey(keys - {k});
      assert forall j :: j in keys ==> j == k || j in keys - {k};
      if k > rest then k else rest
  }
}
