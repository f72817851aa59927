/**
 Deliveries by the opening that was claimed (app/services/call_sync.py,
 app/services/analysis.py). The number of deliveries is bounded by the number of openings,
 but the release of a claim is unconditional: it opens the row again even if the row was
 re-opened and claimed anew in the meantime. So one opening can be claimed and delivered
 twice, and another one not at all.

 What a delivery tells the client is fixed when a call is claimed, and before a batch is;
 that is the matter of `Telling`.
 */
module Epochs {
  import opened Wrappers
  import opened Notification
  import opened NotificationRuns
  import CallStatus

  ghost predicate Distinct(epochs: seq<nat>) {
    forall i, j :: 0 <= i < j < |epochs| ==> epochs[i] != epochs[j]
  }

  predicate HoldsEpoch(s: State, w: nat, epoch: nat) {
    w in s.workers && Holds(s.workers[w]) && s.workers[w].epoch == epoch
  }

  /** Each opening was delivered at most once, and is open, in one worker's hands or
      over; no claim is of an opening yet to come. */
  ghost predicate EpochsAreUnique(s: State) {
    && Distinct(s.past.delivered)
    && (forall e :: e in s.past.delivered ==> e <= s.past.resets)
    && (forall w: nat, e: nat :: HoldsEpoch(s, w, e) ==> e <= s.past.resets && e !in s.past.delivered)
    && (forall v: nat, w: nat, e: nat :: HoldsEpoch(s, v, e) && HoldsEpoch(s, w, e) ==> v == w)
    && (IsOpen(s.row) ==> NotTaken(s, s.past.resets))
  }

  ghost predicate NotTaken(s: State, epoch: nat) {
    epoch !in s.past.delivered && forall w :: !HoldsEpoch(s, w, epoch)
  }

  // --------------------------------------------------- runs without stale releases

  /** The release of a claim that was taken before the row was last re-opened. */
  predicate IsStale(s: State, a: Action) {
    a.Release? && a.w in s.workers && s.workers[a.w].Releasing? && s.workers[a.w].epoch < s.past.resets
  }

  predicate NoneStale(s: State, actions: seq<Action>)
    decreases |actions|
  {
    actions == [] || (!IsStale(s, actions[0]) && NoneStale(Step(s, actions[0]), actions[1..]))
  }

  /** A claim that is held after a step was held before it, or it is that of the open row. */
  lemma ClaimsHeldAfter(s: State, a: Action)
    ensures forall w: nat, e: nat :: HoldsEpoch(Step(s, a), w, e) ==>
              HoldsEpoch(s, w, e) || (a.Claim? && a.w == w && IsOpen(s.row) && e == s.past.resets)
  {
  }

  /** What can be added to the deliveries. */
  lemma DeliveriesAfter(s: State, a: Action)
    ensures var t := Step(s, a);
            || t.past.delivered == s.past.delivered
            || (a.Post? && exists e :: HoldsEpoch(s, a.w, e) && !HoldsEpoch(t, a.w, e)
                                      && t.past.delivered == s.past.delivered + [e] && t.row == s.row)
    ensures s.past.resets <= Step(s, a).past.resets
  {
    if a.Post? && a.w in s.workers && s.workers[a.w].Holding? && a.accepted {
      assert HoldsEpoch(s, a.w, s.workers[a.w].epoch) && !HoldsEpoch(Step(s, a), a.w, s.workers[a.w].epoch);
    }
  }

  /** A row is open after a step because it was, or was re-opened or released. */
  lemma OpenAfter(s: State, a: Action)
    requires IsOpen(Step(s, a).row) && !IsOpen(s.row)
    ensures var t := Step(s, a);
            || t.past.resets > s.past.resets
            || (&& a.Release? && a.w in s.workers && Holds(s.workers[a.w]) && a.w !in t.workers
                && t.past == s.past)
  {
  }

  lemma DistinctMore(epochs: seq<nat>, e: nat)
    requires Distinct(epochs) && e !in epochs
    ensures Distinct(epochs + [e])
  {
    var more := epochs + [e];
    forall i, j | 0 <= i < j < |more| ensures more[i] != more[j] {
      if j == |epochs| { assert more[i] in epochs; }
    }
  }

  lemma StepKeepsHeld(s: State, a: Action)
    requires EpochsAreUnique(s)
    ensures var t := Step(s, a);
            && Distinct(t.past.delivered)
            && (forall e :: e in t.past.delivered ==> e <= t.past.resets)
            && (forall w: nat, e: nat :: HoldsEpoch(t, w, e) ==> e <= t.past.resets && e !in t.past.delivered)
            && (forall v: nat, w: nat, e: nat :: HoldsEpoch(t, v, e) && HoldsEpoch(t, w, e) ==> v == w)
  {
    ClaimsHeldAfter(s, a);
    DeliveriesAfter(s, a);
    if Step(s, a).past.delivered != s.past.delivered {
      var e :| HoldsEpoch(s, a.w, e) && Step(s, a).past.delivered == s.past.delivered + [e];
      DistinctMore(s.past.delivered, e);
    }
  }

  /** Every step keeps the openings apart, but for the release of a stale claim; and that
      one does too if the present opening is in nobody else's hands and undelivered. */
  lemma StepKeepsEpochs(s: State, a: Action)
    requires EpochsAreUnique(s)
    requires IsStale(s, a) && s.row.present ==> NotTaken(s, s.past.resets)
    ensures EpochsAreUnique(Step(s, a))
  {
    var t := Step(s, a);
    StepKeepsHeld(s, a);
    if IsOpen(t.row) { StillNotTaken(s, a); }
  }

  lemma StillNotTaken(s: State, a: Action)
    requires EpochsAreUnique(s) && IsOpen(Step(s, a).row)
    requires IsStale(s, a) && s.row.present ==> NotTaken(s, s.past.resets)
    ensures NotTaken(Step(s, a), Step(s, a).past.resets)
  {
    var t := Step(s, a);
    ClaimsHeldAfter(s, a);
    DeliveriesAfter(s, a);
    if t.past.resets == s.past.resets {
      if !IsOpen(s.row) {
        OpenAfter(s, a);
        assert HoldsEpoch(s, a.w, s.workers[a.w].epoch);
      }
    }
  }

  lemma {:induction false} RunKeepsEpochs(s: State, actions: seq<Action>)
    requires EpochsAreUnique(s) && NoneStale(s, actions)
    ensures EpochsAreUnique(Exec(s, actions))
    decreases |actions|
  {
    if actions != [] {
      StepKeepsEpochs(s, actions[0]);
      RunKeepsEpochs(Step(s, actions[0]), actions[1..]);
    }
  }

  /** In every run in which no worker releases a claim that was taken before the last
      re-opening, each opening is delivered at most once. */
  lemma EachOpeningIsDeliveredOnce(kind: Kind, actions: seq<Action>)
    requires NoneStale(Init(kind), actions)
    ensures Distinct(Exec(Init(kind), actions).past.delivered)
  {
    assert EpochsAreUnique(Init(kind));
    RunKeepsEpochs(Init(kind), actions);
  }

  // ------------------------------------------------- when a repetition is possible

  /** How often the present opening was and still may be delivered: once if it was, once
      if the row is open, and once for every worker that may release its claim. */
  function Chances(s: State): nat {
    (if s.past.resets in s.past.delivered then 1 else 0) + InRow(s.row) + |Holders(s.workers)|
  }

  predicate Sends(s: State, w: nat, epoch: nat) {
    w in s.workers && s.workers[w].Holding? && s.workers[w].epoch == epoch
  }

  /** Two workers are sending one opening, or one is sending what was delivered. */
  ghost predicate SendsTwice(s: State) {
    || (exists v: nat, w: nat, e: nat :: v != w && Sends(s, v, e) && Sends(s, w, e))
    || (exists w: nat, e: nat :: Sends(s, w, e) && e in s.past.delivered)
  }

  /** Nothing was repeated and nothing can be without a further re-opening. */
  ghost predicate NoRepeatLeft(s: State) {
    Distinct(s.past.delivered) && !SendsTwice(s) && (s.row.present ==> Chances(s) <= 1)
  }

  /** A worker that neither takes nor ends a claim holds none before and after. */
  lemma GotoKeepsHolders(workers: map<nat, Pc>, w: nat, pc: Pc)
    requires !Holds(pc) && (w in workers ==> !Holds(workers[w]))
    ensures Holders(workers[w := pc]) == Holders(workers)
  {
  }

  lemma WorkKeepsChances(s: State, a: Action)
    requires a.Start? || a.Look? || a.Analyse?
    requires Step(s, a).past.resets == s.past.resets
    ensures Chances(Step(s, a)) == Chances(s)
  {
    var t := Step(s, a);
    if a.w in t.workers && t.workers != s.workers {
      GotoKeepsHolders(s.workers, a.w, t.workers[a.w]);
      assert t.workers == s.workers[a.w := t.workers[a.w]];
    }
  }

  lemma ClaimKeepsChances(s: State, w: nat, webhook: bool)
    ensures Chances(Step(s, Claim(w, webhook))) <= Chances(s)
  {
    HoldersGoto(s.workers, w, Holding(s.past.resets));
    HoldersLeave(s.workers, w);
  }

  lemma EndKeepsChances(s: State, a: Action)
    requires a.Post? || a.Release? || a.Crash?
    ensures Chances(Step(s, a)) <= Chances(s)
  {
    if a.Post? && a.w in s.workers && s.workers[a.w].Holding? {
      HoldersGoto(s.workers, a.w, Releasing(s.workers[a.w].epoch));
    }
    HoldersLeave(s.workers, a.w);
  }

  lemma StepKeepsChances(s: State, a: Action)
    requires Step(s, a).past.resets == s.past.resets
    ensures Chances(Step(s, a)) <= Chances(s)
  {
    match a
    case Start(_) => WorkKeepsChances(s, a);
    case Look(_) => WorkKeepsChances(s, a);
    case Analyse(_, _) => WorkKeepsChances(s, a);
    case Claim(w, webhook) => ClaimKeepsChances(s, w, webhook);
    case Post(_, _) => EndKeepsChances(s, a);
    case Release(_) => EndKeepsChances(s, a);
    case Crash(_) => EndKeepsChances(s, a);
    case _ =>
  }

  lemma SendersAfter(s: State, a: Action)
    ensures forall w: nat, e: nat :: Sends(Step(s, a), w, e) ==>
              Sends(s, w, e) || (a.Claim? && a.w == w && IsOpen(s.row) && e == s.past.resets)
  {
  }

  /** What is confirmed was being sent, and is not any more. */
  lemma ConfirmedAfter(s: State, a: Action)
    ensures var t := Step(s, a);
            || t.past.delivered == s.past.delivered
            || (a.Post? && a.w !in t.workers
                && exists e :: Sends(s, a.w, e) && t.past.delivered == s.past.delivered + [e])
    ensures a.Claim? ==> Step(s, a).past.delivered == s.past.delivered
  {
    if a.Post? && a.w in s.workers && s.workers[a.w].Holding? && a.accepted {
      assert Sends(s, a.w, s.workers[a.w].epoch);
    }
  }

  /** With one chance at most, an open row is nobody's yet. */
  lemma OneChanceIsFree(s: State)
    requires IsOpen(s.row) && Chances(s) <= 1
    ensures s.past.resets !in s.past.delivered && forall w: nat, e: nat :: !Sends(s, w, e)
  {
    assert Holders(s.workers) == {};
    assert forall w: nat, e: nat :: Sends(s, w, e) ==> w in Holders(s.workers);
  }

  lemma ConfirmKeepsNoRepeat(s: State, a: Action)
    requires NoRepeatLeft(s) && Step(s, a).past.delivered != s.past.delivered
    ensures Distinct(Step(s, a).past.delivered) && !SendsTwice(Step(s, a))
  {
    ConfirmedAfter(s, a);
    SendersAfter(s, a);
    var e: nat :| Sends(s, a.w, e) && Step(s, a).past.delivered == s.past.delivered + [e];
    DistinctMore(s.past.delivered, e);
  }

  lemma StepKeepsNoRepeat(s: State, a: Action)
    requires NoRepeatLeft(s) && Step(s, a).past.resets == s.past.resets
    ensures NoRepeatLeft(Step(s, a))
  {
    StepKeepsChances(s, a);
    if Step(s, a).past.delivered != s.past.delivered {
      ConfirmKeepsNoRepeat(s, a);
    } else {
      SendersAfter(s, a);
      if a.Claim? && IsOpen(s.row) { OneChanceIsFree(s); }
    }
  }

  lemma {:induction false} NoneLeftNeverRepeats(s: State, actions: seq<Action>)
    requires NoRepeatLeft(s) && Exec(s, actions).past.resets == s.past.resets
    ensures Distinct(Exec(s, actions).past.delivered)
    decreases |actions|
  {
    if actions != [] {
      var t := Step(s, actions[0]);
      StepResets(s, actions[0]);
      ResetsGrow(t, actions[1..]);
      StepKeepsNoRepeat(s, actions[0]);
      NoneLeftNeverRepeats(t, actions[1..]);
    }
  }

  /** An open row and a holder: deliver, let the holder fail and release, deliver again. */
  lemma RepeatFromOpen(s: State, w: nat) returns (actions: seq<Action>)
    requires IsOpen(s.row) && s.past.finished && w in Holders(s.workers)
    ensures var t := Exec(s, actions);
            t.past.resets == s.past.resets && t.past.delivered == s.past.delivered + [s.past.resets, s.past.resets]
  {
    var first := OpenRowIsDelivered(s);
    var t := Exec(s, first);
    var release := HolderReleases(t, w);
    var u := Exec(t, release);
    var second := OpenRowIsDelivered(u);
    ExecConcat(s, first, release);
    ExecConcat(s, first + release, second);
    actions := first + release + second;
  }

  /** The row is marked: a holder fails and releases first. */
  lemma RepeatFromMarked(s: State, w: nat) returns (actions: seq<Action>)
    requires s.row.present && s.row.notified && s.past.finished && w in Holders(s.workers)
    requires s.past.resets in s.past.delivered || exists v :: v != w && v in Holders(s.workers)
    ensures Exec(s, actions).past.resets == s.past.resets && !Distinct(Exec(s, actions).past.delivered)
  {
    var release := HolderReleases(s, w);
    var t := Exec(s, release);
    var more;
    if s.past.resets in s.past.delivered {
      more := OpenRowIsDelivered(t);
      Repeated(s.past.delivered, s.past.resets);
    } else {
      var v :| v != w && v in Holders(s.workers);
      assert v in t.workers && Holds(t.workers[v]);
      more := RepeatFromOpen(t, v);
      Repeated(s.past.delivered + [s.past.resets], s.past.resets);
      assert s.past.delivered + [s.past.resets] + [s.past.resets] == s.past.delivered + [s.past.resets, s.past.resets];
    }
    ExecConcat(s, release, more);
    actions := release + more;
  }

  lemma Repeated(epochs: seq<nat>, e: nat)
    requires e in epochs
    ensures !Distinct(epochs + [e])
  {
    var i :| 0 <= i < |epochs| && epochs[i] == e;
    assert (epochs + [e])[i] == (epochs + [e])[|epochs|];
  }

  ghost predicate CanRepeat(s: State) {
    exists actions :: Exec(s, actions).past.resets == s.past.resets && !Distinct(Exec(s, actions).past.delivered)
  }

  /** The row is open: deliver, and if that was no repetition yet, a holder makes one. */
  lemma OpenRepeats(s: State)
    requires IsOpen(s.row) && s.past.finished && Chances(s) >= 2
    ensures CanRepeat(s)
  {
    if s.past.resets in s.past.delivered {
      var actions := OpenRowIsDelivered(s);
      Repeated(s.past.delivered, s.past.resets);
      assert !Distinct(Exec(s, actions).past.delivered);
    } else {
      assert Holders(s.workers) != {};
      var w :| w in Holders(s.workers);
      var actions := RepeatFromOpen(s, w);
      var once := s.past.delivered + [s.past.resets];
      assert once + [s.past.resets] == s.past.delivered + [s.past.resets, s.past.resets];
      Repeated(once, s.past.resets);
      assert !Distinct(Exec(s, actions).past.delivered);
    }
  }

  lemma MarkedRepeats(s: State)
    requires s.row.present && s.row.notified && s.past.finished && Chances(s) >= 2
    ensures CanRepeat(s)
  {
    var holders := Holders(s.workers);
    assert holders != {};
    var w :| w in holders;
    if s.past.resets !in s.past.delivered {
      assert |holders - {w}| >= 1;
      var v :| v in holders - {w};
    }
    var actions := RepeatFromMarked(s, w);
    assert !Distinct(Exec(s, actions).past.delivered);
  }

  /** Both senders of one opening are confirmed, or the one of a delivered opening. */
  lemma SendersRepeat(s: State)
    requires SendsTwice(s)
    ensures CanRepeat(s)
  {
    if w: nat, e: nat :| Sends(s, w, e) && e in s.past.delivered {
      ExecOne(s, Post(w, true), []);
      Repeated(s.past.delivered, e);
      assert !Distinct(Exec(s, [Post(w, true)]).past.delivered);
    } else {
      var v: nat, w: nat, e: nat :| v != w && Sends(s, v, e) && Sends(s, w, e);
      var t := Step(s, Post(v, true));
      ExecOne(s, Post(v, true), [Post(w, true)]);
      ExecOne(t, Post(w, true), []);
      Repeated(s.past.delivered + [e], e);
      assert !Distinct(Exec(s, [Post(v, true)] + [Post(w, true)]).past.delivered);
    }
  }

  /** Exactly when some continuation without a further re-opening delivers an opening
      twice, if none was so far: the row is there and the present opening has two chances,
      or what is being sent is a repetition already. */
  lemma RepetitionIsPossibleIff(s: State)
    requires Distinct(s.past.delivered) && s.past.finished
    ensures CanRepeat(s) <==> (s.row.present && Chances(s) >= 2) || SendsTwice(s)
  {
    if SendsTwice(s) {
      SendersRepeat(s);
    } else if s.row.present && Chances(s) >= 2 {
      if IsOpen(s.row) { OpenRepeats(s); } else { MarkedRepeats(s); }
    } else {
      forall actions | Exec(s, actions).past.resets == s.past.resets
        ensures Distinct(Exec(s, actions).past.delivered)
      {
        NoneLeftNeverRepeats(s, actions);
      }
    }
  }

  // ------------------------------------------------- when the order can be broken

  ghost predicate InOrder(epochs: seq<nat>) {
    forall i, j :: 0 <= i < j < |epochs| ==> epochs[i] <= epochs[j]
  }

  /** No claim is of an opening yet to come. */
  ghost predicate EpochsAreBounded(s: State) {
    && (forall e :: e in s.past.delivered ==> e <= s.past.resets)
    && (forall w: nat, e: nat :: HoldsEpoch(s, w, e) ==> e <= s.past.resets)
  }

  lemma StepKeepsBounds(s: State, a: Action)
    requires EpochsAreBounded(s)
    ensures EpochsAreBounded(Step(s, a))
  {
    ClaimsHeldAfter(s, a);
    DeliveriesAfter(s, a);
  }

  lemma {:induction false} AlwaysBounded(s: State, actions: seq<Action>)
    requires EpochsAreBounded(s)
    ensures EpochsAreBounded(Exec(s, actions))
    decreases |actions|
  {
    if actions != [] {
      StepKeepsBounds(s, actions[0]);
      AlwaysBounded(Step(s, actions[0]), actions[1..]);
    }
  }

  /** The present opening can be delivered without this worker: the row is there and it is
      open, or another worker may release its claim. */
  ghost predicate OthersCanDeliver(s: State, w: nat) {
    s.row.present && (IsOpen(s.row) || exists v :: v != w && v in Holders(s.workers))
  }

  /** The worker is sending an opening while a newer one was delivered, is being sent by
      another worker, or can be claimed and delivered before. */
  ghost predicate MayComeLate(s: State, w: nat, e: nat) {
    && Sends(s, w, e)
    && (|| (exists d :: d in s.past.delivered && d > e)
        || (exists v: nat, f: nat :: v != w && Sends(s, v, f) && f > e)
        || (e < s.past.resets && OthersCanDeliver(s, w)))
  }

  ghost predicate NoneLate(s: State) {
    && EpochsAreBounded(s) && InOrder(s.past.delivered)
    && forall w: nat, e: nat :: !MayComeLate(s, w, e)
  }

  lemma InOrderMore(epochs: seq<nat>, e: nat)
    requires InOrder(epochs) && forall d :: d in epochs ==> d <= e
    ensures InOrder(epochs + [e])
  {
    var more := epochs + [e];
    forall i, j | 0 <= i < j < |more| ensures more[i] <= more[j] {
      if j == |epochs| { assert more[i] in epochs; }
    }
  }

  lemma ConfirmKeepsOrder(s: State, a: Action)
    requires NoneLate(s)
    ensures InOrder(Step(s, a).past.delivered)
    ensures forall w: nat, e: nat, d: nat :: Sends(Step(s, a), w, e) && d in Step(s, a).past.delivered ==> d <= e
  {
    var t := Step(s, a);
    ConfirmedAfter(s, a);
    SendersAfter(s, a);
    forall w: nat, e: nat, d: nat | Sends(s, w, e) && d in s.past.delivered ensures d <= e {
      assert !MayComeLate(s, w, e);
    }
    if t.past.delivered != s.past.delivered {
      var f: nat :| Sends(s, a.w, f) && t.past.delivered == s.past.delivered + [f];
      InOrderMore(s.past.delivered, f);
      forall w: nat, e: nat | Sends(t, w, e) ensures f <= e {
        assert !MayComeLate(s, w, e);
      }
    }
  }

  /** Who else can deliver after a step could before it. */
  lemma OthersBefore(s: State, a: Action, w: nat)
    requires Step(s, a).past.resets == s.past.resets && w in s.workers && s.workers[w].Holding?
    requires OthersCanDeliver(Step(s, a), w)
    ensures OthersCanDeliver(s, w)
  {
    var t := Step(s, a);
    if IsOpen(t.row) && !IsOpen(s.row) {
      OpenAfter(s, a);
      assert a.w in Holders(s.workers) && a.w != w;
    } else if !IsOpen(t.row) {
      var v :| v != w && v in Holders(t.workers);
      assert HoldsEpoch(t, v, t.workers[v].epoch);
      ClaimsHeldAfter(s, a);
      if v in Holders(s.workers) { assert v != w; }
    }
  }

  lemma StepKeepsOrder(s: State, a: Action)
    requires NoneLate(s) && Step(s, a).past.resets == s.past.resets
    ensures NoneLate(Step(s, a))
  {
    var t := Step(s, a);
    StepKeepsBounds(s, a);
    ConfirmKeepsOrder(s, a);
    SendersAfter(s, a);
    forall w: nat, e: nat | Sends(t, w, e) ensures !MayComeLate(t, w, e) {
      if Sends(s, w, e) {
        assert !MayComeLate(s, w, e);
        if OthersCanDeliver(t, w) { OthersBefore(s, a, w); }
        if v: nat, f: nat :| v != w && Sends(t, v, f) && f > e {
          assert OthersCanDeliver(s, w);
        }
      } else {
        assert forall v: nat, f: nat :: Sends(t, v, f) ==> HoldsEpoch(t, v, f);
      }
    }
  }

  lemma {:induction false} NoneLateStaysInOrder(s: State, actions: seq<Action>)
    requires NoneLate(s) && Exec(s, actions).past.resets == s.past.resets
    ensures InOrder(Exec(s, actions).past.delivered)
    decreases |actions|
  {
    if actions != [] {
      var t := Step(s, actions[0]);
      StepResets(s, actions[0]);
      ResetsGrow(t, actions[1..]);
      StepKeepsOrder(s, actions[0]);
      NoneLateStaysInOrder(t, actions[1..]);
    }
  }

  ghost predicate CanComeLate(s: State) {
    exists actions :: Exec(s, actions).past.resets == s.past.resets && !InOrder(Exec(s, actions).past.delivered)
  }

  lemma Late(epochs: seq<nat>, d: nat, e: nat)
    requires d in epochs && d > e
    ensures !InOrder(epochs + [e])
  {
    var i :| 0 <= i < |epochs| && epochs[i] == d;
    var late := epochs + [e];
    assert late[i] > late[|epochs|];
  }

  /** First the newer opening is delivered, then the worker's own. */
  lemma LateAfter(s: State, first: seq<Action>, w: nat, e: nat, d: nat)
    requires var t := Exec(s, first);
             t.past.resets == s.past.resets && Sends(t, w, e) && d in t.past.delivered && d > e
    ensures CanComeLate(s)
  {
    var t := Exec(s, first);
    ExecOne(t, Post(w, true), []);
    ExecConcat(s, first, [Post(w, true)]);
    Late(t.past.delivered, d, e);
    assert !InOrder(Exec(s, first + [Post(w, true)]).past.delivered);
  }

  lemma LateIsPossible(s: State, w: nat, e: nat)
    requires s.past.finished && MayComeLate(s, w, e)
    ensures CanComeLate(s)
  {
    if d :| d in s.past.delivered && d > e {
      LateAfter(s, [], w, e, d);
    } else if v: nat, f: nat :| v != w && Sends(s, v, f) && f > e {
      ExecOne(s, Post(v, true), []);
      LateAfter(s, [Post(v, true)], w, e, f);
    } else if IsOpen(s.row) {
      var first := OpenRowIsDelivered(s);
      LateAfter(s, first, w, e, s.past.resets);
    } else {
      var v :| v != w && v in Holders(s.workers);
      var release := HolderReleases(s, v);
      var t := Exec(s, release);
      assert Sends(t, w, e);
      var more := OpenRowIsDelivered(t);
      ExecConcat(s, release, more);
      LateAfter(s, release + more, w, e, s.past.resets);
    }
  }

  /** Exactly when, without a further re-opening, an older opening can be confirmed after a
      newer one, if none was so far. */
  lemma LateDeliveryIsPossibleIff(s: State)
    requires EpochsAreBounded(s) && InOrder(s.past.delivered) && s.past.finished
    ensures CanComeLate(s) <==> exists w: nat, e: nat :: MayComeLate(s, w, e)
  {
    if w: nat, e: nat :| MayComeLate(s, w, e) {
      LateIsPossible(s, w, e);
    } else {
      forall actions | Exec(s, actions).past.resets == s.past.resets
        ensures InOrder(Exec(s, actions).past.delivered)
      {
        NoneLateStaysInOrder(s, actions);
      }
    }
  }

  /** In every run no claim is of an opening yet to come, so that the condition on late
      deliveries is good for every state that a run can reach. */
  lemma ReachableIsBounded(kind: Kind, actions: seq<Action>)
    ensures EpochsAreBounded(Exec(Init(kind), actions))
  {
    assert EpochsAreBounded(Init(kind));
    AlwaysBounded(Init(kind), actions);
  }

  // ------------------------------------------------------- a run with a repetition

  function Completing(w: nat, answer: LlmAnswer): seq<Action> {
    [Start(w), Look(w), Analyse(w, answer), Claim(w, true)]
  }

  lemma CompletingSteps(s: State, w: nat, answer: LlmAnswer)
    ensures Exec(s, Completing(w, answer)) ==
            Step(Step(Step(Step(s, Start(w)), Look(w)), Analyse(w, answer)), Claim(w, true))
  {
    ExecOne(s, Start(w), [Look(w), Analyse(w, answer), Claim(w, true)]);
    ExecOne(Step(s, Start(w)), Look(w), [Analyse(w, answer), Claim(w, true)]);
    ExecOne(Step(Step(s, Start(w)), Look(w)), Analyse(w, answer), [Claim(w, true)]);
    ExecOne(Step(Step(Step(s, Start(w)), Look(w)), Analyse(w, answer)), Claim(w, true), []);
  }

  /** A worker classifies by status, and claims. */
  lemma GuessIsClaimed(s: State, w: nat)
    requires s.row.kind.Call? && IsOpen(s.row) && s.row.source.NoAnalysis? && !s.row.transcript
    requires s.past.finished && w !in s.workers
    ensures var t := Exec(s, Completing(w, Unavailable));
            && t.row == s.row.(source := StatusGuess, notified := true)
            && t.workers == s.workers[w := Holding(s.past.resets)] && t.past == s.past
  {
    CompletingSteps(s, w, Unavailable);
    var t := Step(Step(s, Start(w)), Look(w));
    assert t.workers[w] == Analysing(Classify) && t.row == s.row && t.past == s.past;
  }

  /** A worker upgrades the guess, which re-opens the row, and claims. */
  lemma UpgradeIsClaimed(s: State, w: nat)
    requires s.row.kind.Call? && s.row.present && s.row.notified && s.row.source.StatusGuess?
    requires CallStatus.IsConnected(s.row.status) && s.row.transcript && s.past.finished && w !in s.workers
    ensures var t := Exec(s, Completing(w, Classified));
            && t.row == s.row.(source := LlmAnalysis)
            && t.workers == s.workers[w := Holding(s.past.resets + 1)]
            && t.past == s.past.(resets := s.past.resets + 1)
  {
    CompletingSteps(s, w, Classified);
    var t := Step(Step(s, Start(w)), Look(w));
    assert t.workers[w] == Analysing(Analyze(true)) && t.row == s.row && t.past == s.past;
  }

  /** Worker 0 is sending the status guess; the transcript has come, and worker 1 is
      sending the correction. */
  lemma TwoSenders() returns (actions: seq<Action>)
    ensures var t := Exec(Init(Call), actions);
            && t.row.present && t.row.notified && t.past.finished && t.past.resets == 1 && t.past.delivered == []
            && Sends(t, 0, 0) && Sends(t, 1, 1)
  {
    var first := [Sync("completed", None)] + Completing(0, Unavailable);
    var s1 := Step(Init(Call), Sync("completed", None));
    ExecOne(Init(Call), Sync("completed", None), Completing(0, Unavailable));
    GuessIsClaimed(s1, 0);
    var s2 := Exec(s1, Completing(0, Unavailable));
    var upgrade := [Sync("completed", Some(true))] + Completing(1, Classified);
    var s3 := Step(s2, Sync("completed", Some(true)));
    ExecOne(s2, Sync("completed", Some(true)), Completing(1, Classified));
    UpgradeIsClaimed(s3, 1);
    ExecConcat(Init(Call), first, upgrade);
    actions := first + upgrade;
  }

  /** Worker 0 fails, and its release opens the row once more: the correction goes out
      twice, with one re-opening, and the first opening is never delivered. */
  lemma OneOpeningIsDeliveredTwice()
    ensures exists actions ::
              Exec(Init(Call), actions).past.resets == 1 && Exec(Init(Call), actions).past.delivered == [1, 1]
  {
    var first := TwoSenders();
    var rest := StaleReleaseRepeats(Exec(Init(Call), first));
    ExecConcat(Init(Call), first, rest);
    assert Exec(Init(Call), first + rest).past.resets == 1;
  }

  /** Or the guess is confirmed after its correction. */
  lemma GuessArrivesLast()
    ensures exists actions ::
              Exec(Init(Call), actions).past.resets == 1 && Exec(Init(Call), actions).past.delivered == [1, 0]
  {
    var first := TwoSenders();
    var s := Exec(Init(Call), first);
    var t := Step(s, Post(1, true));
    ExecOne(s, Post(1, true), [Post(0, true)]);
    ExecOne(t, Post(0, true), []);
    var rest := [Post(1, true)] + [Post(0, true)];
    ExecConcat(Init(Call), first, rest);
    assert Exec(Init(Call), first + rest).past.resets == 1;
  }

  lemma StaleReleaseRepeats(s: State) returns (actions: seq<Action>)
    requires s.row.present && s.row.notified && s.past.finished && s.past.resets == 1 && s.past.delivered == []
    requires Sends(s, 0, 0) && Sends(s, 1, 1)
    ensures Exec(s, actions).past.resets == 1 && Exec(s, actions).past.delivered == [1, 1]
  {
    var release := HolderReleases(s, 0);
    var t := Exec(s, release);
    assert 1 in t.workers && Holds(t.workers[1]);
    var more := RepeatFromOpen(t, 1);
    ExecConcat(s, release, more);
    actions := release + more;
  }
}
