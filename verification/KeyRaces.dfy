/**
 The key cache when requests, administration and other processes interleave
 (app/auth.py, app/services/tenants.py). A request reads the database, waits for its
 commit, and only then fills the cache; an operation that takes a key away clears the
 cache first and is committed later; and other processes change the database without
 clearing this cache at all.
 */
module KeyRaces {
  import opened Wrappers
  import opened KeyCache

  /** A row that was read for a key, with the time. */
  datatype Read = Read(digest: Digest, tenant: Tenant, at: int)

  /** A cache entry, by the read that it came from. */
  datatype Stored = Stored(read: nat, expires: int)

  datatype State = State(db: Db, cache: map<Digest, Stored>, waiting: map<nat, nat>, now: int, past: seq<Read>)

  datatype Action =
    | Wait(time: nat)
    | Commit(db: Db)                      // the database as some process leaves it
    | Invalidate(digest: Option<Digest>)  // one key, or all of them
    | Look(w: nat, raw: string)           // a request misses the cache and reads
    | Fill(w: nat)                        // its commit is done

  /** Time to live of an entry, and the longest that a commit takes. */
  datatype Limits = Limits(ttl: nat, lag: nat)

  function Step(s: State, a: Action, l: Limits): State {
    match a
    case Wait(time) => s.(now := s.now + time)
    case Commit(db) => s.(db := db)
    case Invalidate(digest) => s.(cache := if digest.Some? then s.cache - {digest.value} else map[])
    case Look(w, raw) =>
      var answer := Scan(s.db, s.db.rows, Sha256(raw));
      if w in s.waiting || !answer.Known? then s
      else s.(waiting := s.waiting[w := |s.past|], past := s.past + [Read(Sha256(raw), answer.tenant, s.now)])
    case Fill(w) =>
      if w !in s.waiting || s.waiting[w] >= |s.past| || s.now > s.past[s.waiting[w]].at + l.lag then s
      else s.(waiting := s.waiting - {w},
              cache := s.cache[s.past[s.waiting[w]].digest := Stored(s.waiting[w], s.now + l.ttl)])
  }

  function Run(s: State, actions: seq<Action>, l: Limits): State {
    if actions == [] then s else Step(Run(s, actions[..|actions| - 1], l), actions[|actions| - 1], l)
  }

  /** The tenant that a request with this key is served from the cache. */
  function Served(s: State, digest: Digest): Option<Tenant> {
    if digest in s.cache && s.cache[digest].read < |s.past| && s.now < s.cache[digest].expires
    then Some(s.past[s.cache[digest].read].tenant) else None
  }

  predicate EntryFits(s: State, d: Digest, l: Limits)
    requires d in s.cache
  {
    && s.cache[d].read < |s.past| && s.past[s.cache[d].read].digest == d
    && s.cache[d].expires <= s.past[s.cache[d].read].at + l.lag + l.ttl
  }

  ghost predicate Inv(s: State, l: Limits) {
    && (forall d :: d in s.cache ==> EntryFits(s, d, l))
    && (forall w :: w in s.waiting ==> s.waiting[w] < |s.past|)
    && (forall i :: 0 <= i < |s.past| ==> s.past[i].at <= s.now)
  }

  lemma StepKeepsInv(s: State, a: Action, l: Limits)
    requires Inv(s, l)
    ensures Inv(Step(s, a, l), l) && s.past <= Step(s, a, l).past
  {
  }

  lemma {:induction false} RunKeepsInv(s: State, actions: seq<Action>, l: Limits)
    requires Inv(s, l)
    ensures Inv(Run(s, actions, l), l) && s.past <= Run(s, actions, l).past
  {
    if actions != [] {
      RunKeepsInv(s, actions[..|actions| - 1], l);
      StepKeepsInv(Run(s, actions[..|actions| - 1], l), actions[|actions| - 1], l);
    }
  }

  // ----------------------------------------------------------- what was read was true

  /** The key opened the door when it was read. */
  ghost predicate TrueThen(r: Read, s: State) {
    && r.at == s.now && Scan(s.db, s.db.rows, r.digest) == Known(r.tenant)
  }

  /** The n-th action of the run is the request's look that made this read. */
  ghost predicate ReadBy(s: State, actions: seq<Action>, l: Limits, r: Read, n: nat) {
    && n < |actions| && actions[n].Look? && Sha256(actions[n].raw) == r.digest
    && TrueThen(r, Run(s, actions[..n], l))
  }

  lemma LastIsRead(s: State, actions: seq<Action>, l: Limits)
    requires actions != []
    requires var before := Run(s, actions[..|actions| - 1], l);
             |Run(s, actions, l).past| == |before.past| + 1
    ensures var n := |actions| - 1;
            ReadBy(s, actions, l, Run(s, actions, l).past[|Run(s, actions[..n], l).past|], n)
  {
  }

  /** Every read of a run was made by a look of the run, and was true then. */
  lemma {:induction false} ReadsAreTrue(s: State, actions: seq<Action>, l: Limits, i: nat) returns (n: nat)
    requires Inv(s, l) && |s.past| <= i < |Run(s, actions, l).past|
    ensures ReadBy(s, actions, l, Run(s, actions, l).past[i], n)
  {
    var init, last := actions[..|actions| - 1], actions[|actions| - 1];
    var before := Run(s, init, l);
    RunKeepsInv(s, init, l);
    StepKeepsInv(before, last, l);
    if i < |before.past| {
      n := ReadsAreTrue(s, init, l, i);
      assert actions[..n] == init[..n];
    } else {
      LastIsRead(s, actions, l);
      n := |init|;
    }
  }

  /** Every tenant served in a run was read, in the run, from an active key of an active
      client, less than a time to live and the time of a commit ago. */
  lemma ServedWasRead(s: State, actions: seq<Action>, l: Limits, digest: Digest) returns (n: nat)
    requires Inv(s, l) && s.cache == map[] && s.waiting == map[] && s.past == []
    requires Served(Run(s, actions, l), digest).Some?
    ensures n < |actions| && actions[n].Look? && Sha256(actions[n].raw) == digest
    ensures var moment := Run(s, actions[..n], l);
            var end := Run(s, actions, l);
            && Scan(moment.db, moment.db.rows, digest) == Known(Served(end, digest).value)
            && end.now - moment.now < l.ttl + l.lag
  {
    var end := Run(s, actions, l);
    RunKeepsInv(s, actions, l);
    assert EntryFits(end, digest, l);
    n := ReadsAreTrue(s, actions, l, end.cache[digest].read);
  }

  /** The time that passes in a run. */
  function Elapsed(actions: seq<Action>): nat {
    if actions == [] then 0
    else
      var last := actions[|actions| - 1];
      Elapsed(actions[..|actions| - 1]) + if last.Wait? then last.time else 0
  }

  lemma {:induction false} TimePasses(s: State, actions: seq<Action>, l: Limits)
    ensures Run(s, actions, l).now == s.now + Elapsed(actions)
  {
    if actions != [] { TimePasses(s, actions[..|actions| - 1], l); }
  }

  /** A key that no request reads any more is served for less than a time to live and the
      time of a commit, whatever is committed or waiting. */
  lemma UnreadIsServedNoLonger(s: State, actions: seq<Action>, l: Limits, digest: Digest)
    requires Inv(s, l) && Served(Run(s, actions, l), digest).Some?
    requires forall n :: 0 <= n < |actions| && actions[n].Look? ==> Sha256(actions[n].raw) != digest
    ensures Elapsed(actions) < l.ttl + l.lag
  {
    var end := Run(s, actions, l);
    RunKeepsInv(s, actions, l);
    TimePasses(s, actions, l);
    assert EntryFits(end, digest, l);
    var read := end.cache[digest].read;
    if read >= |s.past| { var n := ReadsAreTrue(s, actions, l, read); }
    assert end.past[read] == s.past[read];
  }

  // ------------------------------------------------------------------ invalidation

  /** A request that has read this key and may still fill the cache with it. */
  predicate MayFill(s: State, w: nat, digest: Digest, l: Limits) {
    && w in s.waiting && s.waiting[w] < |s.past|
    && s.past[s.waiting[w]].digest == digest && s.now <= s.past[s.waiting[w]].at + l.lag
  }

  /** Nothing that was read of this key before the read `first` is served or will be. */
  ghost predicate NoneOlder(s: State, digest: Digest, first: nat, l: Limits) {
    && first <= |s.past|
    && (digest in s.cache ==> s.cache[digest].read >= first || s.cache[digest].expires <= s.now)
    && forall w :: w in s.waiting && s.waiting[w] < first && MayFill(s, w, digest, l) ==> l.ttl == 0
  }

  lemma StepStaysNew(s: State, a: Action, l: Limits, digest: Digest, first: nat)
    requires Inv(s, l) && NoneOlder(s, digest, first, l)
    ensures NoneOlder(Step(s, a, l), digest, first, l)
  {
    var t := Step(s, a, l);
    forall w | w in t.waiting && t.waiting[w] < first && MayFill(t, w, digest, l)
      ensures l.ttl == 0
    {
      assert MayFill(s, w, digest, l);
    }
    if a.Fill? && t != s { assert s.past[s.waiting[a.w]].digest == digest ==> MayFill(s, a.w, digest, l); }
  }

  lemma {:induction false} StaysNew(s: State, actions: seq<Action>, l: Limits, digest: Digest, first: nat)
    requires Inv(s, l) && NoneOlder(s, digest, first, l)
    ensures NoneOlder(Run(s, actions, l), digest, first, l)
  {
    if actions != [] {
      var init := actions[..|actions| - 1];
      StaysNew(s, init, l, digest, first);
      RunKeepsInv(s, init, l);
      StepStaysNew(Run(s, init, l), actions[|actions| - 1], l, digest, first);
    }
  }

  /** The run ends with the key served by a read from before the run. */
  ghost predicate ServesOldRead(s: State, actions: seq<Action>, digest: Digest, l: Limits) {
    var end := Run(s, actions, l);
    Served(end, digest).Some? && end.cache[digest].read < |s.past|
  }

  /** A key that the cache does not have, and that no request is waiting to fill it with, is
      served only after a request has read it. */
  lemma UncachedIsReadFirst(s: State, actions: seq<Action>, l: Limits, digest: Digest) returns (n: nat)
    requires Inv(s, l) && digest !in s.cache
    requires forall w :: !MayFill(s, w, digest, l)
    requires Served(Run(s, actions, l), digest).Some?
    ensures n < |actions| && actions[n].Look? && Sha256(actions[n].raw) == digest
    ensures var moment := Run(s, actions[..n], l);
            Scan(moment.db, moment.db.rows, digest) == Known(Served(Run(s, actions, l), digest).value)
  {
    var end := Run(s, actions, l);
    StaysNew(s, actions, l, digest, |s.past|);
    RunKeepsInv(s, actions, l);
    assert EntryFits(end, digest, l);
    n := ReadsAreTrue(s, actions, l, end.cache[digest].read);
  }

  /** After an invalidation, of this key or of all, it is not served until a request has
      read it again since, from an active key of an active client, if at the invalidation
      no request was waiting to fill the cache with it. */
  lemma InvalidatedIsReadAgain(s: State, x: Option<Digest>, actions: seq<Action>, l: Limits, digest: Digest)
    returns (n: nat)
    requires Inv(s, l) && (x.None? || x.value == digest)
    requires forall w :: !MayFill(s, w, digest, l)
    requires Served(Run(Step(s, Invalidate(x), l), actions, l), digest).Some?
    ensures n < |actions| && actions[n].Look? && Sha256(actions[n].raw) == digest
    ensures var invalidated := Step(s, Invalidate(x), l);
            var moment := Run(invalidated, actions[..n], l);
            Scan(moment.db, moment.db.rows, digest) == Known(Served(Run(invalidated, actions, l), digest).value)
  {
    var invalidated := Step(s, Invalidate(x), l);
    StepKeepsInv(s, Invalidate(x), l);
    forall w ensures !MayFill(invalidated, w, digest, l) { assert !MayFill(s, w, digest, l); }
    n := UncachedIsReadFirst(invalidated, actions, l, digest);
  }

  /** Two states that differ in the cache entry of one key at most. */
  ghost predicate SameBut(s: State, t: State, other: Digest) {
    && t == s.(cache := t.cache)
    && forall d :: d != other ==>
         (d in s.cache <==> d in t.cache) && (d in s.cache ==> s.cache[d] == t.cache[d])
  }

  lemma StepSameBut(s: State, t: State, a: Action, l: Limits, other: Digest)
    requires SameBut(s, t, other)
    ensures SameBut(Step(s, a, l), Step(t, a, l), other)
  {
  }

  lemma {:induction false} RunSameBut(s: State, t: State, actions: seq<Action>, l: Limits, other: Digest)
    requires SameBut(s, t, other)
    ensures SameBut(Run(s, actions, l), Run(t, actions, l), other)
  {
    if actions != [] {
      var init := actions[..|actions| - 1];
      RunSameBut(s, t, init, l, other);
      StepSameBut(Run(s, init, l), Run(t, init, l), actions[|actions| - 1], l, other);
    }
  }

  /** The invalidation of one key changes nothing for any other, however long the run. */
  lemma OtherKeysAreServedOn(s: State, actions: seq<Action>, l: Limits, other: Digest, digest: Digest)
    requires digest != other
    ensures Served(Run(Step(s, Invalidate(Some(other)), l), actions, l), digest) == Served(Run(s, actions, l), digest)
  {
    RunSameBut(s, Step(s, Invalidate(Some(other)), l), actions, l, other);
  }

  /** The cache serves the key at this moment. */
  predicate StillServes(s: State, digest: Digest) {
    digest in s.cache && s.now < s.cache[digest].expires
  }

  /** Exactly when a key can be served from now on by a read that was made before, as after
      an invalidation that was to prevent it: the cache serves it already, because a request
      has put it back; or entries live at all and a request that has read the key is
      waiting, for no longer than a commit takes. */
  lemma OldReadIsServedIff(s: State, digest: Digest, l: Limits)
    requires Inv(s, l)
    ensures (exists actions :: ServesOldRead(s, actions, digest, l)) <==>
            StillServes(s, digest) || (l.ttl > 0 && exists w :: MayFill(s, w, digest, l))
  {
    if StillServes(s, digest) {
      assert EntryFits(s, digest, l);
      assert ServesOldRead(s, [], digest, l);
    } else if l.ttl > 0 && exists w :: MayFill(s, w, digest, l) {
      var w :| MayFill(s, w, digest, l);
      assert Run(s, [Fill(w)], l) == Step(s, Fill(w), l) by {
        assert [Fill(w)][..0] == [];
      }
      assert ServesOldRead(s, [Fill(w)], digest, l);
    } else {
      forall actions ensures !ServesOldRead(s, actions, digest, l) {
        StaysNew(s, actions, l, digest, |s.past|);
      }
    }
  }

  /** Such a run from start to end: a request that read the key before it was revoked
      fills the cache after the revocation, which then serves the key that the invalidation
      had taken out of it. */
  lemma WaitingRequestUndoesInvalidation(s: State, w: nat, raw: string, after: Db, l: Limits)
    requires Inv(s, l) && w !in s.waiting && l.ttl > 0
    requires Scan(s.db, s.db.rows, Sha256(raw)).Known?
    requires Scan(after, after.rows, Sha256(raw)) == NoKey
    ensures var revoked := Run(s, [Look(w, raw), Invalidate(Some(Sha256(raw))), Commit(after)], l);
            Served(revoked, Sha256(raw)).None? && revoked.db == after
    ensures var end := Run(s, [Look(w, raw), Invalidate(Some(Sha256(raw))), Commit(after), Fill(w)], l);
            && Served(end, Sha256(raw)) == Some(Scan(s.db, s.db.rows, Sha256(raw)).tenant)
            && Scan(end.db, end.db.rows, Sha256(raw)) == NoKey
  {
    var actions := [Look(w, raw), Invalidate(Some(Sha256(raw))), Commit(after), Fill(w)];
    var s1 := Step(s, Look(w, raw), l);
    var s2 := Step(s1, Invalidate(Some(Sha256(raw))), l);
    var s3 := Step(s2, Commit(after), l);
    assert actions[..3][..2] == actions[..2] && actions[..2][..1] == actions[..1] && actions[..1][..0] == [];
    assert Run(s, actions[..1], l) == s1;
    assert Run(s, actions[..2], l) == s2;
    assert Run(s, actions[..3], l) == s3;
    assert actions[..3] == [Look(w, raw), Invalidate(Some(Sha256(raw))), Commit(after)];
  }
}
