/**
 `run_analysis_for_call` (app/services/analysis.py) as one undisturbed run, what
 any sequence of such runs does to the analysis row, and what overlapping runs
 can do that undisturbed ones cannot.
 */
module Analysis {
  import opened Wrappers
  import opened Notification
  import CallStatus

  /** The row after one run that no other writer interrupts. */
  function RunAnalysis(row: Row, answer: LlmAnswer): Row {
    if !row.present then row
    else
      var readable := CallStatus.IsConnected(row.status) && row.transcript;
      var upgrading := row.source.StatusGuess? && readable;
      if !row.source.NoAnalysis? && !upgrading then row
      else if !readable then row.(source := StatusGuess)
      else if answer.Raised? then row
      else
        row.(source := if answer.Classified? then LlmAnalysis else row.source,
             notified := if upgrading then false else row.notified)
  }

  /** The row after an analysis asked for over the API: whatever the status, and
      without a word to the client. */
  function RequestAnalysis(row: Row, answer: LlmAnswer): Row {
    if row.present && row.transcript && answer.Classified? then row.(source := LlmAnalysis) else row
  }

  lemma RequestIsOneStep(s: State, answer: LlmAnswer)
    requires s.row.kind.Call?
    ensures Step(s, Request(answer)) == s.(row := RequestAnalysis(s.row, answer))
  {
  }

  /** A connected call with a transcript for the model to read. */
  predicate Readable(row: Row) {
    row.status in CallStatus.CONNECTED_STATUSES && row.transcript
  }

  /** The undisturbed run is the protocol's two steps taken back to back. */
  lemma RunIsTwoSteps(s: State, w: nat, answer: LlmAnswer)
    requires At(s, w, Starting)
    ensures Exec(s, [Look(w), Analyse(w, answer)]).row == RunAnalysis(s.row, answer)
    ensures At(Exec(s, [Look(w), Analyse(w, answer)]), w, Claiming)
  {
    ExecTwo(s, Look(w), Analyse(w, answer));
  }

  /** What such a run leaves: the model's reading if there was one or if a readable call was
      classified; nothing only where there was nothing and the model gave no reading of a
      readable call; and the row open again only over a guess at a readable call. */
  lemma RunReadsIff(s: State, w: nat, answer: LlmAnswer)
    requires At(s, w, Starting) && s.row.present
    ensures var before, after := s.row, Exec(s, [Look(w), Analyse(w, answer)]).row;
            && (after.source.LlmAnalysis? <==>
                  before.source.LlmAnalysis? || (Readable(before) && answer.Classified?))
            && (after.source.NoAnalysis? <==>
                  before.source.NoAnalysis? && Readable(before) && !answer.Classified?)
            && (after.notified <==>
                  before.notified && !(before.source.StatusGuess? && Readable(before) && !answer.Raised?))
  {
    RunIsTwoSteps(s, w, answer);
  }

  /** Nobody has read the transcript, or is about to. */
  ghost predicate Unread(s: State) {
    && !s.row.source.LlmAnalysis?
    && forall w :: w in s.workers && s.workers[w].Analysing? ==> s.workers[w].plan.Classify?
  }

  /** The step reads a readable call for the model, or the reading was asked for. */
  predicate Plans(s: State, a: Action) {
    s.row.transcript && ((a.Look? && Readable(s.row)) || a == Request(Classified))
  }

  lemma UnreadUntil(s: State, a: Action)
    requires Unread(s) && !Unread(Step(s, a))
    ensures Plans(s, a)
  {
  }

  /** Whenever a row comes to the model's reading, in any interleaving, a worker had found
      the call connected and with a transcript, or the reading had been asked for. */
  lemma {:induction false} ReadingWasPlanned(s: State, actions: seq<Action>) returns (n: nat)
    requires Unread(s) && Exec(s, actions).row.source.LlmAnalysis?
    ensures n < |actions| && Plans(Exec(s, actions[..n]), actions[n])
    decreases |actions|
  {
    var next := Step(s, actions[0]);
    if Unread(next) {
      var j := ReadingWasPlanned(next, actions[1..]);
      n := j + 1;
      assert actions[..n][0] == actions[0] && actions[..n][1..] == actions[1..][..j];
    } else {
      UnreadUntil(s, actions[0]);
      n := 0;
    }
  }

  lemma ExecTwo(s: State, a: Action, b: Action)
    ensures Exec(s, [a, b]) == Step(Step(s, a), b)
  {
    Unroll(s, [a, b]);
    Unroll(Step(s, a), [b]);
  }

  // ------------------------------------------------------- sequences of whole runs

  /** One event in the life of a call: a payload, a whole run, an analysis asked for
      over the API, or some other path writing `notified_at`. */
  datatype Event =
    | Payload(status: string, transcript: Option<bool>)
    | Run(answer: LlmAnswer)
    | Requested(answer: LlmAnswer)
    | Mark(notified: bool)

  function Apply(row: Row, e: Event): Row {
    match e
    case Payload(status, transcript) =>
      row.(status := status, transcript := if transcript.Some? then transcript.value else row.transcript)
    case Run(answer) => RunAnalysis(row, answer)
    case Requested(answer) => RequestAnalysis(row, answer)
    case Mark(notified) => row.(notified := notified)
  }

  function ApplyAll(row: Row, events: seq<Event>): Row
    decreases |events|
  {
    if events == [] then row else ApplyAll(Apply(row, events[0]), events[1..])
  }

  function Rank(source: Source): nat {
    match source case NoAnalysis => 0 case StatusGuess => 1 case LlmAnalysis => 2
  }

  /** The event replaces the status guess by a reading of the transcript and opens
      the row again, so that the corrected outcome is sent. */
  predicate Corrects(row: Row, e: Event) {
    e.Run? && row.source.StatusGuess? && Apply(row, e).source.LlmAnalysis? && !Apply(row, e).notified
  }

  function Corrections(row: Row, events: seq<Event>): nat
    decreases |events|
  {
    if events == [] then 0
    else (if Corrects(row, events[0]) then 1 else 0) + Corrections(Apply(row, events[0]), events[1..])
  }

  /** Over any life of a call the analysis only improves, from nothing over the
      status guess to the model's reading, and at most one run sends a correction. */
  lemma {:induction false} AnalysisOnlyImproves(row: Row, events: seq<Event>)
    ensures Rank(row.source) <= Rank(ApplyAll(row, events).source)
    ensures Corrections(row, events) <= if row.source.LlmAnalysis? then 0 else 1
    decreases |events|
  {
    if events != [] {
      AnalysisOnlyImproves(Apply(row, events[0]), events[1..]);
    }
  }

  /** This event put the model's reading in the place of the guess. */
  predicate ReplacedAt(row: Row, events: seq<Event>, i: nat) {
    && i < |events|
    && ApplyAll(row, events[..i]).source.StatusGuess?
    && Apply(ApplyAll(row, events[..i]), events[i]).source.LlmAnalysis?
  }

  /** Whenever the guess was replaced on the way, one event did it, and the correction is
      sent exactly when that was a run: an analysis asked for over the API replaces the
      guess behind the client's back. */
  lemma {:induction false} ReplacementIsSentIff(row: Row, events: seq<Event>) returns (i: nat)
    requires row.source.StatusGuess? && ApplyAll(row, events).source.LlmAnalysis?
    ensures ReplacedAt(row, events, i)
    ensures Corrections(row, events) == if events[i].Run? then 1 else 0
    ensures events[i].Run? || (events[i].Requested? && events[i].answer.Classified?)
    decreases |events|
  {
    var next := Apply(row, events[0]);
    if next.source.StatusGuess? {
      var j := ReplacementIsSentIff(next, events[1..]);
      i := j + 1;
      assert events[..i][0] == events[0] && events[..i][1..] == events[1..][..j];
    } else {
      AnalysisOnlyImproves(next, events[1..]);
      i := 0;
    }
  }

  /** Such a life: the client has confirmed the guess, the analysis is asked for, and no
      number of further runs opens the row for the correction. */
  lemma RequestedAnalysisIsNeverSent(row: Row, answers: seq<LlmAnswer>)
    requires row.present && row.source.StatusGuess? && row.transcript && row.notified
    ensures var read := Apply(row, Requested(Classified));
            var runs := seq(|answers|, i requires 0 <= i < |answers| => Run(answers[i]));
            read.source.LlmAnalysis? && ApplyAll(read, runs) == read && read.notified
  {
    LlmAnalysisIsFinal(Apply(row, Requested(Classified)), answers);
  }

  /** A run leaves the model's reading, and the claim on it, exactly as they are. */
  lemma {:induction false} LlmAnalysisIsFinal(row: Row, answers: seq<LlmAnswer>)
    requires row.source.LlmAnalysis?
    ensures ApplyAll(row, seq(|answers|, i requires 0 <= i < |answers| => Run(answers[i]))) == row
    decreases |answers|
  {
    if answers != [] {
      var runs := seq(|answers|, i requires 0 <= i < |answers| => Run(answers[i]));
      var rest := answers[1..];
      assert runs[1..] == seq(|rest|, i requires 0 <= i < |rest| => Run(rest[i]));
      assert Apply(row, runs[0]) == row;
      LlmAnalysisIsFinal(row, rest);
    }
  }

  // ------------------------------------------------------------ overlapping runs

  /** The read and the write of a run are two transactions. Worker 0 reads the
      row before the transcript is there and writes after worker 1. */
  const OVERLAP: seq<Action> :=
    [Sync("failed", None), Start(0), Look(0), Sync("completed", Some(true)), Start(1), Look(1),
     Analyse(1, Classified)]

  /** Overlapping runs can put the status guess in the place of the model's
      reading: the improvement above needs runs that do not overlap. */
  lemma OverlappingRunsLoseTheReading()
    ensures Exec(Init(Call), OVERLAP).row.source.LlmAnalysis?
    ensures Exec(Init(Call), OVERLAP + [Analyse(0, Unavailable)]).row.source.StatusGuess?
  {
    var s1 := Step(Init(Call), Sync("failed", None));
    var s2 := Step(s1, Start(0));
    var s3 := Step(s2, Look(0));
    assert At(s3, 0, Analysing(Classify));
    var s4 := Step(s3, Sync("completed", Some(true)));
    var s5 := Step(s4, Start(1));
    var s6 := Step(s5, Look(1));
    assert At(s6, 1, Analysing(Analyze(false)));
    var s7 := Step(s6, Analyse(1, Classified));
    assert At(s7, 0, Analysing(Classify));
    Unroll(Init(Call), OVERLAP);
    Unroll(s1, OVERLAP[1..]);
    Unroll(s2, OVERLAP[2..]);
    Unroll(s3, OVERLAP[3..]);
    Unroll(s4, OVERLAP[4..]);
    Unroll(s5, OVERLAP[5..]);
    Unroll(s6, OVERLAP[6..]);
    assert Exec(Init(Call), OVERLAP) == s7;
    ExecConcat(Init(Call), OVERLAP, [Analyse(0, Unavailable)]);
    Unroll(s7, [Analyse(0, Unavailable)]);
  }

  lemma Unroll(s: State, actions: seq<Action>)
    requires actions != []
    ensures Exec(s, actions) == Exec(Step(s, actions[0]), actions[1..])
    ensures forall i :: 1 <= i <= |actions| ==> actions[1..][i - 1..] == actions[i..]
  {
  }

  /** A worker has read the row before the model's reading was there, and is about to
      write the status guess. */
  ghost predicate GuessIsPlanned(s: State) {
    s.row.present && exists w :: At(s, w, Analysing(Classify))
  }

  /** While the row has the model's reading nobody new plans the guess. */
  lemma ReadingHolds(s: State, a: Action)
    requires s.row.source.LlmAnalysis? && !GuessIsPlanned(s)
    ensures Step(s, a).row.source.LlmAnalysis? && !GuessIsPlanned(Step(s, a))
  {
    var t := Step(s, a);
    assert a.Analyse? && s.row.present ==> !At(s, a.w, Analysing(Classify));
    forall w | t.row.present ensures !At(t, w, Analysing(Classify)) {
      assert !At(s, w, Analysing(Classify));
    }
  }

  lemma {:induction false} ReadingStays(s: State, actions: seq<Action>)
    requires s.row.source.LlmAnalysis? && !GuessIsPlanned(s)
    ensures Exec(s, actions).row.source.LlmAnalysis?
    decreases |actions|
  {
    if actions != [] {
      ReadingHolds(s, actions[0]);
      ReadingStays(Step(s, actions[0]), actions[1..]);
    }
  }

  /** In any interleaving of any number of workers the model's reading can be lost
      exactly when the row is there and some worker had planned the status guess. */
  lemma ReadingCanBeLostIff(s: State)
    requires s.row.source.LlmAnalysis?
    ensures (exists actions :: !Exec(s, actions).row.source.LlmAnalysis?) <==> GuessIsPlanned(s)
  {
    if GuessIsPlanned(s) {
      var w :| At(s, w, Analysing(Classify));
      Unroll(s, [Analyse(w, Unavailable)]);
      assert !Exec(s, [Analyse(w, Unavailable)]).row.source.LlmAnalysis?;
    } else {
      forall actions ensures Exec(s, actions).row.source.LlmAnalysis? {
        ReadingStays(s, actions);
      }
    }
  }
}
