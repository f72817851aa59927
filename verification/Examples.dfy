/**
 The example bank (`_sync_examples` in app/sql_agent/ingestion/run.py): questions with
 their SQL, from the YAML and from live runs, in the order in which the rows come.
 */
module Examples {
  import opened Wrappers
  import opened Diff

  /** The content that the hash is taken of. */
  datatype Example = Example(question: string, sql: string, tables: Option<seq<string>>, verified: bool)

  datatype ExampleRow = ExampleRow(content: Example, embedding: Option<Example>)

  type Rows = seq<ExampleRow>

  /** The row that stands for a question: the last one that has it. */
  function Positions(rows: Rows): map<string, nat> {
    if rows == [] then map[]
    else Positions(rows[..|rows| - 1])[rows[|rows| - 1].content.question := |rows| - 1]
  }

  lemma {:induction false} PositionsAre(rows: Rows)
    ensures forall q :: q in Positions(rows) ==>
              && Positions(rows)[q] < |rows| && rows[Positions(rows)[q]].content.question == q
              && forall i :: Positions(rows)[q] < i < |rows| ==> rows[i].content.question != q
    ensures forall i :: 0 <= i < |rows| ==> rows[i].content.question in Positions(rows)
  {
    if rows != [] { PositionsAre(rows[..|rows| - 1]); }
  }

  ghost predicate SameQuestions(a: Rows, b: Rows) {
    |a| == |b| && forall i :: 0 <= i < |a| ==> a[i].content.question == b[i].content.question
  }

  lemma {:induction false} SamePositions(a: Rows, b: Rows)
    requires SameQuestions(a, b)
    ensures Positions(a) == Positions(b)
  {
    if a != [] { SamePositions(a[..|a| - 1], b[..|b| - 1]); }
  }

  /** Where each question was when the run began. */
  ghost predicate Indexes(rows: Rows, existing: map<string, nat>) {
    forall q :: q in existing ==> existing[q] < |rows| && rows[existing[q]].content.question == q
  }

  /** One YAML entry. */
  function Put(rows: Rows, existing: map<string, nat>, e: Example): Rows
    requires Indexes(rows, existing)
  {
    if e.question !in existing then rows + [ExampleRow(e, None)]
    else if rows[existing[e.question]].content == e then rows
    else rows[existing[e.question] := ExampleRow(e, None)]
  }

  function PutCounts(rows: Rows, existing: map<string, nat>, e: Example): Counts
    requires Indexes(rows, existing)
  {
    if e.question !in existing then Counts(1, 0, 0, 0)
    else if rows[existing[e.question]].content == e then Counts(0, 0, 1, 0)
    else Counts(0, 1, 0, 0)
  }

  lemma PutIndexes(rows: Rows, existing: map<string, nat>, e: Example)
    requires Indexes(rows, existing)
    ensures Indexes(Put(rows, existing, e), existing)
  {
  }

  function ExamplesAfter(rows: Rows, existing: map<string, nat>, yaml: seq<Example>): (r: Rows)
    requires Indexes(rows, existing)
    ensures Indexes(r, existing)
  {
    if yaml == [] then rows
    else
      var before := ExamplesAfter(rows, existing, yaml[..|yaml| - 1]);
      PutIndexes(before, existing, yaml[|yaml| - 1]);
      Put(before, existing, yaml[|yaml| - 1])
  }

  function CountsAfter(rows: Rows, existing: map<string, nat>, yaml: seq<Example>): Counts
    requires Indexes(rows, existing)
  {
    if yaml == [] then Counts(0, 0, 0, 0)
    else
      var init := yaml[..|yaml| - 1];
      CountsAfter(rows, existing, init).Plus(PutCounts(ExamplesAfter(rows, existing, init), existing, yaml[|yaml| - 1]))
  }

  lemma ExamplesNext(rows: Rows, existing: map<string, nat>, init: seq<Example>, e: Example)
    requires Indexes(rows, existing)
    ensures ExamplesAfter(rows, existing, init + [e]) == Put(ExamplesAfter(rows, existing, init), existing, e)
  {
    assert (init + [e])[..|init|] == init;
  }

  lemma CountsNext(rows: Rows, existing: map<string, nat>, init: seq<Example>, e: Example)
    requires Indexes(rows, existing)
    ensures CountsAfter(rows, existing, init + [e]) ==
            CountsAfter(rows, existing, init).Plus(PutCounts(ExamplesAfter(rows, existing, init), existing, e))
  {
    assert (init + [e])[..|init|] == init;
  }

  /** The entries with a question that no row had when the run began. */
  function Entering(yaml: seq<Example>, existing: map<string, nat>): nat {
    if yaml == [] then 0
    else Entering(yaml[..|yaml| - 1], existing) + if yaml[|yaml| - 1].question in existing then 0 else 1
  }

  /** Every entry is counted once, those with a new question as created; none is removed. */
  lemma {:induction false} EntriesAreCounted(rows: Rows, existing: map<string, nat>, yaml: seq<Example>)
    requires Indexes(rows, existing)
    ensures var c := CountsAfter(rows, existing, yaml);
            && c.created == Entering(yaml, existing) && c.removed == 0
            && c.created + c.updated + c.same == |yaml|
  {
    if yaml != [] { EntriesAreCounted(rows, existing, yaml[..|yaml| - 1]); }
  }

  /** What the YAML says of each question in the end. */
  function LastEntries(yaml: seq<Example>): map<string, Example> {
    if yaml == [] then map[] else LastEntries(yaml[..|yaml| - 1])[yaml[|yaml| - 1].question := yaml[|yaml| - 1]]
  }

  lemma {:induction false} LastEntriesHas(yaml: seq<Example>)
    ensures forall e :: e in yaml ==> e.question in LastEntries(yaml)
    ensures forall q :: q in LastEntries(yaml) ==> LastEntries(yaml)[q] in yaml && LastEntries(yaml)[q].question == q
  {
    if yaml != [] {
      LastEntriesHas(yaml[..|yaml| - 1]);
      assert yaml == yaml[..|yaml| - 1] + [yaml[|yaml| - 1]];
    }
  }

  /** Entries with one question say the same of it. */
  ghost predicate Consistent(yaml: seq<Example>) {
    forall e, f :: e in yaml && f in yaml && e.question == f.question ==> e == f
  }

  ghost predicate Holds(rows: Rows, wanted: map<string, Example>) {
    forall q :: q in wanted ==>
          q in Positions(rows) && Positions(rows)[q] < |rows| && rows[Positions(rows)[q]].content == wanted[q]
  }

  /** Questions that were there keep their places. */
  ghost predicate PlacesKept(rows: Rows, existing: map<string, nat>) {
    forall q :: q in existing ==> q in Positions(rows) && Positions(rows)[q] == existing[q]
  }

  lemma AppendedPosition(rows: Rows, row: ExampleRow)
    ensures Positions(rows + [row]) == Positions(rows)[row.content.question := |rows|]
  {
    assert (rows + [row])[..|rows|] == rows;
  }

  lemma AppendHolds(rows: Rows, e: Example, wanted: map<string, Example>)
    requires Holds(rows, wanted)
    ensures Holds(rows + [ExampleRow(e, None)], wanted[e.question := e])
  {
    AppendedPosition(rows, ExampleRow(e, None));
  }

  lemma ReplaceHolds(rows: Rows, i: nat, row: ExampleRow, wanted: map<string, Example>)
    requires i < |rows| && rows[i].content.question == row.content.question
    requires row.content.question in Positions(rows) && Positions(rows)[row.content.question] == i
    requires Holds(rows, wanted)
    ensures Holds(rows[i := row], wanted[row.content.question := row.content])
    ensures Positions(rows[i := row]) == Positions(rows)
  {
    PositionsAre(rows);
    SamePositions(rows, rows[i := row]);
  }

  lemma PutHolds(rows: Rows, existing: map<string, nat>, e: Example, wanted: map<string, Example>)
    requires Indexes(rows, existing) && PlacesKept(rows, existing) && Holds(rows, wanted)
    ensures PlacesKept(Put(rows, existing, e), existing)
    ensures Holds(Put(rows, existing, e), wanted[e.question := e])
  {
    if e.question !in existing {
      AppendHolds(rows, e, wanted);
      AppendedPosition(rows, ExampleRow(e, None));
    } else {
      var i := existing[e.question];
      var row := if rows[i].content == e then rows[i] else ExampleRow(e, None);
      assert rows[i := row] == Put(rows, existing, e);
      ReplaceHolds(rows, i, row, wanted);
    }
  }

  /** In the end the row that stands for a question says what the last YAML entry for
      it says. */
  lemma {:induction false} LastEntryWins(rows: Rows, yaml: seq<Example>)
    requires Indexes(rows, Positions(rows))
    ensures var after := ExamplesAfter(rows, Positions(rows), yaml);
            Holds(after, LastEntries(yaml)) && PlacesKept(after, Positions(rows))
  {
    if yaml != [] {
      var init := yaml[..|yaml| - 1];
      LastEntryWins(rows, init);
      PutHolds(ExamplesAfter(rows, Positions(rows), init), Positions(rows), yaml[|yaml| - 1], LastEntries(init));
    }
  }

  ghost predicate Matches(rows: Rows, existing: map<string, nat>, yaml: seq<Example>)
    requires Indexes(rows, existing)
  {
    forall e :: e in yaml ==> e.question in existing && rows[existing[e.question]].content == e
  }

  /** A run reports no change exactly when every entry is stored as it is; and then it
      writes nothing. */
  lemma {:induction false} NoChangeIffMatches(rows: Rows, existing: map<string, nat>, yaml: seq<Example>)
    requires Indexes(rows, existing)
    ensures !CountsAfter(rows, existing, yaml).Changed() <==> Matches(rows, existing, yaml)
    ensures Matches(rows, existing, yaml) ==> ExamplesAfter(rows, existing, yaml) == rows
  {
    if yaml != [] {
      var init, last := yaml[..|yaml| - 1], yaml[|yaml| - 1];
      assert yaml == init + [last];
      assert forall e :: e in yaml <==> e in init || e == last;
      NoChangeIffMatches(rows, existing, init);
    }
  }

  lemma Indexed(rows: Rows)
    ensures Indexes(rows, Positions(rows))
  {
    PositionsAre(rows);
  }

  /** A run over these rows, in this order, reports no change. */
  ghost predicate Quiet(rows: Rows, yaml: seq<Example>) {
    Indexed(rows);
    !CountsAfter(rows, Positions(rows), yaml).Changed()
  }

  /** When the rows come in the same order again, a second run reports no change exactly
      when the YAML says one thing of each question. */
  lemma SettlesInSameOrderIff(rows: Rows, yaml: seq<Example>)
    ensures Indexes(rows, Positions(rows))
    ensures Quiet(ExamplesAfter(rows, Positions(rows), yaml), yaml) <==> Consistent(yaml)
  {
    Indexed(rows);
    var after := ExamplesAfter(rows, Positions(rows), yaml);
    Indexed(after);
    LastEntryWins(rows, yaml);
    LastEntriesHas(yaml);
    NoChangeIffMatches(after, Positions(after), yaml);
    MatchesIffConsistent(after, yaml);
  }

  lemma MatchesIffConsistent(rows: Rows, yaml: seq<Example>)
    requires Indexes(rows, Positions(rows)) && Holds(rows, LastEntries(yaml))
    ensures Matches(rows, Positions(rows), yaml) <==> Consistent(yaml)
  {
    LastEntriesHas(yaml);
  }

  // --------------------------------------------------------------- in any row order

  predicate SaysAsWanted(row: ExampleRow, wanted: map<string, Example>) {
    row.content.question in wanted ==> row.content == wanted[row.content.question]
  }

  /** Every row of a YAML question, whether it stands for the question or not, says what
      the YAML says of it. */
  ghost predicate Unanimous(rows: Rows, yaml: seq<Example>) {
    forall row :: row in rows ==> SaysAsWanted(row, LastEntries(yaml))
  }

  ghost predicate HasQuestion(rows: Rows, q: string) {
    exists row :: row in rows && row.content.question == q
  }

  ghost predicate AllStored(rows: Rows, yaml: seq<Example>) {
    forall e :: e in yaml ==> HasQuestion(rows, e.question)
  }

  lemma QuietIfUnanimous(rows: Rows, yaml: seq<Example>)
    requires Consistent(yaml) && Unanimous(rows, yaml) && AllStored(rows, yaml)
    ensures Quiet(rows, yaml) && (Indexed(rows); ExamplesAfter(rows, Positions(rows), yaml) == rows)
  {
    Indexed(rows);
    PositionsAre(rows);
    LastEntriesHas(yaml);
    forall e | e in yaml
      ensures e.question in Positions(rows) && rows[Positions(rows)[e.question]].content == e
    {
      assert HasQuestion(rows, e.question);
      var i :| 0 <= i < |rows| && rows[i].content.question == e.question;
      assert SaysAsWanted(rows[Positions(rows)[e.question]], LastEntries(yaml));
    }
    NoChangeIffMatches(rows, Positions(rows), yaml);
  }

  lemma QuietOnlyIfConsistent(rows: Rows, yaml: seq<Example>)
    requires Quiet(rows, yaml)
    ensures Consistent(yaml)
    ensures forall e :: e in yaml ==> e.question in Positions(rows) && Positions(rows)[e.question] < |rows|
                                      && rows[Positions(rows)[e.question]].content == e
  {
    Indexed(rows);
    NoChangeIffMatches(rows, Positions(rows), yaml);
  }

  /** The rows with the i-th one moved to the end, where it stands for its question. */
  function MovedLast(rows: Rows, i: nat): Rows
    requires i < |rows|
  {
    rows[..i] + rows[i + 1..] + [rows[i]]
  }

  lemma MovedIsReordered(rows: Rows, i: nat)
    requires i < |rows|
    ensures multiset(MovedLast(rows, i)) == multiset(rows)
    ensures Positions(MovedLast(rows, i))[rows[i].content.question] == |rows| - 1
    ensures MovedLast(rows, i)[|rows| - 1] == rows[i]
  {
    var rest := rows[..i] + rows[i + 1..];
    assert rows == rows[..i] + [rows[i]] + rows[i + 1..];
    AppendedPosition(rest, rows[i]);
  }

  /** Runs are quiet in every order of the rows exactly when the YAML says one thing of
      each of its questions, each is stored, and all rows of it say the same. */
  lemma QuietInAnyOrderIff(rows: Rows, yaml: seq<Example>)
    ensures (forall order: Rows :: multiset(order) == multiset(rows) ==> Quiet(order, yaml)) <==>
            Consistent(yaml) && AllStored(rows, yaml) && Unanimous(rows, yaml)
  {
    LastEntriesHas(yaml);
    if Consistent(yaml) && AllStored(rows, yaml) && Unanimous(rows, yaml) {
      forall order: Rows | multiset(order) == multiset(rows) ensures Quiet(order, yaml) {
        SameRows(order, rows, yaml);
        QuietIfUnanimous(order, yaml);
      }
    }
    if forall order: Rows :: multiset(order) == multiset(rows) ==> Quiet(order, yaml) {
      QuietOnlyIfConsistent(rows, yaml);
      forall e | e in yaml ensures HasQuestion(rows, e.question) {
        PositionsAre(rows);
        assert rows[Positions(rows)[e.question]] in rows;
      }
      forall row | row in rows ensures SaysAsWanted(row, LastEntries(yaml)) {
        var i :| 0 <= i < |rows| && rows[i] == row;
        MovedIsReordered(rows, i);
        QuietOnlyIfConsistent(MovedLast(rows, i), yaml);
      }
    }
  }

  lemma SameRows(order: Rows, rows: Rows, yaml: seq<Example>)
    requires multiset(order) == multiset(rows)
    ensures Unanimous(order, yaml) <==> Unanimous(rows, yaml)
    ensures AllStored(order, yaml) <==> AllStored(rows, yaml)
  {
    forall row ensures row in order <==> row in rows {
      assert row in order <==> row in multiset(order);
      assert row in rows <==> row in multiset(rows);
    }
    forall e | e in yaml ensures HasQuestion(order, e.question) <==> HasQuestion(rows, e.question) {
    }
  }

  /** Rows that do not stand for their question, from live runs, say what the YAML says. */
  ghost predicate SparesAgree(rows: Rows, yaml: seq<Example>) {
    forall i :: 0 <= i < |rows| && IsSpare(rows, i) ==> SaysAsWanted(rows[i], LastEntries(yaml))
  }

  predicate IsSpare(rows: Rows, i: nat)
    requires i < |rows|
  {
    !StandsAt(rows, Positions(rows), i)
  }

  /** With one row for each question there are no spare rows. */
  lemma NoSpares(rows: Rows, yaml: seq<Example>)
    requires forall i, j :: 0 <= i < j < |rows| ==> rows[i].content.question != rows[j].content.question
    ensures SparesAgree(rows, yaml)
  {
    PositionsAre(rows);
  }

  predicate StandsAt(rows: Rows, existing: map<string, nat>, i: nat)
    requires i < |rows|
  {
    rows[i].content.question in existing && existing[rows[i].content.question] == i
  }

  /** A run leaves spare rows alone, and new rows say what some entry says. */
  lemma {:induction false} RowsAfter(rows: Rows, existing: map<string, nat>, yaml: seq<Example>)
    requires Indexes(rows, existing)
    ensures var after := ExamplesAfter(rows, existing, yaml);
            && |after| >= |rows|
            && (forall i :: 0 <= i < |rows| ==> after[i].content.question == rows[i].content.question)
            && (forall i :: 0 <= i < |rows| && !StandsAt(rows, existing, i) ==> after[i] == rows[i])
            && (forall i :: |rows| <= i < |after| ==> after[i].content in yaml)
  {
    if yaml != [] {
      var init, e := yaml[..|yaml| - 1], yaml[|yaml| - 1];
      RowsAfter(rows, existing, init);
      assert yaml == init + [e];
    }
  }

  lemma UnanimousAfterIff(rows: Rows, yaml: seq<Example>)
    requires Consistent(yaml)
    ensures Indexes(rows, Positions(rows))
    ensures var after := ExamplesAfter(rows, Positions(rows), yaml);
            AllStored(after, yaml) && (Unanimous(after, yaml) <==> SparesAgree(rows, yaml))
  {
    Indexed(rows);
    var existing, wanted := Positions(rows), LastEntries(yaml);
    var after := ExamplesAfter(rows, existing, yaml);
    RowsAfter(rows, existing, yaml);
    LastEntryWins(rows, yaml);
    LastEntriesHas(yaml);
    forall e | e in yaml ensures HasQuestion(after, e.question) {
      assert after[Positions(after)[e.question]] in after;
    }
    forall i | 0 <= i < |after|
      ensures SaysAsWanted(after[i], wanted) <==> (i < |rows| && IsSpare(rows, i) ==> SaysAsWanted(rows[i], wanted))
    {
      RowSaysAsWanted(rows, yaml, after, i);
    }
    if SparesAgree(rows, yaml) {
      forall row | row in after ensures SaysAsWanted(row, wanted) {
        var i :| 0 <= i < |after| && after[i] == row;
      }
    }
    if Unanimous(after, yaml) {
      forall i | 0 <= i < |rows| && IsSpare(rows, i) ensures SaysAsWanted(rows[i], wanted) {
        assert after[i] in after;
      }
    }
  }

  lemma RowSaysAsWanted(rows: Rows, yaml: seq<Example>, after: Rows, i: nat)
    requires Consistent(yaml) && i < |after| && |rows| <= |after|
    requires Holds(after, LastEntries(yaml)) && PlacesKept(after, Positions(rows))
    requires i < |rows| && IsSpare(rows, i) ==> after[i] == rows[i]
    requires i < |rows| ==> after[i].content.question == rows[i].content.question
    requires i >= |rows| ==> after[i].content in yaml
    ensures SaysAsWanted(after[i], LastEntries(yaml)) <==>
            (i < |rows| && IsSpare(rows, i) ==> SaysAsWanted(rows[i], LastEntries(yaml)))
  {
    LastEntriesHas(yaml);
  }

  /** The run converges, in whatever order the rows come the next time, exactly when the
      YAML says one thing of each question and no spare row says another; and then the
      next run writes nothing. Without the former no run over any rows is quiet. */
  lemma ExamplesSettleIff(rows: Rows, yaml: seq<Example>)
    ensures Indexes(rows, Positions(rows))
    ensures var after := ExamplesAfter(rows, Positions(rows), yaml);
            (forall order: Rows :: multiset(order) == multiset(after) ==> Quiet(order, yaml)) <==>
            Consistent(yaml) && SparesAgree(rows, yaml)
    ensures forall order: Rows :: Quiet(order, yaml) ==>
              Consistent(yaml) && (Indexed(order); ExamplesAfter(order, Positions(order), yaml) == order)
  {
    Indexed(rows);
    var after := ExamplesAfter(rows, Positions(rows), yaml);
    QuietInAnyOrderIff(after, yaml);
    if Consistent(yaml) { UnanimousAfterIff(rows, yaml); }
    forall order: Rows | Quiet(order, yaml)
      ensures Consistent(yaml) && (Indexed(order); ExamplesAfter(order, Positions(order), yaml) == order)
    {
      Indexed(order);
      QuietOnlyIfConsistent(order, yaml);
      NoChangeIffMatches(order, Positions(order), yaml);
    }
  }

  /** What a run over these rows gives. */
  ghost predicate IsRun(rows: Rows, yaml: seq<Example>, after: Rows, counts: Counts) {
    Indexed(rows);
    after == ExamplesAfter(rows, Positions(rows), yaml) && counts == CountsAfter(rows, Positions(rows), yaml)
  }

  /** Whatever order the query gives the rows in, they are the same rows. */
  ghost predicate Reorders(order: Rows -> Rows) {
    forall rows {:trigger order(rows)} :: multiset(order(rows)) == multiset(rows)
  }

  /** Two runs, between which the rows may have been reordered. */
  lemma SecondRun(rows: Rows, yaml: seq<Example>, after: Rows, counts: Counts, order: Rows, again: Rows, second: Counts)
    requires IsRun(rows, yaml, after, counts) && multiset(order) == multiset(after) && IsRun(order, yaml, again, second)
    ensures Consistent(yaml) && SparesAgree(rows, yaml) ==> !second.Changed()
    ensures !second.Changed() ==> Consistent(yaml) && again == order
  {
    ExamplesSettleIff(rows, yaml);
    assert !second.Changed() <==> Quiet(order, yaml);
  }

  method UpsertExamples(rows: Rows, yaml: seq<Example>) returns (after: Rows, counts: Counts)
    ensures IsRun(rows, yaml, after, counts)
  {
    Indexed(rows);
    after, counts := UpsertLoop(rows, Positions(rows), yaml);
  }

  ghost predicate IsSoFar(rows: Rows, existing: map<string, nat>, done: seq<Example>, after: Rows, counts: Counts) {
    && Indexes(rows, existing) && Indexes(after, existing)
    && after == ExamplesAfter(rows, existing, done) && counts == CountsAfter(rows, existing, done)
  }

  lemma UpsertStep(rows: Rows, existing: map<string, nat>, done: seq<Example>, e: Example, after: Rows, counts: Counts)
    requires IsSoFar(rows, existing, done, after, counts)
    ensures IsSoFar(rows, existing, done + [e], Put(after, existing, e), counts.Plus(PutCounts(after, existing, e)))
  {
    ExamplesNext(rows, existing, done, e);
    CountsNext(rows, existing, done, e);
  }

  /** The upsert loop over the YAML. */
  method UpsertLoop(rows: Rows, existing: map<string, nat>, yaml: seq<Example>) returns (after: Rows, counts: Counts)
    requires Indexes(rows, existing)
    ensures after == ExamplesAfter(rows, existing, yaml) && counts == CountsAfter(rows, existing, yaml)
  {
    after, counts := rows, Counts(0, 0, 0, 0);
    ghost var done := [];
    for i := 0 to |yaml|
      invariant done == yaml[..i]
      invariant IsSoFar(rows, existing, done, after, counts)
    {
      UpsertStep(rows, existing, done, yaml[i], after, counts);
      counts := counts.Plus(PutCounts(after, existing, yaml[i]));
      after := Put(after, existing, yaml[i]);
      done := done + [yaml[i]];
    }
    assert done == yaml;
  }

  // -------------------------------------------------------------- what is not lost

  ghost predicate EmbeddedRight(rows: Rows) {
    forall i :: 0 <= i < |rows| && rows[i].embedding.Some? ==> rows[i].embedding == Some(rows[i].content)
  }

  /** Rows of questions that the YAML does not have stay as they are, and embeddings
      stay true of their rows. */
  lemma {:induction false} OthersAreKept(rows: Rows, existing: map<string, nat>, yaml: seq<Example>)
    requires Indexes(rows, existing)
    ensures var after := ExamplesAfter(rows, existing, yaml);
            && |after| >= |rows|
            && (forall i :: 0 <= i < |rows| && (forall e :: e in yaml ==> e.question != rows[i].content.question) ==>
                  after[i] == rows[i])
            && (EmbeddedRight(rows) ==> EmbeddedRight(after))
  {
    if yaml != [] {
      OthersAreKept(rows, existing, yaml[..|yaml| - 1]);
      assert yaml[|yaml| - 1] in yaml && forall e :: e in yaml[..|yaml| - 1] ==> e in yaml;
    }
  }
}
