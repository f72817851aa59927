/**
 The ingestion run as the code performs it (app/sql_agent/ingestion/run.py): loops that
 create, overwrite, retire and delete rows, and count what they do.
 */
module ControlStore {
  import opened Wrappers
  import opened Diff
  import opened Ingestion
  import opened Examples

  // ---------------------------------------------------------------- relationships

  datatype Edge = Edge(from: TableKey, fromColumn: string, to: TableKey, toColumn: string)

  datatype EdgeKind = ForeignKey | Manual(hint: string)

  datatype Relationship = Relationship(edge: Edge, kind: EdgeKind)

  datatype Join = Join(fromTable: string, fromColumn: string, toTable: string, toColumn: string, hint: string)

  predicate Joins(e: Edge, live: set<TableKey>) { e.from in live && e.to in live }

  function EdgeOf(j: Join, schema: string): Edge {
    Edge((schema, j.fromTable), j.fromColumn, (schema, j.toTable), j.toColumn)
  }

  /** The join goes this way, between two tables of the schema. */
  predicate IsEdgeOf(j: Join, schema: string, e: Edge) {
    && e.from == (schema, j.fromTable) && e.fromColumn == j.fromColumn
    && e.to == (schema, j.toTable) && e.toColumn == j.toColumn
  }

  /** The first join that names this edge. */
  ghost predicate FirstJoin(joins: seq<Join>, schema: string, e: Edge, hint: string, n: nat)
    requires n <= |joins|
  {
    exists i :: && 0 <= i < n && IsEdgeOf(joins[i], schema, e) && joins[i].hint == hint
                && forall j :: 0 <= j < i ==> !IsEdgeOf(joins[j], schema, e)
  }

  ghost predicate AreDesiredEdges(desired: map<Edge, EdgeKind>, keys: seq<Edge>, joins: seq<Join>, schema: string,
                                  live: set<TableKey>) {
    && (forall e :: e in desired <==>
                      e.from in live && e.to in live && (e in keys || exists j :: j in joins && IsEdgeOf(j, schema, e)))
    && (forall e :: e in desired ==> (desired[e].ForeignKey? <==> e in keys))
    && (forall e :: e in desired && desired[e].Manual? ==> FirstJoin(joins, schema, e, desired[e].hint, |joins|))
  }

  /** The description above fits one map only. */
  lemma DesiredEdgesAreUnique(a: map<Edge, EdgeKind>, b: map<Edge, EdgeKind>, keys: seq<Edge>, joins: seq<Join>,
                              schema: string, live: set<TableKey>)
    requires AreDesiredEdges(a, keys, joins, schema, live) && AreDesiredEdges(b, keys, joins, schema, live)
    ensures a == b
  {
  }

  /** Edges between live tables; a foreign key outranks a hint for the same edge, and
      an earlier hint a later one. */
  method DesiredEdges(keys: seq<Edge>, joins: seq<Join>, schema: string, live: set<TableKey>)
    returns (desired: map<Edge, EdgeKind>)
    ensures AreDesiredEdges(desired, keys, joins, schema, live)
  {
    desired := map[];
    for i := 0 to |keys|
      invariant forall e :: e in desired <==> Joins(e, live) && e in keys[..i]
      invariant forall e :: e in desired ==> desired[e].ForeignKey?
    {
      if Joins(keys[i], live) { desired := desired[keys[i] := ForeignKey]; }
    }
    ghost var hard := desired;
    assert keys[..|keys|] == keys;
    for i := 0 to |joins|
      invariant forall e :: e in hard ==> e in desired && desired[e].ForeignKey?
      invariant forall e :: e in desired <==>
                  e in hard || (Joins(e, live) && exists j :: 0 <= j < i && IsEdgeOf(joins[j], schema, e))
      invariant forall e :: e in desired && e !in hard ==>
                              desired[e].Manual? && FirstJoin(joins, schema, e, desired[e].hint, i)
    {
      var e := EdgeOf(joins[i], schema);
      if Joins(e, live) && e !in desired {
        desired := desired[e := Manual(joins[i].hint)];
        assert FirstJoin(joins, schema, e, joins[i].hint, i + 1);
      }
    }
  }

  /** The stored edges are the desired ones, each stored once. */
  ghost predicate EdgesAgree(rows: map<nat, Relationship>, desired: map<Edge, EdgeKind>) {
    && (forall i :: i in rows ==> rows[i].edge in desired && rows[i].kind == desired[rows[i].edge])
    && UniqueEdges(rows)
    && (forall e :: e in desired ==> HasEdge(rows, e))
  }

  ghost predicate UniqueEdges(rows: map<nat, Relationship>) {
    forall i, j :: i in rows && j in rows && rows[i].edge == rows[j].edge ==> i == j
  }

  ghost predicate HasEdge(rows: map<nat, Relationship>, e: Edge) {
    exists i :: i in rows && rows[i].edge == e
  }

  /** `index` is the inverse of the rows: each edge has one row. */
  ghost predicate OneRowEach(rows: map<nat, Relationship>, index: map<Edge, nat>) {
    && (forall e :: e in index ==> index[e] in rows && rows[index[e]].edge == e)
    && (forall i :: i in rows ==> rows[i].edge in index && index[rows[i].edge] == i)
  }

  predicate EdgeCurrent(rows: map<nat, Relationship>, existing: map<Edge, nat>, desired: map<Edge, EdgeKind>, e: Edge)
    requires e in existing ==> existing[e] in rows
    requires e in desired
  {
    e in existing && rows[existing[e]].kind == desired[e]
  }

  ghost predicate AllCurrent(rows: map<nat, Relationship>, existing: map<Edge, nat>, desired: map<Edge, EdgeKind>,
                             done: set<Edge>)
    requires OneRowEach(rows, existing) && done <= desired.Keys
  {
    forall e :: e in done ==> EdgeCurrent(rows, existing, desired, e)
  }

  /** The rows after the edges in `done` have been put: an edge has its earlier row if
      it had one, and the desired kind if it is done. */
  ghost predicate EdgesPut(before: map<nat, Relationship>, existing: map<Edge, nat>, desired: map<Edge, EdgeKind>,
                           done: set<Edge>, now: map<nat, Relationship>, index: map<Edge, nat>)
    requires done <= desired.Keys && OneRowEach(before, existing)
  {
    && OneRowEach(now, index)
    && index.Keys == existing.Keys + done
    && (forall e :: e in existing ==> index[e] == existing[e])
    && (forall e :: e in index ==> now[index[e]].kind == if e in done then desired[e] else before[existing[e]].kind)
  }

  lemma EdgePut(before: map<nat, Relationship>, existing: map<Edge, nat>, desired: map<Edge, EdgeKind>,
                done: set<Edge>, was: map<nat, Relationship>, index: map<Edge, nat>, e: Edge, id: nat)
    requires done <= desired.Keys && OneRowEach(before, existing) &&
              EdgesPut(before, existing, desired, done, was, index)
    requires e in desired && if e in existing then id == existing[e] else e !in done && id !in was
    ensures EdgesPut(before, existing, desired, done + {e}, was[id := Relationship(e, desired[e])], index[e := id])
  {
    var now, found := was[id := Relationship(e, desired[e])], index[e := id];
    assert OneRowEach(now, found) by { OneRowStill(was, index, e, id, desired[e]); }
  }

  lemma OneRowStill(was: map<nat, Relationship>, index: map<Edge, nat>, e: Edge, id: nat, kind: EdgeKind)
    requires OneRowEach(was, index) && if e in index then id == index[e] else id !in was
    ensures OneRowEach(was[id := Relationship(e, kind)], index[e := id])
  {
  }

  lemma EdgesAgreeIff(rows: map<nat, Relationship>, index: map<Edge, nat>, desired: map<Edge, EdgeKind>)
    requires OneRowEach(rows, index)
    ensures EdgesAgree(rows, desired) <==>
              index.Keys <= desired.Keys && AllCurrent(rows, index, desired, desired.Keys)
  {
  }

  // ----------------------------------------------------------------- column states

  function ColumnStates(cols: Columns): map<string, RowState<ColumnContent>> {
    map n | n in cols :: RowState(cols[n].content, true)
  }

  /** The columns of a table are as desired exactly when the diff finds no change. */
  lemma NoColumnChangeIff(cols: Columns, wanted: map<string, ColumnContent>)
    ensures !CountsOf(TheDiff(ColumnStates(cols), wanted)).Changed() <==> ColumnsFor(cols, wanted) == cols
  {
    var d := TheDiff(ColumnStates(cols), wanted);
    NoChangeIff(d, ColumnStates(cols), wanted);
    if ColumnsFor(cols, wanted) == cols {
      forall n | n in wanted ensures n in cols && cols[n].content == wanted[n] {
        assert n in ColumnsFor(cols, wanted);
      }
    }
  }

  type TermHash = (string, Option<string>)  // definition and mapped name

  function HashOfRow(row: TermRow, schema: string, live: set<TableKey>): TermHash {
    (row.definition, NameOf(row.mapped, schema, live))
  }

  function HashOfTerm(t: Term, schema: string, live: set<TableKey>): TermHash {
    (t.definition, FreshName(t, schema, live))
  }

  function TermStates(glossary: Glossary, schema: string, live: set<TableKey>): map<string, RowState<TermHash>> {
    map name | name in glossary :: RowState(HashOfRow(glossary[name], schema, live), true)
  }

  function TermHashes(terms: seq<Term>, schema: string, live: set<TableKey>): map<string, TermHash> {
    map name | name in Entries(terms) :: HashOfTerm(Entries(terms)[name], schema, live)
  }

  ghost predicate GlossaryCurrent(glossary: Glossary, terms: seq<Term>, schema: string, live: set<TableKey>) {
    && glossary.Keys == Entries(terms).Keys
    && forall name :: name in glossary ==> TermCurrent(glossary[name], Entries(terms)[name], schema, live)
  }

  lemma TermsUpToDateIff(glossary: Glossary, entries: map<string, Term>, schema: string, live: set<TableKey>,
                         states: map<string, RowState<TermHash>>, hashes: map<string, TermHash>)
    requires states.Keys == glossary.Keys && hashes.Keys == entries.Keys
    requires forall n :: n in glossary ==> states[n] == RowState(HashOfRow(glossary[n], schema, live), true)
    requires forall n :: n in entries ==> hashes[n] == HashOfTerm(entries[n], schema, live)
    ensures UpToDate(states, hashes) <==>
              && glossary.Keys == entries.Keys
              && forall n :: n in glossary && n in entries ==> TermCurrent(glossary[n], entries[n], schema, live)
  {
  }

  lemma NoTermChangeIff(glossary: Glossary, terms: seq<Term>, schema: string, live: set<TableKey>)
    ensures !CountsOf(TheDiff(TermStates(glossary, schema, live), TermHashes(terms, schema, live))).Changed()
            <==> GlossaryCurrent(glossary, terms, schema, live)
  {
    var states, hashes := TermStates(glossary, schema, live), TermHashes(terms, schema, live);
    NoChangeIff(TheDiff(states, hashes), states, hashes);
    assert states.Keys == glossary.Keys && hashes.Keys == Entries(terms).Keys;
    TermsUpToDateIff(glossary, Entries(terms), schema, live, states, hashes);
  }

  lemma TermsDone(d: DiffResult<string>, glossary: Glossary, terms: seq<Term>, schema: string, live: set<TableKey>,
                  put: Glossary)
    requires Classifies(d, TermStates(glossary, schema, live), TermHashes(terms, schema, live))
    requires put.Keys == glossary.Keys + (d.created + d.updated)
    requires forall name :: name in put ==>
               if name in d.created + d.updated
               then name in Entries(terms) && put[name] == NewTerm(Entries(terms)[name], schema, live)
               else name in glossary && put[name] == glossary[name]
    ensures put - d.removed == GlossaryAfter(glossary, terms, schema, live)
  {
    var after := put - d.removed;
    forall name ensures name in after <==> name in Entries(terms) {
      OneClass(d, TermStates(glossary, schema, live), TermHashes(terms, schema, live), name);
    }
  }

  function NewTerm(t: Term, schema: string, live: set<TableKey>): TermRow {
    TermRow(t.definition, Mapped(t, schema, live), None)
  }

  // ------------------------------------------------------------- the merged snapshot

  function DesiredFrom(specs: map<string, TableSpec>, schema: string, found: seq<FoundTable>): DesiredTables {
    if found == [] then map[]
    else
      var last := found[|found| - 1];
      DesiredFrom(specs, schema, found[..|found| - 1])[last.key := Merged(specs, schema, last)]
  }

  method BuildDesiredTables(specs: map<string, TableSpec>, schema: string, found: seq<FoundTable>)
    returns (desired: DesiredTables)
    ensures desired == DesiredFrom(specs, schema, found)
  {
    desired := map[];
    for n := 0 to |found|
      invariant desired == DesiredFrom(specs, schema, found[..n])
    {
      var spec := SpecFor(specs, schema, found[n].key);
      var columns := MergeColumns(spec, found[n].columns);
      var description := if spec.Some? then spec.value.description else None;
      assert Desired(description, found[n].rowCount, columns) == Merged(specs, schema, found[n]);
      assert found[..n + 1][..n] == found[..n];
      desired := desired[found[n].key := Desired(description, found[n].rowCount, columns)];
    }
    assert found[..|found|] == found;
  }

  method MergeColumns(spec: Option<TableSpec>, found: seq<Found>) returns (columns: seq<ColumnContent>)
    ensures columns == seq(|found|, i requires 0 <= i < |found| => MergedColumn(spec, found[i]))
  {
    columns := [];
    for c := 0 to |found|
      invariant |columns| == c
      invariant forall i :: 0 <= i < c ==> columns[i] == MergedColumn(spec, found[i])
    {
      columns := columns + [MergedColumn(spec, found[c])];
    }
  }

  ghost predicate HasKey(found: seq<FoundTable>, k: TableKey) {
    exists i :: 0 <= i < |found| && found[i].key == k
  }

  lemma HasKeyNext(found: seq<FoundTable>, k: TableKey)
    requires found != []
    ensures HasKey(found, k) <==> HasKey(found[..|found| - 1], k) || found[|found| - 1].key == k
  {
  }

  /** The desired tables are those found; of two under one key the later counts. */
  lemma {:induction false} DesiredAreFound(specs: map<string, TableSpec>, schema: string, found: seq<FoundTable>)
    ensures forall k :: k in DesiredFrom(specs, schema, found) <==> HasKey(found, k)
  {
    if found != [] {
      DesiredAreFound(specs, schema, found[..|found| - 1]);
      forall k ensures k in DesiredFrom(specs, schema, found) <==> HasKey(found, k) {
        HasKeyNext(found, k);
      }
    }
  }

  lemma {:induction false} LastFoundCounts(specs: map<string, TableSpec>, schema: string, found: seq<FoundTable>,
                                           i: nat)
    requires i < |found| && LastOfKey(found, i)
    ensures found[i].key in DesiredFrom(specs, schema, found)
    ensures DesiredFrom(specs, schema, found)[found[i].key] == Merged(specs, schema, found[i])
  {
    if i < |found| - 1 {
      assert found[|found| - 1].key != found[i].key;
      LastFoundCounts(specs, schema, found[..|found| - 1], i);
    }
  }

  predicate LastOfKey(found: seq<FoundTable>, i: nat)
    requires i < |found|
  {
    forall j :: i < j < |found| ==> found[j].key != found[i].key
  }

  /** What was found of a column, with what the YAML says of it, which is nothing of a table
      outside the default schema. */
  predicate IsMerged(specs: map<string, TableSpec>, schema: string, key: TableKey, found: Found, c: ColumnContent) {
    && Found(c.name, c.dataType, c.nullable, c.primary, c.foreign) == found
    && if key.0 == schema && key.1 in specs && found.name in specs[key.1].columns
       then ColumnSpec(c.description, c.sensitive, c.samples) == specs[key.1].columns[found.name]
       else c.description.None? && !c.sensitive && c.samples.None?
  }

  /** The merged table has the columns of the database, one by one, and of the YAML what this
      says of the table and of each column. */
  lemma MergedIsFaithful(specs: map<string, TableSpec>, schema: string, t: FoundTable)
    requires forall i, j :: 0 <= i < j < |t.columns| ==> t.columns[i].name != t.columns[j].name
    ensures var d := Merged(specs, schema, t);
            && Proper(d) && |d.columns| == |t.columns| && d.rowCount == t.rowCount
            && d.description == (if t.key.0 == schema && t.key.1 in specs then specs[t.key.1].description else None)
            && forall i :: 0 <= i < |t.columns| ==> IsMerged(specs, schema, t.key, t.columns[i], d.columns[i])
  {
    forall i | 0 <= i < |t.columns|
      ensures IsMerged(specs, schema, t.key, t.columns[i], Merged(specs, schema, t).columns[i])
    {
      assert Merged(specs, schema, t).columns[i] == MergedColumn(SpecFor(specs, schema, t.key), t.columns[i]);
    }
  }

  // ---------------------------------------------------------------------- the run

  datatype Workspace = Workspace(desired: DesiredTables, keys: seq<Edge>, joins: seq<Join>, terms: seq<Term>,
                                 yaml: seq<Example>, schema: string)

  function SnapshotOf(w: Workspace): Snapshot {
    Snapshot(w.desired, w.terms, w.schema)
  }

  datatype Report = Report(tables: Counts, columns: Counts, relationships: Counts, glossary: Counts, examples: Counts) {
    predicate SchemaChanged() {
      tables.Changed() || columns.Changed() || relationships.Changed() || glossary.Changed()
    }

    predicate Changed() { SchemaChanged() || examples.Changed() }
  }

  /** All that a run reads and writes. */
  datatype Everything = Everything(stored: Stored, relationships: map<nat, Relationship>, examples: Rows)

  /** The parts of the store that need no write for this workspace. */
  ghost predicate Settled(s: Stored, relationships: map<nat, Relationship>, w: Workspace, edges: map<Edge, EdgeKind>) {
    && UpToDate(States(s.tables), Hashes(w.desired))
    && AllAsDesired(w.desired.Keys, s.columns, w.desired)
    && EdgesAgree(relationships, edges)
    && GlossaryCurrent(s.glossary, w.terms, w.schema, w.desired.Keys)
  }

  lemma SettledAfter(s: Stored, rows: map<nat, Relationship>, w: Workspace, edges: map<Edge, EdgeKind>)
    requires AllProper(w.desired) && EdgesAgree(rows, edges)
    ensures Settled(Ingested(s, SnapshotOf(w)), rows, w, edges)
    ensures Ingested(Ingested(s, SnapshotOf(w)), SnapshotOf(w)) == Ingested(s, SnapshotOf(w))
  {
    IngestionConverges(s, SnapshotOf(w));
    var t := Ingested(s, SnapshotOf(w));
    TablesUpToDate(s.tables, w.desired);
    ColumnsAreAsDesired(s.columns, w.desired);
    GlossarySettles(s.glossary, w.terms, w.schema, w.desired.Keys);
    assert t.glossary.Keys == Entries(w.terms).Keys;
  }

  lemma TablesUpToDate(tables: Tables, desired: DesiredTables)
    ensures UpToDate(States(TablesAfter(tables, desired)), Hashes(desired))
  {
  }

  lemma ColumnsAreAsDesired(columns: AllColumns, desired: DesiredTables)
    ensures AllAsDesired(desired.Keys, AllColumnsAfter(columns, desired), desired)
  {
  }

  class ControlDatabase {
    var tables: Tables
    var columns: AllColumns
    var relationships: map<nat, Relationship>
    var glossary: Glossary
    var examples: Rows
    var next: nat

    function Now(): Stored
      reads this
    {
      Stored(tables, columns, glossary)
    }

    ghost predicate Valid()
      reads this
    {
      Below(relationships, next)
    }

    method SyncTables(desired: DesiredTables) returns (counts: Counts, live: set<TableKey>)
      modifies this`tables
      ensures tables == TablesAfter(old(tables), desired) && live == desired.Keys
      ensures counts == CountsOf(TheDiff(States(old(tables)), Hashes(desired)))
      ensures !counts.Changed() <==> UpToDate(States(old(tables)), Hashes(desired))
    {
      ghost var before := tables;
      NoChangeIff(TheDiff(States(tables), Hashes(desired)), States(tables), Hashes(desired));
      var d := DiffRows(States(tables), Hashes(desired));
      TableClasses(d, before, desired);
      Write(d.created, before, desired);
      ghost var t1 := tables;
      Write(d.updated, before, desired);
      ghost var t2 := tables;
      Refresh(d.same, before, desired);
      ghost var t3 := tables;
      Retire(d.removed, before, desired);
      AllTablesDone(d, before, desired, t1, t2, t3, tables);
      counts := CountsOf(d);
      live := d.created + d.updated + (d.same * desired.Keys);
      LiveAreDesired(d, before, desired, live);
    }

    /** Every row is written afresh: content, hash, no embedding, not reviewed. */
    method Write(keys: set<TableKey>, ghost before: Tables, desired: DesiredTables)
      requires keys <= desired.Keys
      requires forall k :: k in keys ==> !RowCurrent(before, desired, k)
      modifies this`tables
      ensures DoneFor(keys, before, desired, old(tables), tables)
    {
      var todo := keys;
      while todo != {}
        invariant todo <= keys
        invariant DoneFor(keys - todo, before, desired, old(tables), tables)
        decreases todo
      {
        var k :| k in todo;
        todo := todo - {k};
        var d := desired[k];
        tables := tables[k := TableRow(d.description, d.rowCount, true, Some(HashOf(k, d)), None, false)];
      }
      assert keys - todo == keys;
    }

    /** Only the row count follows the snapshot. */
    method Refresh(keys: set<TableKey>, ghost before: Tables, desired: DesiredTables)
      requires keys <= tables.Keys && keys <= before.Keys
      requires forall k :: k in keys ==>
                 tables[k] == before[k] && if k in desired then RowCurrent(before, desired, k) else !before[k].active
      modifies this`tables
      ensures DoneFor(keys, before, desired, old(tables), tables)
    {
      var todo := keys;
      while todo != {}
        invariant todo <= keys <= tables.Keys
        invariant forall k :: k in todo ==> tables[k] == before[k]
        invariant DoneFor(keys - todo, before, desired, old(tables), tables)
        decreases todo
      {
        var k :| k in todo;
        todo := todo - {k};
        if k in desired && tables[k].rowCount != desired[k].rowCount {
          tables := tables[k := tables[k].(rowCount := desired[k].rowCount)];
        }
      }
      assert keys - todo == keys;
    }

    method Retire(keys: set<TableKey>, ghost before: Tables, desired: DesiredTables)
      requires keys <= tables.Keys && keys <= before.Keys && keys !! desired.Keys
      requires forall k :: k in keys ==> tables[k] == before[k]
      modifies this`tables
      ensures DoneFor(keys, before, desired, old(tables), tables)
    {
      var todo := keys;
      while todo != {}
        invariant todo <= keys <= tables.Keys
        invariant forall k :: k in todo ==> tables[k] == before[k]
        invariant DoneFor(keys - todo, before, desired, old(tables), tables)
        decreases todo
      {
        var k :| k in todo;
        todo := todo - {k};
        tables := tables[k := tables[k].(active := false)];
      }
      assert keys - todo == keys;
    }

    /** The columns of each desired table, by a diff of their own. */
    method SyncColumns(desired: DesiredTables) returns (counts: Counts)
      modifies this`columns
      ensures columns == AllColumnsAfter(old(columns), desired)
      ensures !counts.Changed() <==> AllAsDesired(desired.Keys, old(columns), desired)
    {
      counts := Counts(0, 0, 0, 0);
      ghost var before := columns;
      var todo := desired.Keys;
      while todo != {}
        invariant todo <= desired.Keys && SyncedBut(todo, before, desired, columns)
        invariant !counts.Changed() <==> AllAsDesired(desired.Keys - todo, before, desired)
        decreases todo
      {
        var k :| k in todo;
        ghost var was, left := columns, todo;
        todo := todo - {k};
        Untouched(left, before, desired, columns, k);
        var synced, one := SyncTable(ColumnsOf(columns, k), desired[k].columns);
        columns := columns[k := synced];
        counts := counts.Plus(one);
        OneMoreSynced(left, before, desired, was, k, columns);
        OneMoreAsDesired(left, before, desired, k);
      }
      AllSynced(before, desired, columns);
      assert desired.Keys - todo == desired.Keys;
    }

    static method SyncTable(cols: Columns, cs: seq<ColumnContent>) returns (synced: Columns, counts: Counts)
      ensures synced == ColumnsAfter(cols, cs)
      ensures !counts.Changed() <==> synced == cols
    {
      synced, counts := SyncOneTable(cols, Fresh(cs));
    }

    static method SyncOneTable(cols: Columns, wanted: map<string, ColumnContent>)
      returns (synced: Columns, counts: Counts)
      ensures synced == ColumnsFor(cols, wanted)
      ensures counts == CountsOf(TheDiff(ColumnStates(cols), wanted))
      ensures !counts.Changed() <==> synced == cols
    {
      var d := DiffRows(ColumnStates(cols), wanted);
      synced := PutColumns(cols, d.created + d.updated, wanted);
      ColumnsDone(d, cols, wanted, synced);
      synced := synced - d.removed;
      counts := CountsOf(d);
      NoColumnChangeIff(cols, wanted);
    }

    /** Writes the given columns, unreviewed. */
    static method PutColumns(cols: Columns, names: set<string>, wanted: map<string, ColumnContent>)
      returns (put: Columns)
      requires names <= wanted.Keys
      ensures put.Keys == cols.Keys + names
      ensures forall n :: n in put ==> put[n] == if n in names then ColumnRow(wanted[n], false) else cols[n]
    {
      put := cols;
      var todo := names;
      while todo != {}
        invariant todo <= names && put.Keys == cols.Keys + (names - todo)
        invariant forall n :: n in put ==> put[n] == if n in names - todo then ColumnRow(wanted[n], false) else cols[n]
        decreases todo
      {
        var n :| n in todo;
        todo := todo - {n};
        put := put[n := ColumnRow(wanted[n], false)];
      }
    }

    method SyncGlossary(terms: seq<Term>, schema: string, live: set<TableKey>) returns (counts: Counts)
      modifies this`glossary
      ensures glossary == GlossaryAfter(old(glossary), terms, schema, live)
      ensures !counts.Changed() <==> GlossaryCurrent(old(glossary), terms, schema, live)
    {
      ghost var before := glossary;
      var entries := Entries(terms);
      var d := DiffRows(TermStates(glossary, schema, live), TermHashes(terms, schema, live));
      NoTermChangeIff(glossary, terms, schema, live);
      PutTerms(d.created + d.updated, entries, schema, live);
      TermsDone(d, before, terms, schema, live, glossary);
      glossary := glossary - d.removed;
      counts := CountsOf(d);
    }

    method PutTerms(names: set<string>, entries: map<string, Term>, schema: string, live: set<TableKey>)
      requires names <= entries.Keys
      modifies this`glossary
      ensures glossary.Keys == old(glossary.Keys) + names
      ensures forall name :: name in glossary ==>
                if name in names then glossary[name] == NewTerm(entries[name], schema, live)
                else name in old(glossary) && glossary[name] == old(glossary)[name]
    {
      var todo := names;
      while todo != {}
        invariant todo <= names && glossary.Keys == old(glossary.Keys) + (names - todo)
        invariant forall name :: name in glossary ==>
                    if name in names - todo then glossary[name] == NewTerm(entries[name], schema, live)
                    else name in old(glossary) && glossary[name] == old(glossary)[name]
        decreases todo
      {
        var name :| name in todo;
        todo := todo - {name};
        glossary := glossary[name := NewTerm(entries[name], schema, live)];
      }
    }

    method SyncExamples(yaml: seq<Example>) returns (counts: Counts)
      modifies this`examples
      ensures IsRun(old(examples), yaml, examples, counts)
    {
      examples, counts := UpsertExamples(examples, yaml);
    }

    function All(): Everything
      reads this
    {
      Everything(Now(), relationships, examples)
    }

    /** One ingestion. It reports a change in the schema, its joins and its terms
        exactly when the store was not up to date with the workspace. */
    method IngestWorkspace(w: Workspace) returns (report: Report, ghost edges: map<Edge, EdgeKind>)
      requires Valid()
      modifies this
      ensures Valid() && Now() == Ingested(old(Now()), SnapshotOf(w))
      ensures AreDesiredEdges(edges, w.keys, w.joins, w.schema, w.desired.Keys) && EdgesAgree(relationships, edges)
      ensures !report.relationships.Changed() ==> relationships == old(relationships)
      ensures !report.SchemaChanged() <==> Settled(old(Now()), old(relationships), w, edges)
      ensures IsRun(old(examples), w.yaml, examples, report.examples)
    {
      ghost var before := All();
      report, edges := SyncSchema(w);
      assert examples == before.examples;
      var exampleCounts := SyncExamples(w.yaml);
      report := report.(examples := exampleCounts);
    }

    /** Everything but the examples. */
    method SyncSchema(w: Workspace) returns (report: Report, ghost edges: map<Edge, EdgeKind>)
      requires Valid()
      modifies this`tables, this`columns, this`relationships, this`glossary, this`next
      ensures Valid() && Now() == Ingested(old(Now()), SnapshotOf(w))
      ensures AreDesiredEdges(edges, w.keys, w.joins, w.schema, w.desired.Keys) && EdgesAgree(relationships, edges)
      ensures !report.relationships.Changed() ==> relationships == old(relationships)
      ensures !report.SchemaChanged() <==> Settled(old(Now()), old(relationships), w, edges)
    {
      var tableCounts, columnCounts, live := SyncStructure(w.desired);
      var desiredEdges := DesiredEdges(w.keys, w.joins, w.schema, live);
      edges := desiredEdges;
      var edgeCounts := SyncRelationships(desiredEdges);
      var termCounts := SyncGlossary(w.terms, w.schema, live);
      report := Report(tableCounts, columnCounts, edgeCounts, termCounts, Counts(0, 0, 0, 0));
    }

    /** Tables and their columns. */
    method SyncStructure(desired: DesiredTables)
      returns (tableCounts: Counts, columnCounts: Counts, live: set<TableKey>)
      modifies this`tables, this`columns
      ensures tables == TablesAfter(old(tables), desired) && columns == AllColumnsAfter(old(columns), desired)
      ensures live == desired.Keys
      ensures !tableCounts.Changed() <==> UpToDate(States(old(tables)), Hashes(desired))
      ensures !columnCounts.Changed() <==> AllAsDesired(desired.Keys, old(columns), desired)
    {
      tableCounts, live := SyncTables(desired);
      columnCounts := SyncColumns(desired);
    }

    /** Ingesting the same workspace twice, with the example rows in any order the
        second time. The second run finds nothing to change in the schema; it finds
        nothing at all if the YAML says one thing of each example question and no spare
        row says another; and only the former lets it. */
    method IngestTwice(w: Workspace, order: Rows -> Rows)
      returns (first: Report, second: Report, ghost between: Everything)
      requires Valid() && AllProper(w.desired)
      requires Reorders(order)
      modifies this
      ensures Valid() && !second.SchemaChanged()
      ensures between.stored == Now() && between.relationships == relationships
      ensures Consistent(w.yaml) && SparesAgree(old(examples), w.yaml) ==> !second.Changed()
      ensures !second.Changed() ==> Consistent(w.yaml) && between == All()
    {
      ghost var start, edges := examples, map[];
      first, edges := IngestAndSettle(w);
      ghost var after := examples;
      second, between := IngestReordered(w, order, edges);
      SecondRun(start, w.yaml, after, first.examples, between.examples, examples, second.examples);
    }

    /** A run over a store that is up to date, with the example rows in another order. */
    method IngestReordered(w: Workspace, order: Rows -> Rows, ghost edges: map<Edge, EdgeKind>)
      returns (report: Report, ghost between: Everything)
      requires Valid() && AreDesiredEdges(edges, w.keys, w.joins, w.schema, w.desired.Keys) && Reorders(order)
      requires Ingested(Now(), SnapshotOf(w)) == Now() && Settled(Now(), relationships, w, edges)
      modifies this
      ensures Valid() && !report.SchemaChanged() && multiset(between.examples) == multiset(old(examples))
      ensures between.stored == Now() && between.relationships == relationships
      ensures IsRun(between.examples, w.yaml, examples, report.examples)
    {
      examples := order(examples);
      between := All();
      report := IngestSettled(w, edges);
    }

    /** A run leaves the store up to date. */
    method IngestAndSettle(w: Workspace) returns (report: Report, ghost edges: map<Edge, EdgeKind>)
      requires Valid() && AllProper(w.desired)
      modifies this
      ensures Valid() && AreDesiredEdges(edges, w.keys, w.joins, w.schema, w.desired.Keys)
      ensures Ingested(Now(), SnapshotOf(w)) == Now() && Settled(Now(), relationships, w, edges)
      ensures IsRun(old(examples), w.yaml, examples, report.examples)
    {
      ghost var start := Now();
      report, edges := IngestWorkspace(w);
      SettledAfter(start, relationships, w, edges);
    }

    /** A run over a store that is up to date. */
    method IngestSettled(w: Workspace, ghost edges: map<Edge, EdgeKind>) returns (report: Report)
      requires Valid() && AreDesiredEdges(edges, w.keys, w.joins, w.schema, w.desired.Keys)
      requires Ingested(Now(), SnapshotOf(w)) == Now() && Settled(Now(), relationships, w, edges)
      modifies this
      ensures Valid() && Now() == old(Now()) && relationships == old(relationships)
      ensures !report.SchemaChanged() && IsRun(old(examples), w.yaml, examples, report.examples)
    {
      ghost var again;
      report, again := IngestWorkspace(w);
      DesiredEdgesAreUnique(edges, again, w.keys, w.joins, w.schema, w.desired.Keys);
    }

    method SyncRelationships(desired: map<Edge, EdgeKind>) returns (counts: Counts)
      requires Valid()
      modifies this`relationships, this`next
      ensures Valid() && EdgesAgree(relationships, desired)
      ensures !counts.Changed() <==> old(EdgesAgree(relationships, desired))
      ensures !counts.Changed() ==> relationships == old(relationships)
      ensures EdgesStay(old(relationships), relationships)
    {
      ghost var before := relationships;
      var existing, duplicates := IndexEdges();
      RemoveRows(duplicates);
      ghost var single := relationships;
      counts := PutAndPrune(existing, desired, before);
      counts := counts.Plus(Counts(0, 0, 0, |duplicates|));
      DuplicatesDisagree(before, duplicates, single, desired);
    }

    /** With one row for each edge: put the desired edges, delete the others. */
    method PutAndPrune(existing: map<Edge, nat>, desired: map<Edge, EdgeKind>, ghost before: map<nat, Relationship>)
      returns (counts: Counts)
      requires Valid() && OneRowEach(relationships, existing)
      requires SubRows(relationships, before) && Below(before, next)
      modifies this`relationships, this`next
      ensures Valid() && EdgesAgree(relationships, desired)
      ensures !counts.Changed() <==> old(EdgesAgree(relationships, desired))
      ensures !counts.Changed() ==> relationships == old(relationships)
      ensures EdgesStay(before, relationships)
    {
      ghost var single, first := relationships, next;
      ghost var index;
      counts, index := PutEdges(existing, desired);
      ghost var put := relationships;
      var removed, stale := Prune(desired);
      counts := counts.Plus(Counts(0, 0, 0, removed));
      EdgesDone(single, existing, desired, put, index, stale);
      RowsStay(before, single, existing, desired, put, index, first, stale);
    }

    method RemoveRows(ids: set<nat>)
      requires Valid()
      modifies this`relationships
      ensures Valid() && relationships == old(relationships) - ids
    {
      relationships := relationships - ids;
    }

    method Prune(desired: map<Edge, EdgeKind>) returns (removed: nat, ghost stale: set<nat>)
      requires Valid()
      modifies this`relationships
      ensures Valid() && relationships == old(relationships) - stale
      ensures stale == set i | i in old(relationships) && old(relationships)[i].edge !in desired
      ensures removed == |stale| && (stale == {} ==> relationships == old(relationships))
    {
      var gone := set i | i in relationships && relationships[i].edge !in desired;
      RemoveRows(gone);
      removed, stale := |gone|, gone;
    }

    /** Creates or corrects the row of each desired edge. */
    method PutEdges(existing: map<Edge, nat>, desired: map<Edge, EdgeKind>)
      returns (counts: Counts, ghost index: map<Edge, nat>)
      requires Valid() && OneRowEach(relationships, existing)
      modifies this`relationships, this`next
      ensures Valid() && EdgesPut(old(relationships), existing, desired, desired.Keys, relationships, index)
      ensures counts.removed == 0
      ensures NewFrom(old(relationships), relationships, old(next))
      ensures !counts.Changed() <==> AllCurrent(old(relationships), existing, desired, desired.Keys)
      ensures !counts.Changed() ==> relationships == old(relationships)
    {
      counts, index := Counts(0, 0, 0, 0), existing;
      ghost var before, first := relationships, next;
      var todo := desired.Keys;
      while todo != {}
        invariant todo <= desired.Keys && Valid() && counts.removed == 0
        invariant next >= first && NewFrom(before, relationships, first)
        invariant EdgesPut(before, existing, desired, desired.Keys - todo, relationships, index)
        invariant !counts.Changed() <==> AllCurrent(before, existing, desired, desired.Keys - todo)
        invariant !counts.Changed() ==> relationships == before
        decreases todo
      {
        var e :| e in todo;
        ghost var done := desired.Keys - todo;
        todo := todo - {e};
        assert desired.Keys - todo == done + {e};
        EdgePut(before, existing, desired, done, relationships, index, e, if e in existing then existing[e] else next);
        ghost var id := if e in existing then existing[e] else next;
        var one := PutEdge(existing, e, desired[e]);
        index := index[e := id];
        counts := counts.Plus(one);
      }
      assert desired.Keys - todo == desired.Keys;
    }

    method PutEdge(existing: map<Edge, nat>, e: Edge, kind: EdgeKind) returns (counts: Counts)
      requires Valid() && (e in existing ==> existing[e] in relationships && relationships[existing[e]].edge == e)
      modifies this`relationships, this`next
      ensures Valid() && next == (if e in existing then old(next) else old(next) + 1)
      ensures var id := if e in existing then existing[e] else old(next);
              relationships == old(relationships)[id := Relationship(e, kind)]
      ensures counts.removed == 0
      ensures !counts.Changed() <==> e in existing && old(relationships)[existing[e]].kind == kind
      ensures !counts.Changed() ==> relationships == old(relationships)
    {
      if e !in existing {
        relationships := relationships[next := Relationship(e, kind)];
        next := next + 1;
        return Counts(1, 0, 0, 0);
      }
      if relationships[existing[e]].kind != kind {
        relationships := relationships[existing[e] := relationships[existing[e]].(kind := kind)];
        return Counts(0, 1, 0, 0);
      }
      assert relationships[existing[e]] == Relationship(e, kind);
      counts := Counts(0, 0, 1, 0);
    }

    /** A representative for each edge; the other rows are duplicates. */
    method IndexEdges() returns (existing: map<Edge, nat>, duplicates: set<nat>)
      ensures OneRowEach(relationships - duplicates, existing) && duplicates <= relationships.Keys
      ensures duplicates == {} <==> UniqueEdges(relationships)
    {
      existing, duplicates := map[], {};
      var todo := relationships.Keys;
      while todo != {}
        invariant todo <= relationships.Keys && duplicates <= relationships.Keys - todo
        invariant forall e :: e in existing ==>
                    existing[e] in relationships && existing[e] !in todo && relationships[existing[e]].edge == e
        invariant forall i :: i in relationships && i !in todo ==> relationships[i].edge in existing
        invariant forall i :: i in relationships && i !in todo ==>
                    (i in duplicates <==> existing[relationships[i].edge] != i)
        decreases todo
      {
        var i :| i in todo;
        todo := todo - {i};
        if relationships[i].edge in existing { duplicates := duplicates + {i}; }
        else { existing := existing[relationships[i].edge := i]; }
      }
      NoDuplicatesIff(relationships, existing, duplicates);
    }
  }

  /** A row that is kept is a row for the edge it was for. */
  ghost predicate EdgesStay(before: map<nat, Relationship>, after: map<nat, Relationship>) {
    forall i :: i in before && i in after ==> after[i].edge == before[i].edge
  }

  ghost predicate Below(rows: map<nat, Relationship>, next: nat) {
    forall i :: i in rows ==> i < next
  }

  ghost predicate NewFrom(before: map<nat, Relationship>, now: map<nat, Relationship>, first: nat) {
    forall i :: i in now ==> i in before || i >= first
  }

  ghost predicate SubRows(few: map<nat, Relationship>, many: map<nat, Relationship>) {
    forall i :: i in few ==> i in many && few[i] == many[i]
  }

  lemma RowsStay(before: map<nat, Relationship>, single: map<nat, Relationship>, existing: map<Edge, nat>,
                 desired: map<Edge, EdgeKind>, put: map<nat, Relationship>, index: map<Edge, nat>, first: nat,
                 stale: set<nat>)
    requires OneRowEach(single, existing) && EdgesPut(single, existing, desired, desired.Keys, put, index)
    requires SubRows(single, before)
    requires Below(before, first) && NewFrom(single, put, first)
    ensures EdgesStay(before, put - stale)
  {
  }

  lemma NoDuplicatesIff(rows: map<nat, Relationship>, existing: map<Edge, nat>, duplicates: set<nat>)
    requires duplicates <= rows.Keys
    requires forall e :: e in existing ==> existing[e] in rows && rows[existing[e]].edge == e
    requires forall i :: i in rows ==> rows[i].edge in existing && (i in duplicates <==> existing[rows[i].edge] != i)
    ensures duplicates == {} <==> UniqueEdges(rows)
  {
  }

  lemma DuplicatesDisagree(before: map<nat, Relationship>, duplicates: set<nat>, single: map<nat, Relationship>,
                           desired: map<Edge, EdgeKind>)
    requires single == before - duplicates && (duplicates == {} <==> UniqueEdges(before))
    ensures EdgesAgree(before, desired) <==> duplicates == {} && EdgesAgree(single, desired)
    ensures duplicates == {} ==> single == before
  {
    if duplicates == {} { assert single == before; } else { assert !UniqueEdges(before); }
  }

  /** Putting and pruning together. */
  lemma EdgesDone(single: map<nat, Relationship>, existing: map<Edge, nat>, desired: map<Edge, EdgeKind>,
                  put: map<nat, Relationship>, index: map<Edge, nat>, stale: set<nat>)
    requires OneRowEach(single, existing)
    requires EdgesPut(single, existing, desired, desired.Keys, put, index)
    requires stale == set i | i in put && put[i].edge !in desired
    ensures EdgesAgree(put - stale, desired)
    ensures EdgesAgree(single, desired) <==> stale == {} && AllCurrent(single, existing, desired, desired.Keys)
  {
    var kept := map e | e in index && e in desired :: index[e];
    assert OneRowEach(put - stale, kept);
    EdgesAgreeIff(put - stale, kept, desired);
    StaleIff(single, existing, desired, put, index, stale);
    EdgesAgreeIff(single, existing, desired);
  }

  lemma StaleIff(single: map<nat, Relationship>, existing: map<Edge, nat>, desired: map<Edge, EdgeKind>,
                 put: map<nat, Relationship>, index: map<Edge, nat>, stale: set<nat>)
    requires OneRowEach(single, existing)
    requires EdgesPut(single, existing, desired, desired.Keys, put, index)
    requires stale == set i | i in put && put[i].edge !in desired
    ensures stale == {} <==> existing.Keys <= desired.Keys
  {
    if stale == {} {
      forall e | e in existing ensures e in desired {
        assert index[e] in put && index[e] !in stale;
      }
    } else {
      var i :| i in stale;
      assert put[i].edge in existing && put[i].edge !in desired;
    }
  }

  lemma ColumnsDone(d: DiffResult<string>, cols: Columns, wanted: map<string, ColumnContent>, put: Columns)
    requires Classifies(d, ColumnStates(cols), wanted)
    requires put.Keys == cols.Keys + (d.created + d.updated)
    requires forall n :: n in put ==>
              put[n] == if n in d.created + d.updated then ColumnRow(wanted[n], false) else cols[n]
    ensures put - d.removed == ColumnsFor(cols, wanted)
  {
  }

  /** The stored columns of a table are already the desired ones. */
  ghost predicate AsDesired(columns: AllColumns, desired: DesiredTables, k: TableKey)
    requires k in desired
  {
    ColumnsAfter(ColumnsOf(columns, k), desired[k].columns) == ColumnsOf(columns, k)
  }

  ghost predicate AllAsDesired(done: set<TableKey>, columns: AllColumns, desired: DesiredTables)
    requires done <= desired.Keys
  {
    forall k :: k in done ==> AsDesired(columns, desired, k)
  }

  lemma OneMoreAsDesired(todo: set<TableKey>, columns: AllColumns, desired: DesiredTables, k: TableKey)
    requires k in todo && todo <= desired.Keys
    ensures AllAsDesired(desired.Keys - (todo - {k}), columns, desired) <==>
              AllAsDesired(desired.Keys - todo, columns, desired) && AsDesired(columns, desired, k)
  {
  }

  /** A table's columns are synced, or not yet touched. */
  ghost predicate SyncedOr(todo: set<TableKey>, before: AllColumns, desired: DesiredTables, now: AllColumns,
                           k: TableKey)
  {
    if k in desired && k !in todo then k in now && now[k] == ColumnsAfter(ColumnsOf(before, k), desired[k].columns)
    else (k in now <==> k in before) && (k in now && k in before ==> now[k] == before[k])
  }

  ghost predicate SyncedBut(todo: set<TableKey>, before: AllColumns, desired: DesiredTables, now: AllColumns) {
    forall k {:trigger SyncedOr(todo, before, desired, now, k)} :: SyncedOr(todo, before, desired, now, k)
  }

  lemma Untouched(todo: set<TableKey>, before: AllColumns, desired: DesiredTables, now: AllColumns, k: TableKey)
    requires k in todo && SyncedBut(todo, before, desired, now)
    ensures ColumnsOf(now, k) == ColumnsOf(before, k)
  {
    assert SyncedOr(todo, before, desired, now, k);
  }

  lemma OneMoreSynced(todo: set<TableKey>, before: AllColumns, desired: DesiredTables, was: AllColumns, k: TableKey,
                      now: AllColumns)
    requires k in todo && k in desired && SyncedBut(todo, before, desired, was)
    requires now == was[k := ColumnsAfter(ColumnsOf(before, k), desired[k].columns)]
    ensures SyncedBut(todo - {k}, before, desired, now)
  {
    var rest := todo - {k};
    forall other ensures SyncedOr(rest, before, desired, now, other) {
      if other != k { assert SyncedOr(todo, before, desired, was, other); }
    }
  }

  lemma AllSynced(before: AllColumns, desired: DesiredTables, now: AllColumns)
    requires SyncedBut({}, before, desired, now)
    ensures now == AllColumnsAfter(before, desired)
  {
    var after := AllColumnsAfter(before, desired);
    forall k ensures k in now <==> k in after {
      assert SyncedOr({}, before, desired, now, k);
    }
    forall k | k in now ensures now[k] == after[k] {
      assert SyncedOr({}, before, desired, now, k);
    }
  }

  predicate RowCurrent(tables: Tables, desired: DesiredTables, k: TableKey)
    requires k in desired
  {
    k in tables && tables[k].active && tables[k].sourceHash == Some(HashOf(k, desired[k]))
  }

  lemma TableClasses(d: DiffResult<TableKey>, before: Tables, desired: DesiredTables)
    requires Classifies(d, States(before), Hashes(desired))
    ensures d.created + d.updated + d.same + d.removed == before.Keys + desired.Keys
    ensures d.created !! d.updated !! d.same !! d.removed
    ensures forall k :: k in d.created || k in d.updated ==> k in desired && !RowCurrent(before, desired, k)
    ensures forall k :: k in d.same ==>
              k in before && if k in desired then RowCurrent(before, desired, k) else !before[k].active
    ensures forall k :: k in d.removed ==> k in before && k !in desired
  {
  }

  ghost predicate DoneFor(keys: set<TableKey>, before: Tables, desired: DesiredTables, was: Tables, now: Tables) {
    && now.Keys == was.Keys + keys
    && (forall k :: k in keys ==> k in before || k in desired)
    && forall k :: k in now ==> now[k] == if k in keys then TableAfter(before, desired, k) else was[k]
  }

  lemma LiveAreDesired(d: DiffResult<TableKey>, before: Tables, desired: DesiredTables, live: set<TableKey>)
    requires Classifies(d, States(before), Hashes(desired))
    requires live == d.created + d.updated + (d.same * desired.Keys)
    ensures live == desired.Keys
  {
  }

  lemma AllTablesDone(d: DiffResult<TableKey>, before: Tables, desired: DesiredTables,
                      t1: Tables, t2: Tables, t3: Tables, now: Tables)
    requires d.created + d.updated + d.same + d.removed == before.Keys + desired.Keys
    requires d.created !! d.updated !! d.same !! d.removed
    requires DoneFor(d.created, before, desired, before, t1) && DoneFor(d.updated, before, desired, t1, t2)
    requires DoneFor(d.same, before, desired, t2, t3) && DoneFor(d.removed, before, desired, t3, now)
    ensures now == TablesAfter(before, desired)
  {
    assert now.Keys == before.Keys + desired.Keys;
    forall k | k in now ensures now[k] == TableAfter(before, desired, k) {
      assert k in d.created + d.updated + d.same + d.removed;
    }
  }
}
