/**
 Schema ingestion (app/sql_agent/ingestion/run.py) as functions on the stored rows:
 the merged snapshot, what a run makes of tables, columns and glossary, and what holds
 over any sequence of runs and embedding steps. `ControlStore` has the loops.

 A table row is identified by its key, which stands for the row's id: rows of tables
 are never deleted.
 */
module Ingestion {
  import opened Wrappers
  import opened Diff

  // ---------------------------------------------------------------- the snapshot

  datatype ColumnSpec = ColumnSpec(description: Option<string>, sensitive: bool, values: Option<seq<string>>)

  datatype TableSpec = TableSpec(description: Option<string>, columns: map<string, ColumnSpec>)

  datatype Found = Found(name: string, dataType: string, nullable: bool, primary: bool, foreign: bool)

  datatype FoundTable = FoundTable(key: TableKey, rowCount: int, columns: seq<Found>)

  datatype Term = Term(term: string, definition: string, mapsTo: Option<string>)

  datatype Desired = Desired(description: Option<string>, rowCount: int, columns: seq<ColumnContent>)

  type DesiredTables = map<TableKey, Desired>

  function MergedColumn(spec: Option<TableSpec>, c: Found): ColumnContent {
    var e := if spec.Some? && c.name in spec.value.columns then Some(spec.value.columns[c.name]) else None;
    ColumnContent(c.name, c.dataType, c.nullable, c.primary, c.foreign,
                  if e.Some? then e.value.description else None,
                  e.Some? && e.value.sensitive,
                  if e.Some? then e.value.values else None)
  }

  /** The YAML describes tables of the default schema only. */
  function SpecFor(specs: map<string, TableSpec>, schema: string, key: TableKey): Option<TableSpec> {
    if key.0 == schema && key.1 in specs then Some(specs[key.1]) else None
  }

  function Merged(specs: map<string, TableSpec>, schema: string, t: FoundTable): Desired {
    var spec := SpecFor(specs, schema, t.key);
    Desired(if spec.Some? then spec.value.description else None, t.rowCount,
            seq(|t.columns|, i requires 0 <= i < |t.columns| => MergedColumn(spec, t.columns[i])))
  }

  /** A snapshot of one database: no table has two columns of one name, and no name
      of a table is empty. */
  ghost predicate Proper(d: Desired) {
    forall i, j :: 0 <= i < j < |d.columns| ==> d.columns[i].name != d.columns[j].name
  }

  ghost predicate AllProper(desired: DesiredTables) {
    forall k :: k in desired ==> Proper(desired[k]) && k.1 != ""
  }

  function HashOf(k: TableKey, d: Desired): TableContent {
    TableContent(k, d.description, multiset(d.columns))
  }

  // ------------------------------------------------------------------ stored rows

  datatype TableRow = TableRow(description: Option<string>, rowCount: int, active: bool,
                               sourceHash: Option<TableContent>, embedding: Option<TableContent>, reviewed: bool)

  datatype ColumnRow = ColumnRow(content: ColumnContent, reviewed: bool)

  type Columns = map<string, ColumnRow>

  /** A term's mapping is the id of a table. */
  datatype TermRow = TermRow(definition: string, mapped: Option<TableKey>,
                             embedding: Option<(string, Option<TableKey>)>)

  type Tables = map<TableKey, TableRow>
  type AllColumns = map<TableKey, Columns>
  type Glossary = map<string, TermRow>

  function ColumnsOf(columns: AllColumns, k: TableKey): Columns {
    if k in columns then columns[k] else map[]
  }

  /** The contents of the stored columns, for hashing and embedding. */
  function Contents(cols: Columns): set<ColumnContent> {
    set n | n in cols :: cols[n].content
  }

  function RowContent(k: TableKey, row: TableRow, cols: Columns): TableContent {
    TableContent(k, row.description, multiset(Contents(cols)))
  }

  // --------------------------------------------------------------- what a run does

  function TableAfter(tables: Tables, desired: DesiredTables, k: TableKey): TableRow
    requires k in tables || k in desired
  {
    if k !in desired then tables[k].(active := false)
    else
      var d := desired[k];
      if k in tables && tables[k].active && tables[k].sourceHash == Some(HashOf(k, d))
      then tables[k].(rowCount := d.rowCount)
      else TableRow(d.description, d.rowCount, true, Some(HashOf(k, d)), None, false)
  }

  function TablesAfter(tables: Tables, desired: DesiredTables): Tables {
    map k | k in tables.Keys + desired.Keys :: TableAfter(tables, desired, k)
  }

  /** The dictionary of a list of columns: of two with one name the later counts. */
  function Fresh(cs: seq<ColumnContent>): map<string, ColumnContent> {
    if cs == [] then map[] else Fresh(cs[..|cs| - 1])[cs[|cs| - 1].name := cs[|cs| - 1]]
  }

  function ColumnsFor(cols: Columns, wanted: map<string, ColumnContent>): Columns {
    map n | n in wanted :: if n in cols && cols[n].content == wanted[n] then cols[n] else ColumnRow(wanted[n], false)
  }

  function ColumnsAfter(cols: Columns, cs: seq<ColumnContent>): Columns {
    ColumnsFor(cols, Fresh(cs))
  }

  /** Columns of tables that are not in the snapshot stay as they are. */
  function AllColumnsAfter(columns: AllColumns, desired: DesiredTables): AllColumns {
    map k | k in columns.Keys + desired.Keys ::
      if k in desired then ColumnsAfter(ColumnsOf(columns, k), desired[k].columns) else columns[k]
  }

  // ----------------------------------------------------------------- the invariant

  ghost predicate HashIsCurrent(tables: Tables, columns: AllColumns, k: TableKey)
    requires k in tables
  {
    var content := RowContent(k, tables[k], ColumnsOf(columns, k));
    && tables[k].sourceHash == Some(content)
    && (tables[k].embedding.Some? ==> tables[k].embedding == Some(content))
  }

  ghost predicate NamedRight(cols: Columns) {
    forall n :: n in cols ==> cols[n].content.name == n
  }

  /** Every stored table, active or not, carries the hash of what is stored for it,
      and an embedding only of that. */
  ghost predicate Coherent(tables: Tables, columns: AllColumns) {
    && (forall k :: k in tables ==> HashIsCurrent(tables, columns, k))
    && (forall k :: NamedRight(ColumnsOf(columns, k)))
  }

  lemma {:induction false} FreshHas(cs: seq<ColumnContent>)
    ensures forall n :: n in Fresh(cs) ==> Fresh(cs)[n] in cs && Fresh(cs)[n].name == n
    ensures forall c :: c in cs ==> c.name in Fresh(cs)
  {
    if cs != [] {
      FreshHas(cs[..|cs| - 1]);
      assert cs == cs[..|cs| - 1] + [cs[|cs| - 1]];
    }
  }

  lemma FreshExact(d: Desired)
    requires Proper(d)
    ensures forall c :: c in d.columns ==> c.name in Fresh(d.columns) && Fresh(d.columns)[c.name] == c
  {
    FreshHas(d.columns);
    forall c | c in d.columns ensures Fresh(d.columns)[c.name] == c {
      var i :| 0 <= i < |d.columns| && d.columns[i] == c;
      var j :| 0 <= j < |d.columns| && d.columns[j] == Fresh(d.columns)[c.name];
      assert i == j;
    }
  }

  function SetOf(cs: seq<ColumnContent>): set<ColumnContent> {
    set c | c in cs
  }

  lemma {:induction false} NoneTwice(cs: seq<ColumnContent>)
    requires forall i, j :: 0 <= i < j < |cs| ==> cs[i] != cs[j]
    ensures multiset(cs) == multiset(SetOf(cs))
  {
    if cs != [] {
      var init, last := cs[..|cs| - 1], cs[|cs| - 1];
      assert cs == init + [last];
      NoneTwice(init);
      assert last !in init;
      assert SetOf(cs) == SetOf(init) + {last};
    }
  }

  lemma ProperHash(d: Desired)
    requires Proper(d)
    ensures multiset(d.columns) == multiset(SetOf(d.columns))
  {
    NoneTwice(d.columns);
  }

  lemma FreshValues(d: Desired)
    requires Proper(d)
    ensures Fresh(d.columns).Values == SetOf(d.columns)
    ensures forall n :: n in Fresh(d.columns) ==> Fresh(d.columns)[n].name == n
  {
    FreshHas(d.columns);
    FreshExact(d);
    var wanted := Fresh(d.columns);
    forall c | c in d.columns ensures c in wanted.Values {
      assert wanted[c.name] == c;
    }
  }

  lemma ColumnsForAre(cols: Columns, wanted: map<string, ColumnContent>)
    ensures Contents(ColumnsFor(cols, wanted)) == wanted.Values
  {
    var after := ColumnsFor(cols, wanted);
    forall c | c in wanted.Values ensures c in Contents(after) {
      var n :| n in wanted && wanted[n] == c;
      assert after[n].content == c;
    }
  }

  /** After its sync a table's stored columns are the desired ones. */
  lemma ColumnsAfterAre(cols: Columns, d: Desired)
    requires Proper(d)
    ensures Contents(ColumnsAfter(cols, d.columns)) == SetOf(d.columns)
    ensures NamedRight(ColumnsAfter(cols, d.columns))
  {
    FreshValues(d);
    ColumnsForAre(cols, Fresh(d.columns));
  }

  lemma SameContentsSameColumns(cols: Columns, wanted: map<string, ColumnContent>)
    requires NamedRight(cols) && Contents(cols) == wanted.Values
    requires forall n :: n in wanted ==> wanted[n].name == n
    ensures ColumnsFor(cols, wanted) == cols
  {
    forall n | n in cols ensures n in wanted && wanted[n] == cols[n].content {
      assert cols[n].content in Contents(cols);
    }
    forall n | n in wanted ensures n in cols {
      assert wanted[n] in Contents(cols);
    }
  }

  /** Equal hashes mean equal columns: nothing is written for them. */
  lemma SameHashSameColumns(cols: Columns, d: Desired)
    requires Proper(d) && NamedRight(cols)
    requires multiset(Contents(cols)) == multiset(d.columns)
    ensures Contents(cols) == SetOf(d.columns)
    ensures ColumnsAfter(cols, d.columns) == cols
  {
    ProperHash(d);
    FreshValues(d);
    forall c ensures c in Contents(cols) <==> c in SetOf(d.columns) {
      assert c in Contents(cols) <==> c in multiset(Contents(cols));
      assert c in SetOf(d.columns) <==> c in multiset(SetOf(d.columns));
    }
    SameContentsSameColumns(cols, Fresh(d.columns));
  }

  lemma TableStaysCoherent(tables: Tables, columns: AllColumns, desired: DesiredTables, k: TableKey)
    requires Coherent(tables, columns) && AllProper(desired) && (k in tables || k in desired)
    ensures HashIsCurrent(TablesAfter(tables, desired), AllColumnsAfter(columns, desired), k)
    ensures NamedRight(ColumnsOf(AllColumnsAfter(columns, desired), k))
  {
    var was := ColumnsOf(columns, k);
    if k in desired {
      ColumnsAfterAre(was, desired[k]);
      ProperHash(desired[k]);
      if k in tables && tables[k].active && tables[k].sourceHash == Some(HashOf(k, desired[k])) {
        assert HashIsCurrent(tables, columns, k);
        SameHashSameColumns(was, desired[k]);
      }
    } else {
      assert HashIsCurrent(tables, columns, k);
    }
  }

  /** A run keeps hashes and embeddings true of what is stored, through changes of
      columns, soft deletion and reactivation. */
  lemma RunStaysCoherent(tables: Tables, columns: AllColumns, desired: DesiredTables)
    requires Coherent(tables, columns) && AllProper(desired)
    ensures Coherent(TablesAfter(tables, desired), AllColumnsAfter(columns, desired))
  {
    var tables', columns' := TablesAfter(tables, desired), AllColumnsAfter(columns, desired);
    forall k | k in tables' ensures HashIsCurrent(tables', columns', k) {
      TableStaysCoherent(tables, columns, desired, k);
    }
    forall k ensures NamedRight(ColumnsOf(columns', k)) {
      assert NamedRight(ColumnsOf(columns, k));
      if k in desired { TableStaysCoherent(tables, columns, desired, k); }
    }
  }

  /** A table whose hash has not changed has no column changes either, so that a kept
      embedding still belongs to its columns. */
  lemma UnchangedTableKeepsColumns(tables: Tables, columns: AllColumns, desired: DesiredTables, k: TableKey)
    requires Coherent(tables, columns) && AllProper(desired) && k in desired && k in tables
    ensures tables[k].sourceHash == Some(HashOf(k, desired[k])) <==>
              && tables[k].description == desired[k].description
              && Contents(ColumnsOf(columns, k)) == SetOf(desired[k].columns)
    ensures tables[k].sourceHash == Some(HashOf(k, desired[k])) ==>
              AllColumnsAfter(columns, desired)[k] == ColumnsOf(columns, k)
  {
    var d := desired[k];
    ProperHash(d);
    assert HashIsCurrent(tables, columns, k) && NamedRight(ColumnsOf(columns, k));
    if tables[k].sourceHash == Some(HashOf(k, d)) {
      SameHashSameColumns(ColumnsOf(columns, k), d);
      ColumnsAfterAre(ColumnsOf(columns, k), d);
    }
  }

  /** The active tables are the desired ones, with their descriptions and columns. */
  lemma RunAgrees(tables: Tables, columns: AllColumns, desired: DesiredTables)
    requires Coherent(tables, columns) && AllProper(desired)
    ensures var tables', columns' := TablesAfter(tables, desired), AllColumnsAfter(columns, desired);
            && (forall k :: k in tables' && tables'[k].active <==> k in desired)
            && (forall k :: k in desired ==>
                  && tables'[k].description == desired[k].description && tables'[k].rowCount == desired[k].rowCount
                  && Contents(columns'[k]) == SetOf(desired[k].columns))
  {
    forall k | k in desired
      ensures TablesAfter(tables, desired)[k].description == desired[k].description
      ensures Contents(AllColumnsAfter(columns, desired)[k]) == SetOf(desired[k].columns)
    {
      ColumnsAfterAre(ColumnsOf(columns, k), desired[k]);
      if k in tables { UnchangedTableKeepsColumns(tables, columns, desired, k); }
    }
  }

  lemma ColumnsSettle(cols: Columns, wanted: map<string, ColumnContent>)
    ensures ColumnsFor(ColumnsFor(cols, wanted), wanted) == ColumnsFor(cols, wanted)
  {
  }

  lemma TablesSettle(tables: Tables, desired: DesiredTables)
    ensures TablesAfter(TablesAfter(tables, desired), desired) == TablesAfter(tables, desired)
  {
  }

  lemma AllColumnsSettle(columns: AllColumns, desired: DesiredTables)
    ensures AllColumnsAfter(AllColumnsAfter(columns, desired), desired) == AllColumnsAfter(columns, desired)
  {
    var columns' := AllColumnsAfter(columns, desired);
    forall k | k in desired ensures ColumnsAfter(ColumnsOf(columns', k), desired[k].columns) == columns'[k] {
      ColumnsSettle(ColumnsOf(columns, k), Fresh(desired[k].columns));
    }
  }

  // --------------------------------------------------------------------- glossary

  /** The name under which the glossary hash sees a row's mapping: that of a live
      table of the default schema. */
  function NameOf(mapped: Option<TableKey>, schema: string, live: set<TableKey>): Option<string> {
    if mapped.Some? && mapped.value.0 == schema && mapped.value in live then Some(mapped.value.1) else None
  }

  function FreshName(t: Term, schema: string, live: set<TableKey>): Option<string> {
    if t.mapsTo.Some? && (schema, t.mapsTo.value) in live then t.mapsTo else None
  }

  function Mapped(t: Term, schema: string, live: set<TableKey>): Option<TableKey> {
    if t.mapsTo.Some? && t.mapsTo.value != "" && (schema, t.mapsTo.value) in live
    then Some((schema, t.mapsTo.value))
    else None
  }

  function Entries(terms: seq<Term>): map<string, Term> {
    if terms == [] then map[] else Entries(terms[..|terms| - 1])[terms[|terms| - 1].term := terms[|terms| - 1]]
  }

  predicate TermCurrent(row: TermRow, t: Term, schema: string, live: set<TableKey>) {
    row.definition == t.definition && NameOf(row.mapped, schema, live) == FreshName(t, schema, live)
  }

  function TermAfter(glossary: Glossary, t: Term, name: string, schema: string, live: set<TableKey>): TermRow {
    if name in glossary && TermCurrent(glossary[name], t, schema, live) then glossary[name]
    else TermRow(t.definition, Mapped(t, schema, live), None)
  }

  function GlossaryAfter(glossary: Glossary, terms: seq<Term>, schema: string, live: set<TableKey>): Glossary {
    map name | name in Entries(terms) :: TermAfter(glossary, Entries(terms)[name], name, schema, live)
  }

  ghost predicate GlossaryCoherent(glossary: Glossary) {
    forall name :: name in glossary && glossary[name].embedding.Some? ==>
                     glossary[name].embedding == Some((glossary[name].definition, glossary[name].mapped))
  }

  lemma WrittenTermIsCurrent(t: Term, schema: string, live: set<TableKey>)
    requires forall k :: k in live ==> k.1 != ""
    ensures TermCurrent(TermRow(t.definition, Mapped(t, schema, live), None), t, schema, live)
  {
  }

  lemma GlossarySettles(glossary: Glossary, terms: seq<Term>, schema: string, live: set<TableKey>)
    requires forall k :: k in live ==> k.1 != ""
    ensures var after := GlossaryAfter(glossary, terms, schema, live);
            && GlossaryAfter(after, terms, schema, live) == after
            && (forall name :: name in after <==> name in Entries(terms))
            && (forall name :: name in after ==> TermCurrent(after[name], Entries(terms)[name], schema, live))
    ensures GlossaryCoherent(glossary) ==> GlossaryCoherent(GlossaryAfter(glossary, terms, schema, live))
  {
    var after := GlossaryAfter(glossary, terms, schema, live);
    forall name | name in after
      ensures TermCurrent(after[name], Entries(terms)[name], schema, live)
    {
      WrittenTermIsCurrent(Entries(terms)[name], schema, live);
    }
  }

  lemma {:induction false} LastTermCounts(terms: seq<Term>, i: nat)
    requires i < |terms| && forall j :: i < j < |terms| ==> terms[j].term != terms[i].term
    ensures terms[i].term in Entries(terms) && Entries(terms)[terms[i].term] == terms[i]
  {
    if i < |terms| - 1 { LastTermCounts(terms[..|terms| - 1], i); }
  }

  /** A term of the YAML, the last of its name, is stored with its definition, and mapped to a
      live table of the schema exactly when it is the one that the YAML says. */
  lemma GlossaryTells(glossary: Glossary, terms: seq<Term>, schema: string, live: set<TableKey>, i: nat, table: string)
    requires i < |terms| && forall j :: i < j < |terms| ==> terms[j].term != terms[i].term
    requires (forall k :: k in live ==> k.1 != "") && (schema, table) in live
    ensures var after := GlossaryAfter(glossary, terms, schema, live);
            && terms[i].term in after && after[terms[i].term].definition == terms[i].definition
            && (after[terms[i].term].mapped == Some((schema, table)) <==> terms[i].mapsTo == Some(table))
  {
    LastTermCounts(terms, i);
  }

  // ------------------------------------------------------------------------- runs

  datatype Snapshot = Snapshot(desired: DesiredTables, terms: seq<Term>, schema: string)

  datatype Stored = Stored(tables: Tables, columns: AllColumns, glossary: Glossary)

  function Ingested(s: Stored, snapshot: Snapshot): Stored {
    Stored(TablesAfter(s.tables, snapshot.desired), AllColumnsAfter(s.columns, snapshot.desired),
           GlossaryAfter(s.glossary, snapshot.terms, snapshot.schema, snapshot.desired.Keys))
  }

  function EmbeddedTable(s: Stored, k: TableKey): TableRow
    requires k in s.tables
  {
    if s.tables[k].embedding.Some? then s.tables[k]
    else s.tables[k].(embedding := Some(RowContent(k, s.tables[k], ColumnsOf(s.columns, k))))
  }

  function EmbeddedTerm(row: TermRow): TermRow {
    if row.embedding.Some? then row else row.(embedding := Some((row.definition, row.mapped)))
  }

  /** The later step that fills in the embeddings that are NULL. */
  function Embedded(s: Stored): Stored {
    Stored(map k | k in s.tables :: EmbeddedTable(s, k), s.columns,
           map name | name in s.glossary :: EmbeddedTerm(s.glossary[name]))
  }

  /** A human marks a table as reviewed. */
  function Reviewed(s: Stored, k: TableKey): Stored {
    if k in s.tables then s.(tables := s.tables[k := s.tables[k].(reviewed := true)]) else s
  }

  datatype Event = Ingest(snapshot: Snapshot) | Embed | Review(key: TableKey)

  function Next(s: Stored, e: Event): Stored {
    match e
    case Ingest(snapshot) => Ingested(s, snapshot)
    case Embed => Embedded(s)
    case Review(key) => Reviewed(s, key)
  }

  function Run(s: Stored, events: seq<Event>): Stored {
    if events == [] then s else Next(Run(s, events[..|events| - 1]), events[|events| - 1])
  }

  ghost predicate AllSnapshotsProper(events: seq<Event>) {
    forall e :: e in events && e.Ingest? ==> AllProper(e.snapshot.desired)
  }

  ghost predicate StoredCoherent(s: Stored) {
    Coherent(s.tables, s.columns) && GlossaryCoherent(s.glossary)
  }

  /** The embedding step leaves no row without one, and each is of what is stored. */
  lemma EmbedStaysCoherent(s: Stored)
    requires StoredCoherent(s)
    ensures var t := Embedded(s);
            && StoredCoherent(t) && t.tables.Keys == s.tables.Keys && t.glossary.Keys == s.glossary.Keys
            && (forall k :: k in t.tables ==> t.tables[k].embedding.Some?)
            && (forall name :: name in t.glossary ==> t.glossary[name].embedding.Some?)
  {
  }

  /** A table that a human has reviewed stays reviewed exactly if the run finds it active and
      with the same description and columns, or does not find it at all. */
  lemma ReviewStandsIff(s: Stored, desired: DesiredTables, k: TableKey)
    requires StoredCoherent(s) && AllProper(desired) && k in s.tables
    ensures var t := TablesAfter(Reviewed(s, k).tables, desired);
            t[k].reviewed <==>
            k in desired ==>
              && s.tables[k].active && s.tables[k].description == desired[k].description
              && Contents(ColumnsOf(s.columns, k)) == SetOf(desired[k].columns)
  {
    if k in desired { UnchangedTableKeepsColumns(s.tables, s.columns, desired, k); }
  }

  lemma ReviewStaysCoherent(s: Stored, k: TableKey)
    requires StoredCoherent(s)
    ensures StoredCoherent(Reviewed(s, k))
  {
  }

  /** Over any run of ingestions, embedding steps and reviews, every stored hash is
      that of the stored rows, and every embedding was computed from them. */
  lemma {:induction false} AlwaysCoherent(s: Stored, events: seq<Event>)
    requires StoredCoherent(s) && AllSnapshotsProper(events)
    ensures StoredCoherent(Run(s, events))
  {
    if events != [] {
      var init, e := events[..|events| - 1], events[|events| - 1];
      assert e in events && forall x :: x in init ==> x in events;
      AlwaysCoherent(s, init);
      var mid := Run(s, init);
      match e
      case Ingest(snapshot) =>
        RunStaysCoherent(mid.tables, mid.columns, snapshot.desired);
        GlossarySettles(mid.glossary, snapshot.terms, snapshot.schema, snapshot.desired.Keys);
      case Embed => EmbedStaysCoherent(mid);
      case Review(key) => ReviewStaysCoherent(mid, key);
    }
  }

  /** A second ingestion of the same snapshot finds everything as it should be. */
  lemma IngestionConverges(s: Stored, snapshot: Snapshot)
    requires AllProper(snapshot.desired)
    ensures var t := Ingested(s, snapshot); Ingested(t, snapshot) == t
  {
    TablesSettle(s.tables, snapshot.desired);
    AllColumnsSettle(s.columns, snapshot.desired);
    GlossarySettles(s.glossary, snapshot.terms, snapshot.schema, snapshot.desired.Keys);
  }

  /** Embedding in between does not disturb that: no embedding is cleared again. */
  lemma EmbeddingsAreKept(s: Stored, snapshot: Snapshot)
    requires AllProper(snapshot.desired)
    ensures var t := Embedded(Ingested(s, snapshot)); Ingested(t, snapshot) == t
  {
    var u := Ingested(s, snapshot);
    IngestionConverges(s, snapshot);
    GlossarySettles(s.glossary, snapshot.terms, snapshot.schema, snapshot.desired.Keys);
    TablesEmbedded(s, snapshot);
    GlossaryEmbedded(u.glossary, snapshot);
  }

  lemma TablesEmbedded(s: Stored, snapshot: Snapshot)
    ensures var t := Embedded(Ingested(s, snapshot)).tables; TablesAfter(t, snapshot.desired) == t
  {
    var u := Ingested(s, snapshot);
    forall k | k in u.tables ensures IsSettled(EmbeddedTable(u, k), snapshot.desired, k) {
      SettledRow(s.tables, snapshot.desired, k);
    }
    SettledTablesStay(Embedded(u).tables, snapshot.desired);
  }

  lemma SettledTablesStay(tables: Tables, desired: DesiredTables)
    requires desired.Keys <= tables.Keys && forall k :: k in tables ==> IsSettled(tables[k], desired, k)
    ensures TablesAfter(tables, desired) == tables
  {
    forall k | k in tables ensures TableAfter(tables, desired, k) == tables[k] {
      SettledRowStays(tables, desired, k);
    }
  }

  predicate IsSettled(row: TableRow, desired: DesiredTables, k: TableKey) {
    if k in desired
    then row.active && row.sourceHash == Some(HashOf(k, desired[k])) && row.rowCount == desired[k].rowCount
    else !row.active
  }

  lemma SettledRowStays(tables: Tables, desired: DesiredTables, k: TableKey)
    requires k in tables && IsSettled(tables[k], desired, k)
    ensures TableAfter(tables, desired, k) == tables[k]
  {
  }

  /** What the sync of a row leaves behind. */
  lemma SettledRow(tables: Tables, desired: DesiredTables, k: TableKey)
    requires k in tables || k in desired
    ensures IsSettled(TableAfter(tables, desired, k), desired, k)
  {
  }

  lemma GlossaryEmbedded(glossary: Glossary, snapshot: Snapshot)
    requires GlossaryAfter(glossary, snapshot.terms, snapshot.schema, snapshot.desired.Keys) == glossary
    requires forall name :: name in glossary ==>
               TermCurrent(glossary[name], Entries(snapshot.terms)[name], snapshot.schema, snapshot.desired.Keys)
    ensures var embedded := map name | name in glossary :: EmbeddedTerm(glossary[name]);
            GlossaryAfter(embedded, snapshot.terms, snapshot.schema, snapshot.desired.Keys) == embedded
  {
  }

  /** When everything was embedded, the rows that an ingestion leaves without an
      embedding are exactly the created and the updated ones. */
  lemma NullEmbeddingsAreTheChangedRows(tables: Tables, desired: DesiredTables, d: DiffResult<TableKey>)
    requires forall k :: k in tables ==> tables[k].embedding.Some?
    requires Classifies(d, States(tables), Hashes(desired))
    ensures forall k :: k in TablesAfter(tables, desired) ==>
              (TablesAfter(tables, desired)[k].embedding.None? <==> k in d.created + d.updated)
  {
  }

  function States(tables: Tables): map<TableKey, RowState<Option<TableContent>>> {
    map k | k in tables :: RowState(tables[k].sourceHash, tables[k].active)
  }

  function Hashes(desired: DesiredTables): map<TableKey, Option<TableContent>> {
    map k | k in desired :: Some(HashOf(k, desired[k]))
  }
}
