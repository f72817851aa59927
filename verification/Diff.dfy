/**
 Change detection by content hash (app/sql_agent/ingestion/diff.py). A hash is
 represented by the content it is taken of, so that hashes are equal exactly when
 contents are; the hash of a table is taken of a multiset, since the column hashes are
 sorted first.
 */
module Diff {
  import opened Wrappers

  type TableKey = (string, string)  // schema and name

  datatype ColumnContent = ColumnContent(name: string, dataType: string, nullable: bool, primary: bool, foreign: bool,
                                         description: Option<string>, sensitive: bool, samples: Option<seq<string>>)

  datatype TableContent = TableContent(key: TableKey, description: Option<string>, columns: multiset<ColumnContent>)

  datatype RowState<H> = RowState(hash: H, active: bool)

  datatype DiffResult<K> = DiffResult(created: set<K>, updated: set<K>, same: set<K>, removed: set<K>)

  /** The counts that a report carries. */
  datatype Counts = Counts(created: nat, updated: nat, same: nat, removed: nat) {
    predicate Changed() { created > 0 || updated > 0 || removed > 0 }

    function Plus(other: Counts): Counts {
      Counts(created + other.created, updated + other.updated, same + other.same, removed + other.removed)
    }
  }

  function CountsOf<K>(d: DiffResult<K>): Counts {
    Counts(|d.created|, |d.updated|, |d.same|, |d.removed|)
  }

  predicate IsCurrent<H(==)>(state: RowState<H>, hash: H) {
    state.active && state.hash == hash
  }

  /** What the four classes mean. */
  ghost predicate Classifies<K(!new), H>(d: DiffResult<K>, existing: map<K, RowState<H>>, wanted: map<K, H>) {
    && d.created == wanted.Keys - existing.Keys
    && (forall k :: k in d.updated <==> k in wanted && k in existing && !IsCurrent(existing[k], wanted[k]))
    && (forall k :: k in d.same <==>
                      k in existing && if k in wanted then IsCurrent(existing[k], wanted[k]) else !existing[k].active)
    && (forall k :: k in d.removed <==> k in existing && k !in wanted && existing[k].active)
  }

  /** The one result that classifies. */
  ghost function TheDiff<K(!new), H>(existing: map<K, RowState<H>>, wanted: map<K, H>): (d: DiffResult<K>)
    ensures Classifies(d, existing, wanted)
  {
    DiffResult(wanted.Keys - existing.Keys,
               set k | k in wanted && k in existing && !IsCurrent(existing[k], wanted[k]),
               set k | k in existing && if k in wanted then IsCurrent(existing[k], wanted[k]) else !existing[k].active,
               set k | k in existing && k !in wanted && existing[k].active)
  }

  lemma SameClasses<K(!new), H>(d: DiffResult<K>, e: DiffResult<K>, existing: map<K, RowState<H>>, wanted: map<K, H>)
    requires Classifies(d, existing, wanted) && Classifies(e, existing, wanted)
    ensures d == e
  {
  }

  method DiffRows<K(==,!new), H(==)>(existing: map<K, RowState<H>>, wanted: map<K, H>) returns (d: DiffResult<K>)
    ensures d == TheDiff(existing, wanted)
  {
    var created, updated, same, removed: set<K> := {}, {}, {}, {};
    var todo := wanted.Keys;
    while todo != {}
      invariant todo <= wanted.Keys
      invariant created == wanted.Keys - todo - existing.Keys
      invariant forall k :: k in updated <==>
                  k in wanted && k !in todo && k in existing && !IsCurrent(existing[k], wanted[k])
      invariant forall k :: k in same <==>
                  k in wanted && k !in todo && k in existing && IsCurrent(existing[k], wanted[k])
      decreases todo
    {
      var key :| key in todo;
      todo := todo - {key};
      if key !in existing { created := created + {key}; }
      else if IsCurrent(existing[key], wanted[key]) { same := same + {key}; }
      else { updated := updated + {key}; }
    }
    ghost var current := same;
    todo := existing.Keys;
    while todo != {}
      invariant todo <= existing.Keys
      invariant forall k :: k in removed <==> k in existing && k !in todo && k !in wanted && existing[k].active
      invariant forall k :: k in same <==>
                  k in current || (k in existing && k !in todo && k !in wanted && !existing[k].active)
      decreases todo
    {
      var key :| key in todo;
      todo := todo - {key};
      if key in wanted { continue; }
      if existing[key].active { removed := removed + {key}; } else { same := same + {key}; }
    }
    d := DiffResult(created, updated, same, removed);
    SameClasses(d, TheDiff(existing, wanted), existing, wanted);
  }

  lemma OneClass<K(!new), H>(d: DiffResult<K>, existing: map<K, RowState<H>>, wanted: map<K, H>, k: K)
    requires Classifies(d, existing, wanted)
    ensures k in existing || k in wanted <==> k in d.created || k in d.updated || k in d.same || k in d.removed
    ensures k in d.created ==> k !in d.updated && k !in d.same && k !in d.removed
    ensures k in d.updated ==> k !in d.same && k !in d.removed
    ensures k in d.same ==> k !in d.removed
  {
  }

  lemma ClassesCover<K(!new), H>(d: DiffResult<K>, existing: map<K, RowState<H>>, wanted: map<K, H>, all: set<K>)
    requires Classifies(d, existing, wanted)
    requires forall k :: k in all <==> k in existing || k in wanted
    ensures all == d.created + d.updated + d.same + d.removed
    ensures d.created !! d.updated !! d.same !! d.removed
  {
  }

  /** Every key of either side is in exactly one class. */
  lemma DiffPartitions<K(!new), H>(d: DiffResult<K>, existing: map<K, RowState<H>>, wanted: map<K, H>)
    requires Classifies(d, existing, wanted)
    ensures d.created + d.updated + d.same + d.removed == existing.Keys + wanted.Keys
    ensures d.created !! d.updated !! d.same !! d.removed
    ensures |d.created| + |d.updated| + |d.same| + |d.removed| == |existing.Keys + wanted.Keys|
  {
    ClassesCover(d, existing, wanted, existing.Keys + wanted.Keys);
    DisjointSizes(d.created, d.updated, d.same, d.removed);
  }

  lemma ClassesAre<K(!new), H>(d: DiffResult<K>, existing: map<K, RowState<H>>, wanted: map<K, H>)
    requires Classifies(d, existing, wanted)
    ensures d.updated == set k | k in wanted && k in existing && existing[k] != RowState(wanted[k], true)
    ensures d.removed == set k | k in existing && k !in wanted && existing[k].active
  {
  }

  /** What a report counts: the keys that are new, those there with another content or only as
      removed, and those that are to go; the rest needs nothing. */
  lemma CountsTell<K(!new), H>(d: DiffResult<K>, existing: map<K, RowState<H>>, wanted: map<K, H>)
    requires Classifies(d, existing, wanted)
    ensures CountsOf(d).created == |wanted.Keys - existing.Keys|
    ensures CountsOf(d).updated == |set k | k in wanted && k in existing && existing[k] != RowState(wanted[k], true)|
    ensures CountsOf(d).removed == |set k | k in existing && k !in wanted && existing[k].active|
    ensures CountsOf(d).same ==
            |existing.Keys + wanted.Keys| - CountsOf(d).created - CountsOf(d).updated - CountsOf(d).removed
  {
    ClassesAre(d, existing, wanted);
    DiffPartitions(d, existing, wanted);
  }

  lemma DisjointSizes<K>(a: set<K>, b: set<K>, c: set<K>, d: set<K>)
    requires a !! b !! c !! d
    ensures |a + b + c + d| == |a| + |b| + |c| + |d|
  {
  }

  /** The active rows are the wanted ones, with equal hashes. */
  ghost predicate UpToDate<K(!new), H>(existing: map<K, RowState<H>>, wanted: map<K, H>) {
    && (forall k :: k in wanted <==> k in existing && existing[k].active)
    && (forall k :: k in wanted && k in existing ==> existing[k].hash == wanted[k])
  }

  /** A diff reports no change exactly when there is none to make. */
  lemma NoChangeIff<K(!new), H>(d: DiffResult<K>, existing: map<K, RowState<H>>, wanted: map<K, H>)
    requires Classifies(d, existing, wanted)
    ensures !CountsOf(d).Changed() <==> UpToDate(existing, wanted)
  {
  }
}
