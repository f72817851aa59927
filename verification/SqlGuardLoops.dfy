/**
 The guard as it runs: loops that fill dictionaries and sets while they go through
 the nodes that were found, each proved against its specification in `SqlGuard`.
 */
module SqlGuardLoops {
  import opened Wrappers
  import opened SqlTree
  import opened SqlGuard
  import opened SqlGuardProofs

  lemma OutputsAppend(ns: seq<Node>, last: Node)
    requires forall n :: n in ns ==> n.Cte? || n.Subquery?
    requires last.Cte? || last.Subquery?
    ensures OutputsByAlias(ns + [last]) ==
            if last.alias == "" then OutputsByAlias(ns)
            else OutputsByAlias(ns)[Lower(last.alias) := SelectOutputNames(last.body)]
  {
    assert (ns + [last])[..|ns|] == ns;
  }

  /** The loop over CTEs or subqueries: the last one with an alias decides. */
  method CollectColumns(found: seq<Node>) returns (result: map<string, set<string>>)
    requires forall n :: n in found ==> n.Cte? || n.Subquery?
    ensures result == OutputsByAlias(found)
  {
    result := map[];
    ghost var done: seq<Node> := [];
    for i := 0 to |found|
      invariant done == found[..i] && forall n :: n in done ==> n.Cte? || n.Subquery?
      invariant result == OutputsByAlias(done)
    {
      var node := found[i];
      OutputsAppend(done, node);
      done := done + [node];
      if node.alias != "" {
        result := result[Lower(node.alias) := SelectOutputNames(node.body)];
      }
    }
    assert done == found;
  }

  method CollectCteColumns(root: Node) returns (result: map<string, set<string>>)
    ensures result == OutputsByAlias(FindAll(root, IsCte))
  {
    var found := FindAll(root, IsCte);
    assert forall n :: n in found ==> IsCte(n);
    result := CollectColumns(found);
  }

  method CollectSubqueryColumns(root: Node) returns (result: map<string, set<string>>)
    ensures result == OutputsByAlias(FindAll(root, IsSubquery))
  {
    var found := FindAll(root, IsSubquery);
    assert forall n :: n in found ==> IsSubquery(n);
    result := CollectColumns(found);
  }

  method CollectOutputAliases(selects: seq<Node>) returns (aliases: set<string>)
    requires forall s :: s in selects ==> s.Select?
    ensures aliases == OutputAliases(selects)
  {
    aliases := {};
    for i := 0 to |selects|
      invariant aliases == OutputAliases(selects[..i])
    {
      var own := SelectAliases(selects[i].projections);
      AliasesAppend(selects[..i], selects[i]);
      assert selects[..i + 1] == selects[..i] + [selects[i]];
      aliases := aliases + own;
    }
    assert selects[..|selects|] == selects;
  }

  method SelectAliases(selected: seq<Node>) returns (aliases: set<string>)
    ensures aliases == AliasesOf(selected)
  {
    aliases := {};
    for i := 0 to |selected|
      invariant aliases == AliasesOf(selected[..i])
    {
      assert selected[..i + 1] == selected[..i] + [selected[i]];
      if Alias(selected[i]) != "" {
        aliases := aliases + {Lower(Alias(selected[i]))};
      }
    }
    assert selected[..|selected|] == selected;
  }

  function AliasesOf(selected: seq<Node>): set<string> {
    set p | p in selected && Alias(p) != "" :: Lower(Alias(p))
  }

  lemma AliasesAppend(selects: seq<Node>, last: Node)
    requires last.Select? && forall s :: s in selects ==> s.Select?
    ensures OutputAliases(selects + [last]) == OutputAliases(selects) + AliasesOf(last.projections)
  {
  }

  lemma IndexAppend(tables: seq<Node>, t: Node, derived: set<string>, allow: Allowlist, schema: string)
    requires t.Table? && forall u :: u in tables ==> u.Table?
    ensures IndexTables(tables + [t], derived, allow, schema) ==
            var before := IndexTables(tables, derived, allow, schema);
            if before.Err? then before else AddTable(before.value, t, derived, allow, schema)
  {
    assert (tables + [t])[..|tables|] == tables;
  }

  /** The loop over the tables. */
  method IndexLoop(tables: seq<Node>, derived: set<string>, allow: Allowlist, schema: string)
    returns (r: Result<Index, ErrorCode>)
    requires forall t :: t in tables ==> t.Table?
    ensures r == IndexTables(tables, derived, allow, schema)
  {
    var aliasToTable: map<string, string> := map[];
    var physical: set<string> := {};
    ghost var done: seq<Node> := [];
    for i := 0 to |tables|
      invariant done == tables[..i] && forall t :: t in done ==> t.Table?
      invariant IndexTables(done, derived, allow, schema) == Ok(Index(aliasToTable, physical))
    {
      var table := tables[i];
      IndexAppend(done, table, derived, allow, schema);
      done := done + [table];
      assert done == tables[..i + 1];
      var name := Lower(table.name);
      if name in derived { continue; }
      var schemaName := if table.db != "" then Lower(table.db) else schema;
      if schemaName != schema || name !in allow {
        FailsLater(tables, i + 1, derived, allow, schema);
        return Err(UnknownTable);
      }
      physical := physical + {name};
      var alias := Lower(AliasOrName(table));
      if alias in aliasToTable && aliasToTable[alias] != name {
        FailsLater(tables, i + 1, derived, allow, schema);
        return Err(UnknownTable);
      }
      aliasToTable := aliasToTable[alias := name];
      if name !in aliasToTable { aliasToTable := aliasToTable[name := name]; }
    }
    assert done == tables;
    r := Ok(Index(aliasToTable, physical));
  }

  method BuildReferenceIndex(root: Node, allow: Allowlist, schema: string) returns (r: Result<Scope, ErrorCode>)
    ensures r == match IndexTables(FindAll(root, IsTable), Derived(root).Keys, allow, schema)
                 case Err(code) => Err(code)
                 case Ok(index) => Ok(ScopeOf(root, index))
  {
    var cteColumns := CollectCteColumns(root);
    var subqueryColumns := CollectSubqueryColumns(root);
    var derived := cteColumns + subqueryColumns;
    var index := IndexLoop(FindAll(root, IsTable), derived.Keys, allow, schema);
    if index.Err? { return Err(index.error); }
    var outputs := CollectOutputAliases(FindAll(root, IsSelect));
    r := Ok(Scope(index.value, derived, outputs));
  }

  /** The first failure is the answer: later tables are not looked at. */
  lemma {:induction false} FailsLater(tables: seq<Node>, i: nat, derived: set<string>, allow: Allowlist, schema: string)
    requires i <= |tables| && forall t :: t in tables ==> t.Table?
    requires IndexTables(tables[..i], derived, allow, schema).Err?
    ensures IndexTables(tables, derived, allow, schema) == IndexTables(tables[..i], derived, allow, schema)
  {
    if i == |tables| {
      assert tables[..i] == tables;
    } else {
      var front := tables[..|tables| - 1];
      assert front[..i] == tables[..i];
      FailsLater(front, i, derived, allow, schema);
    }
  }

  lemma {:induction false} ColumnFailsLater(columns: seq<Node>, i: nat, allow: Allowlist, scope: Scope, schema: string)
    requires i <= |columns| && forall c :: c in columns ==> c.Column?
    requires ColumnsUsed(columns[..i], allow, scope, schema).Err?
    ensures ColumnsUsed(columns, allow, scope, schema) == ColumnsUsed(columns[..i], allow, scope, schema)
  {
    if i == |columns| {
      assert columns[..i] == columns;
    } else {
      var front := columns[..|columns| - 1];
      assert front[..i] == columns[..i];
      ColumnFailsLater(front, i, allow, scope, schema);
    }
  }

  /** The tables used that have the column, in the order of the set's iteration. */
  method MatchingTables(column: string, physical: set<string>, allow: Allowlist) returns (matches: seq<string>)
    ensures forall t :: t in matches <==> t in Owners(column, physical, allow)
    ensures |matches| == |Owners(column, physical, allow)|
  {
    matches := [];
    var todo := physical;
    while todo != {}
      invariant todo <= physical
      invariant forall t :: t in matches <==> t in Owners(column, physical - todo, allow)
      invariant |matches| == |Owners(column, physical - todo, allow)|
      decreases todo
    {
      var t :| t in todo;
      var owned := Allowed(allow, t, column);
      assert Owners(column, physical - (todo - {t}), allow) ==
             Owners(column, physical - todo, allow) + (if owned then {t} else {});
      if owned { matches := matches + [t]; }
      todo := todo - {t};
    }
    assert physical - {} == physical;
  }

  lemma ColumnsAppend(columns: seq<Node>, c: Node, allow: Allowlist, scope: Scope, schema: string)
    requires c.Column? && forall d :: d in columns ==> d.Column?
    ensures ColumnsUsed(columns + [c], allow, scope, schema) ==
            var before := ColumnsUsed(columns, allow, scope, schema);
            if before.Err? then before
            else
              match CheckColumn(c, allow, scope, schema)
              case Err(code) => Err(code)
              case Ok(None) => before
              case Ok(Some(t)) => Ok(before.value + {(t, Lower(c.name))})
  {
    assert (columns + [c])[..|columns|] == columns;
  }

  method ValidateColumns(columns: seq<Node>, allow: Allowlist, scope: Scope, schema: string)
    returns (r: Result<set<(string, string)>, ErrorCode>)
    requires forall c :: c in columns ==> c.Column?
    ensures r == ColumnsUsed(columns, allow, scope, schema)
  {
    var used: set<(string, string)> := {};
    ghost var done: seq<Node> := [];
    for i := 0 to |columns|
      invariant done == columns[..i] && forall c :: c in done ==> c.Column?
      invariant ColumnsUsed(done, allow, scope, schema) == Ok(used)
    {
      ColumnsAppend(done, columns[i], allow, scope, schema);
      done := done + [columns[i]];
      assert done == columns[..i + 1];
      var verdict := ValidateColumn(columns[i], allow, scope, schema);
      if verdict.Err? {
        ColumnFailsLater(columns, i + 1, allow, scope, schema);
        return Err(verdict.error);
      }
      if verdict.value.Some? {
        used := used + {(verdict.value.value, Lower(columns[i].name))};
      }
    }
    assert done == columns;
    r := Ok(used);
  }

  /** The body of the column loop. */
  method ValidateColumn(column: Node, allow: Allowlist, scope: Scope, schema: string)
    returns (r: Result<Option<string>, ErrorCode>)
    requires column.Column?
    ensures r == CheckColumn(column, allow, scope, schema)
  {
    if column.star { return Ok(None); }
    var name, qualifier := Lower(column.name), Lower(column.table);
    var schemaName := if column.db != "" then Lower(column.db) else schema;
    if schemaName != schema { return Err(UnknownColumn); }
    if column.table != "" {
      if qualifier in scope.index.aliasToTable {
        var table := scope.index.aliasToTable[qualifier];
        if !Allowed(allow, table, name) { return Err(UnknownColumn); }
        return Ok(Some(table));
      }
      if qualifier in scope.derived && (scope.derived[qualifier] == {} || name in scope.derived[qualifier]) {
        return Ok(None);
      }
      return Err(UnknownColumn);
    }
    if name in scope.outputs { return Ok(None); }
    var matches := MatchingTables(name, scope.index.physical, allow);
    SingleOwner(Owners(name, scope.index.physical, allow));
    if |matches| == 1 {
      assert matches[0] in matches;
      return Ok(Some(matches[0]));
    }
    if matches == [] {
      if exists d :: d in scope.derived && name in scope.derived[d] { return Ok(None); }
      return Err(UnknownColumn);
    }
    return Err(AmbiguousColumn);
  }

  method GuardSql(parsed: Parsed, allow: Allowlist, limit: int, schema: string)
    returns (r: Result<GuardResult, ErrorCode>)
    ensures r == Guard(parsed, allow, limit, schema)
  {
    var admitted := Admit(parsed, limit);
    if admitted.Err? { return Err(admitted.error); }
    var limited := admitted.value;
    var scope := BuildReferenceIndex(limited, allow, schema);
    if scope.Err? { return Err(scope.error); }
    var used := ValidateColumns(FindAll(limited, IsColumn), allow, scope.value, schema);
    if used.Err? { return Err(used.error); }
    r := Ok(GuardResult(limited, scope.value.index.physical, used.value));
  }
}
