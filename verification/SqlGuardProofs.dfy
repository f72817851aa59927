/**
 What acceptance by the guard means for the whole tree, and that guarding the tree
 the guard returned changes nothing.
 */
module SqlGuardProofs {
  import opened Wrappers
  import opened SqlTree
  import opened SqlGuard

  // ------------------------------------------------------------------------ names

  /** `low` is `name` with every ASCII capital made small. */
  ghost predicate Lowers(name: string, low: string) {
    && |low| == |name|
    && forall i :: 0 <= i < |name| ==>
         if 'A' <= name[i] <= 'Z' then low[i] as int == name[i] as int + 32 else low[i] == name[i]
  }

  lemma LowersIff(name: string, low: string)
    ensures Lowers(name, low) <==> low == Lower(name)
  {
  }

  /** A reference that names no schema, or this one in whatever case. */
  ghost predicate InSchema(db: string, schema: string) {
    db == "" || Lowers(db, schema)
  }

  lemma InSchemaIff(db: string, schema: string)
    ensures InSchema(db, schema) <==> SchemaOf(db, schema) == schema
  {
    LowersIff(db, schema);
  }

  /** A name that reads, in small letters, as a listed one or begins with `lo_`. */
  ghost predicate IsListed(name: string) {
    exists low: string :: Lowers(name, low) && (low in DANGEROUS_FUNCTIONS || "lo_" <= low)
  }

  /** The node calls a function of a listed name, be it one that the parser knows or not. */
  ghost predicate CallsListed(n: Node) {
    match n
    case Func(sqlName, _, _) => IsListed(sqlName)
    case Anonymous(name, _) => IsListed(name)
    case _ => false
  }

  lemma ListedIff(n: Node)
    ensures CallsListed(n) <==> IsDangerous(n)
  {
    if n.Func? || n.Anonymous? {
      var name := if n.Func? then n.sqlName else n.name;
      LowersIff(name, Lower(name));
      forall low: string ensures Lowers(name, low) <==> low == Lower(name) { LowersIff(name, low); }
    }
  }

  // ------------------------------------------------------------------- names put out

  /** The node carries an alias that reads like this in small letters. */
  ghost predicate AliasedAs(p: Node, x: string) {
    match p
    case Aliased(alias, _) => alias != "" && Lowers(alias, x)
    case Table(_, _, alias, _) => alias != "" && Lowers(alias, x)
    case Subquery(alias, _, _) => alias != "" && Lowers(alias, x)
    case Cte(alias, _) => alias != "" && Lowers(alias, x)
    case _ => false
  }

  /** An item of a select list puts out its alias, or else the name it has by itself. */
  ghost predicate PutsOut(p: Node, x: string) {
    match p
    case Column(name, _, _, star) => if star then x == "*" else x != "" && Lowers(name, x)
    case Table(name, _, "", _) => x != "" && Lowers(name, x)
    case Func(_, text, _) => x != "" && Lowers(text, x)
    case Anonymous(name, _) => x != "" && Lowers(name, x)
    case IntLiteral(value) => x != "" && Lowers(Decimal(value), x)
    case Other(_, text, _) => x != "" && Lowers(text, x)
    case _ => AliasedAs(p, x)
  }

  lemma PutsOutIff(p: Node, x: string)
    ensures AliasedAs(p, x) <==> Alias(p) != "" && Lower(Alias(p)) == x
    ensures PutsOut(p, x) <==> AliasOrName(p) != "" && Lower(AliasOrName(p)) == x
  {
    LowersIff(Alias(p), x);
    LowersIff(AliasOrName(p), x);
    assert Lower("*") == "*";
  }

  /** The output names of a CTE or subquery, item by item of its select list. */
  lemma OutputNamesIff(n: Node, x: string)
    ensures x in SelectOutputNames(n) <==> n.Select? && exists p :: p in n.projections && PutsOut(p, x)
  {
    if n.Select? {
      forall p | p in n.projections
        ensures PutsOut(p, x) <==> AliasOrName(p) != "" && Lower(AliasOrName(p)) == x
      {
        PutsOutIff(p, x);
      }
    }
  }

  /** The item of some select list, at any depth, carries this alias. */
  ghost predicate IsOutputAlias(root: Node, s: Node, p: Node, x: string) {
    Within(s, root) && s.Select? && p in s.projections && AliasedAs(p, x)
  }

  /** The explicit aliases that an unqualified column may mean. */
  lemma OutputAliasesIff(root: Node, x: string)
    ensures x in OutputAliases(FindAll(root, IsSelect)) <==> exists s, p :: IsOutputAlias(root, s, p, x)
  {
    forall s ensures s in FindAll(root, IsSelect) <==> Within(s, root) && s.Select? { FindsExactly(s, root, IsSelect); }
    forall p ensures AliasedAs(p, x) <==> Alias(p) != "" && Lower(Alias(p)) == x { PutsOutIff(p, x); }
    if x in OutputAliases(FindAll(root, IsSelect)) {
      var s, p :| s in FindAll(root, IsSelect) && p in s.projections && Alias(p) != "" && Lower(Alias(p)) == x;
      assert IsOutputAlias(root, s, p, x);
    }
    if s, p :| IsOutputAlias(root, s, p, x) {
      assert s in FindAll(root, IsSelect);
    }
  }

  // ------------------------------------------------------------------- table references

  /** The first table in walk order that takes the name `a`, by alias or by its own
      name, and what `a` then stands for. */
  function FirstClaim(tables: seq<Node>, a: string, derived: set<string>): Option<string>
    requires forall t :: t in tables ==> t.Table?
  {
    if tables == [] then None
    else
      var t := tables[0];
      if Lower(t.name) !in derived && Lower(AliasOrName(t)) == a then Some(Lower(t.name))
      else if Lower(t.name) !in derived && Lower(t.name) == a then Some(a)
      else FirstClaim(tables[1..], a, derived)
  }

  lemma {:induction false} FirstClaimAppend(tables: seq<Node>, t: Node, a: string, derived: set<string>)
    requires t.Table? && forall u :: u in tables ==> u.Table?
    ensures FirstClaim(tables + [t], a, derived) ==
            if FirstClaim(tables, a, derived).Some? then FirstClaim(tables, a, derived)
            else FirstClaim([t], a, derived)
  {
    if tables == [] {
      assert tables + [t] == [t];
    } else {
      assert (tables + [t])[1..] == tables[1..] + [t];
      FirstClaimAppend(tables[1..], t, a, derived);
    }
  }

  function MapGet(m: map<string, string>, a: string): Option<string> {
    if a in m then Some(m[a]) else None
  }

  /** A table that is no CTE or subquery must be in the schema and the allowlist,
      and its alias must not have been claimed for another table before it. */
  ghost predicate TableFits(tables: seq<Node>, i: nat, derived: set<string>, allow: Allowlist, schema: string)
    requires i < |tables| && forall t :: t in tables ==> t.Table?
  {
    var t := tables[i];
    var name := Lower(t.name);
    name in derived ||
    (&& InSchema(t.db, schema)
     && name in allow
     && FirstClaim(tables[..i], Lower(AliasOrName(t)), derived) in {None, Some(name)})
  }

  ghost predicate IndexMatches(ix: Index, tables: seq<Node>, derived: set<string>)
    requires forall t :: t in tables ==> t.Table?
  {
    && (forall a :: MapGet(ix.aliasToTable, a) == FirstClaim(tables, a, derived))
    && (forall x :: x in ix.physical <==> x !in derived && exists t :: t in tables && Lower(t.name) == x)
  }

  /** Each name stands for its first claim, and the physical tables are exactly
      those that are not derived. */
  lemma {:induction false} IndexIsFirstClaims(tables: seq<Node>, derived: set<string>, allow: Allowlist, schema: string)
    requires forall t :: t in tables ==> t.Table?
    requires IndexTables(tables, derived, allow, schema).Ok?
    ensures IndexMatches(IndexTables(tables, derived, allow, schema).value, tables, derived)
  {
    if tables != [] {
      var last := |tables| - 1;
      var front, t := tables[..last], tables[last];
      IndexIsFirstClaims(front, derived, allow, schema);
      AddedMatches(IndexTables(front, derived, allow, schema).value, front, t, derived, allow, schema);
      assert tables == front + [t];
    }
  }

  /** The index is built exactly when every table fits. */
  lemma {:induction false} IndexBuiltIff(tables: seq<Node>, derived: set<string>, allow: Allowlist, schema: string)
    requires forall t :: t in tables ==> t.Table?
    ensures IndexTables(tables, derived, allow, schema).Ok? <==>
            forall i :: 0 <= i < |tables| ==> TableFits(tables, i, derived, allow, schema)
  {
    if tables != [] {
      var last := |tables| - 1;
      var front := tables[..last];
      IndexBuiltIff(front, derived, allow, schema);
      forall i | 0 <= i < last
        ensures TableFits(front, i, derived, allow, schema) == TableFits(tables, i, derived, allow, schema)
      {
        assert front[..i] == tables[..i];
      }
      var before := IndexTables(front, derived, allow, schema);
      if before.Ok? {
        IndexIsFirstClaims(front, derived, allow, schema);
        AddFits(before.value, tables, derived, allow, schema);
      }
    }
  }

  lemma AddFits(ix: Index, tables: seq<Node>, derived: set<string>, allow: Allowlist, schema: string)
    requires tables != [] && forall t :: t in tables ==> t.Table?
    requires IndexMatches(ix, tables[..|tables| - 1], derived)
    ensures AddTable(ix, tables[|tables| - 1], derived, allow, schema).Ok? <==>
            TableFits(tables, |tables| - 1, derived, allow, schema)
  {
    InSchemaIff(tables[|tables| - 1].db, schema);
  }

  lemma AddedMatches(ix: Index, front: seq<Node>, t: Node, derived: set<string>, allow: Allowlist, schema: string)
    requires t.Table? && forall u :: u in front ==> u.Table?
    requires IndexMatches(ix, front, derived)
    requires AddTable(ix, t, derived, allow, schema).Ok?
    ensures IndexMatches(AddTable(ix, t, derived, allow, schema).value, front + [t], derived)
  {
    var after := AddTable(ix, t, derived, allow, schema).value;
    forall a
      ensures MapGet(after.aliasToTable, a) == FirstClaim(front + [t], a, derived)
    {
      FirstClaimAppend(front, t, a, derived);
      assert MapGet(ix.aliasToTable, a) == FirstClaim(front, a, derived);
      assert [t][1..] == [];
    }
    forall x
      ensures x in after.physical <==> x !in derived && exists u :: u in front + [t] && Lower(u.name) == x
    {
      assert t in front + [t];
      assert forall u :: u in front + [t] <==> u in front || u == t;
      assert x in ix.physical <==> x !in derived && exists u :: u in front && Lower(u.name) == x;
    }
  }

  // -------------------------------------------------------------------------- columns

  /** Columns are accepted one by one. */
  lemma {:induction false} ColumnsAcceptedIff(columns: seq<Node>, allow: Allowlist, scope: Scope, schema: string)
    requires forall c :: c in columns ==> c.Column?
    ensures ColumnsUsed(columns, allow, scope, schema).Ok? <==>
            forall c :: c in columns ==> CheckColumn(c, allow, scope, schema).Ok?
  {
    if columns != [] {
      var n := |columns| - 1;
      ColumnsAcceptedIff(columns[..n], allow, scope, schema);
      assert forall c :: c in columns <==> c in columns[..n] || c == columns[n];
    }
  }

  /** What is counted is exactly what some column is counted for. */
  lemma {:induction false} ColumnCountedIff(columns: seq<Node>, allow: Allowlist, scope: Scope, schema: string,
                                            t: string, x: string)
    requires forall c :: c in columns ==> c.Column?
    requires ColumnsUsed(columns, allow, scope, schema).Ok?
    ensures (t, x) in ColumnsUsed(columns, allow, scope, schema).value <==>
            exists c :: c in columns && CheckColumn(c, allow, scope, schema) == Ok(Some(t)) && Lower(c.name) == x
  {
    if columns != [] {
      var n := |columns| - 1;
      ColumnCountedIff(columns[..n], allow, scope, schema, t, x);
      assert forall c :: c in columns <==> c in columns[..n] || c == columns[n];
    }
  }

  /** What an accepted column reference can be: `*`; a column of the allowlist, by a
      qualifier that a table has claimed or as the only column of that name among the
      physical tables; or a name that some select list, CTE or subquery puts out. */
  ghost predicate Resolved(c: Node, allow: Allowlist, claim: Option<string>, physical: set<string>,
                           derived: map<string, set<string>>, outputs: set<string>, schema: string)
    requires c.Column?
  {
    var name, qualifier := Lower(c.name), Lower(c.table);
    || c.star
    || (InSchema(c.db, schema) &&
        if c.table != "" then
          if claim.Some? then claim.value in allow && name in allow[claim.value]
          else qualifier in derived && (derived[qualifier] == {} || name in derived[qualifier])
        else
          || name in outputs
          || (exists t :: Owners(name, physical, allow) == {t})
          || (Owners(name, physical, allow) == {} && exists d :: d in derived && name in derived[d]))
  }

  lemma SingleOwner(owners: set<string>)
    ensures |owners| == 1 <==> exists t :: owners == {t}
  {
    if |owners| == 1 {
      var t :| t in owners;
      assert |owners - {t}| == 0;
      assert owners == {t};
    }
  }

  lemma ColumnAcceptedIff(c: Node, allow: Allowlist, scope: Scope, schema: string)
    requires c.Column?
    ensures CheckColumn(c, allow, scope, schema).Ok? <==>
            Resolved(c, allow, MapGet(scope.index.aliasToTable, Lower(c.table)), scope.index.physical,
                     scope.derived, scope.outputs, schema)
  {
    InSchemaIff(c.db, schema);
    SingleOwner(Owners(Lower(c.name), scope.index.physical, allow));
  }

  /** A counted column belongs to one table: the one its qualifier stands for, or
      the only table used that has a column of that name. */
  lemma CountedColumn(c: Node, allow: Allowlist, scope: Scope, schema: string, t: string)
    requires c.Column? && CheckColumn(c, allow, scope, schema) == Ok(Some(t))
    ensures Allowed(allow, t, Lower(c.name))
    ensures if c.table != ""
            then MapGet(scope.index.aliasToTable, Lower(c.table)) == Some(t)
            else Owners(Lower(c.name), scope.index.physical, allow) == {t}
  {
    SingleOwner(Owners(Lower(c.name), scope.index.physical, allow));
  }

  // ------------------------------------------------------------------------ the whole tree

  /** The query carries no limit, or a positive integer literal. */
  predicate LimitFits(n: Node)
    requires n.Select?
  {
    PlainLimit(n) && (n.limit.Some? ==> n.limit.value.count.value > 0)
  }

  /** The names of the tables that are neither CTE nor subquery. */
  function PhysicalNames(root: Node): set<string> {
    set t | t in FindAll(root, IsTable) && Lower(t.name) !in Derived(root) :: Lower(t.name)
  }

  /** The column resolves among the names in the tree: its qualifier stands for the first
      table that claims it. */
  ghost predicate ColumnFits(c: Node, root: Node, allow: Allowlist, schema: string)
    requires c.Column?
  {
    var claim := FirstClaim(FindAll(root, IsTable), Lower(c.table), Derived(root).Keys);
    Resolved(c, allow, claim, PhysicalNames(root), Derived(root), OutputAliases(FindAll(root, IsSelect)), schema)
  }

  ghost predicate TablesFit(root: Node, allow: Allowlist, schema: string) {
    var tables := FindAll(root, IsTable);
    forall i :: 0 <= i < |tables| ==> TableFits(tables, i, Derived(root).Keys, allow, schema)
  }

  ghost predicate TreeFits(root: Node, allow: Allowlist, schema: string) {
    && TablesFit(root, allow, schema)
    && forall c :: Within(c, root) && c.Column? ==> ColumnFits(c, root, allow, schema)
  }

  lemma IndexNames(root: Node, allow: Allowlist, schema: string, a: string)
    requires IndexTables(FindAll(root, IsTable), Derived(root).Keys, allow, schema).Ok?
    ensures var index := IndexTables(FindAll(root, IsTable), Derived(root).Keys, allow, schema).value;
            && MapGet(index.aliasToTable, a) == FirstClaim(FindAll(root, IsTable), a, Derived(root).Keys)
            && index.physical == PhysicalNames(root)
  {
    IndexIsFirstClaims(FindAll(root, IsTable), Derived(root).Keys, allow, schema);
  }

  /** The index that the loop builds knows the names as the tree has them. */
  lemma IndexKnowsNames(root: Node, allow: Allowlist, schema: string, c: Node)
    requires c.Column? && IndexTables(FindAll(root, IsTable), Derived(root).Keys, allow, schema).Ok?
    ensures var scope := ScopeOf(root, IndexTables(FindAll(root, IsTable), Derived(root).Keys, allow, schema).value);
            CheckColumn(c, allow, scope, schema).Ok? <==> ColumnFits(c, root, allow, schema)
  {
    var tables, derived := FindAll(root, IsTable), Derived(root).Keys;
    var index := IndexTables(tables, derived, allow, schema).value;
    IndexNames(root, allow, schema, Lower(c.table));
    ColumnAcceptedIff(c, allow, ScopeOf(root, index), schema);
  }

  lemma ReferencesAcceptedIff(root: Node, allow: Allowlist, schema: string)
    ensures CheckReferences(root, allow, schema).Ok? <==> TreeFits(root, allow, schema)
  {
    var tables := FindAll(root, IsTable);
    IndexBuiltIff(tables, Derived(root).Keys, allow, schema);
    var index := IndexTables(tables, Derived(root).Keys, allow, schema);
    if index.Ok? {
      var scope := ScopeOf(root, index.value);
      ColumnsAcceptedIff(FindAll(root, IsColumn), allow, scope, schema);
      forall c: Node | c.Column?
        ensures c in FindAll(root, IsColumn) <==> Within(c, root)
        ensures CheckColumn(c, allow, scope, schema).Ok? <==> ColumnFits(c, root, allow, schema)
      {
        FindsExactly(c, root, IsColumn);
        IndexKnowsNames(root, allow, schema, c);
      }
    }
  }

  lemma NoneListed(tree: Node)
    ensures FindAll(tree, IsDangerous) == [] <==> forall n :: Within(n, tree) ==> !CallsListed(n)
  {
    NoneFound(tree, IsDangerous);
    forall n ensures CallsListed(n) <==> IsDangerous(n) { ListedIff(n); }
  }

  lemma {:induction false} TablesErr(tables: seq<Node>, derived: set<string>, allow: Allowlist, schema: string)
    requires forall t :: t in tables ==> t.Table?
    ensures var r := IndexTables(tables, derived, allow, schema); r.Err? ==> r.error.UnknownTable?
  {
    if tables != [] { TablesErr(tables[..|tables| - 1], derived, allow, schema); }
  }

  lemma {:induction false} ColumnsErr(columns: seq<Node>, allow: Allowlist, scope: Scope, schema: string)
    requires forall c :: c in columns ==> c.Column?
    ensures var r := ColumnsUsed(columns, allow, scope, schema);
            r.Err? ==> r.error.UnknownColumn? || r.error.AmbiguousColumn?
  {
    if columns != [] { ColumnsErr(columns[..|columns| - 1], allow, scope, schema); }
  }

  lemma ReferencesErr(root: Node, allow: Allowlist, schema: string)
    ensures var r := CheckReferences(root, allow, schema);
            && (r.Err? ==> r.error.UnknownTable? || r.error.UnknownColumn? || r.error.AmbiguousColumn?)
            && (r == Err(UnknownTable) <==> !TablesFit(root, allow, schema))
  {
    TablesErr(FindAll(root, IsTable), Derived(root).Keys, allow, schema);
    IndexBuiltIff(FindAll(root, IsTable), Derived(root).Keys, allow, schema);
    var index := IndexTables(FindAll(root, IsTable), Derived(root).Keys, allow, schema);
    if index.Ok? { ColumnsErr(FindAll(root, IsColumn), allow, ScopeOf(root, index.value), schema); }
  }

  lemma AdmitErr(root: Node, limit: int)
    ensures Admit(Statements([root]), limit) == Err(DangerousFunction) <==>
            && limit > 0 && root.Select?
            && (forall n :: Within(n, root) ==> !n.Write?) && (exists n :: Within(n, root) && CallsListed(n))
  {
    NoneFound(root, IsWrite);
    NoneListed(root);
  }

  /** A statement that is refused for a function is one SELECT without a write that calls
      one of a listed name at some depth; and the tree of an accepted one has no such call. */
  lemma ListedCallsAreRefused(parsed: Parsed, allow: Allowlist, limit: int, schema: string)
    ensures Guard(parsed, allow, limit, schema) == Err(DangerousFunction) <==>
            && limit > 0 && parsed.Statements? && |parsed.trees| == 1 && parsed.trees[0].Select?
            && (forall n :: Within(n, parsed.trees[0]) ==> !n.Write?)
            && (exists n :: Within(n, parsed.trees[0]) && CallsListed(n))
    ensures Guard(parsed, allow, limit, schema).Ok? ==>
              forall n :: Within(n, Guard(parsed, allow, limit, schema).value.tree) ==> !CallsListed(n)
  {
    if Guard(parsed, allow, limit, schema).Ok? {
      GuardIsIdempotent(parsed, allow, limit, schema);
      NoneListed(Guard(parsed, allow, limit, schema).value.tree);
    }
    if parsed.Statements? && |parsed.trees| == 1 {
      assert parsed == Statements([parsed.trees[0]]);
      AdmitErr(parsed.trees[0], limit);
      if Admit(parsed, limit).Ok? { ReferencesErr(Admit(parsed, limit).value, allow, schema); }
    }
  }

  /** Exactly when the guard accepts: one SELECT without a write or a listed call
      at any depth, with no limit or a positive literal one, whose tables and
      columns all resolve at any depth. */
  lemma GuardAcceptsIff(parsed: Parsed, allow: Allowlist, limit: int, schema: string)
    ensures Guard(parsed, allow, limit, schema).Ok? <==>
            && limit > 0 && parsed.Statements? && |parsed.trees| == 1 && parsed.trees[0].Select?
            && (forall n :: Within(n, parsed.trees[0]) ==> !n.Write? && !CallsListed(n))
            && LimitFits(parsed.trees[0])
            && TreeFits(EnforceLimit(parsed.trees[0], limit).value, allow, schema)
  {
    if parsed.Statements? && |parsed.trees| == 1 && parsed.trees[0].Select? {
      var tree := parsed.trees[0];
      NoneFound(tree, IsWrite);
      NoneListed(tree);
      assert limit > 0 ==> (EnforceLimit(tree, limit).Ok? <==> LimitFits(tree));
      if EnforceLimit(tree, limit).Ok? {
        ReferencesAcceptedIff(EnforceLimit(tree, limit).value, allow, schema);
      }
    }
  }

  /** One SELECT under a positive limit, without a write or a listed call. */
  ghost predicate IsCleanSelect(parsed: Parsed, limit: int) {
    && limit > 0 && parsed.Statements? && |parsed.trees| == 1 && parsed.trees[0].Select?
    && forall n :: Within(n, parsed.trees[0]) ==> !n.Write? && !CallsListed(n)
  }

  lemma CleanSelectIsAdmitted(parsed: Parsed, limit: int)
    requires IsCleanSelect(parsed, limit)
    ensures Admit(parsed, limit) == EnforceLimit(parsed.trees[0], limit)
    ensures LimitFits(parsed.trees[0]) ==> EnforceLimit(parsed.trees[0], limit).Ok?
    ensures !LimitFits(parsed.trees[0]) ==> EnforceLimit(parsed.trees[0], limit) == Err(InvalidLimit)
  {
    NoneFound(parsed.trees[0], IsWrite);
    NoneListed(parsed.trees[0]);
  }

  lemma WritesAreNotAdmitted(root: Node, limit: int)
    requires limit > 0 && root.Select? && exists n :: Within(n, root) && n.Write?
    ensures Admit(Statements([root]), limit) == Err(WriteOperation)
  {
    NoneFound(root, IsWrite);
  }

  /** Why a statement is no clean SELECT, in the order of the checks. */
  lemma StatementRefusals(parsed: Parsed, allow: Allowlist, limit: int, schema: string)
    ensures limit <= 0 ==> Guard(parsed, allow, limit, schema) == Err(InvalidLimit)
    ensures limit > 0 && parsed.Unparsable? ==> Guard(parsed, allow, limit, schema) == Err(ParseError)
    ensures limit > 0 && parsed.Statements? && |parsed.trees| != 1 ==>
              Guard(parsed, allow, limit, schema) == Err(MultiStatement)
    ensures limit > 0 && parsed.Statements? && |parsed.trees| == 1 && !parsed.trees[0].Select? ==>
              Guard(parsed, allow, limit, schema) == Err(NonSelect)
    ensures (limit > 0 && parsed.Statements? && |parsed.trees| == 1 && parsed.trees[0].Select?
             && exists n :: Within(n, parsed.trees[0]) && n.Write?) ==>
              Guard(parsed, allow, limit, schema) == Err(WriteOperation)
  {
    if limit > 0 && parsed.Statements? && |parsed.trees| == 1 && parsed.trees[0].Select? {
      assert parsed == Statements([parsed.trees[0]]);
      if exists n :: Within(n, parsed.trees[0]) && n.Write? { WritesAreNotAdmitted(parsed.trees[0], limit); }
    }
  }

  /** Why a clean SELECT is refused: for its limit, then for a table, then for a column. */
  lemma ReferenceRefusals(parsed: Parsed, allow: Allowlist, limit: int, schema: string)
    requires IsCleanSelect(parsed, limit)
    ensures var g := Guard(parsed, allow, limit, schema);
            if !LimitFits(parsed.trees[0]) then g == Err(InvalidLimit)
            else
              var limited := EnforceLimit(parsed.trees[0], limit).value;
              if !TablesFit(limited, allow, schema) then g == Err(UnknownTable)
              else if forall c :: Within(c, limited) && c.Column? ==> ColumnFits(c, limited, allow, schema) then g.Ok?
              else g == Err(UnknownColumn) || g == Err(AmbiguousColumn)
  {
    CleanSelectIsAdmitted(parsed, limit);
    if LimitFits(parsed.trees[0]) {
      var limited := EnforceLimit(parsed.trees[0], limit).value;
      ReferencesErr(limited, allow, schema);
      ReferencesAcceptedIff(limited, allow, schema);
    }
  }

  lemma NoneFound(root: Node, p: Node -> bool)
    ensures FindAll(root, p) == [] <==> forall n :: Within(n, root) ==> !p(n)
  {
    forall n ensures n in FindAll(root, p) <==> Within(n, root) && p(n) {
      FindsExactly(n, root, p);
    }
    if FindAll(root, p) != [] {
      assert FindAll(root, p)[0] in FindAll(root, p);
    }
  }

  /** The column node refers to this table: the first one to claim its qualifier, or the
      only physical table that has a column of its name. */
  ghost predicate RefersTo(c: Node, root: Node, t: string, allow: Allowlist)
    requires c.Column?
  {
    if c.table != "" then FirstClaim(FindAll(root, IsTable), Lower(c.table), Derived(root).Keys) == Some(t)
    else Owners(Lower(c.name), PhysicalNames(root), allow) == {t}
  }

  /** A reported column is an allowlisted column of a reported table, and some
      node of the tree refers to it there. */
  ghost predicate ColumnFound(root: Node, r: GuardResult, t: string, x: string, allow: Allowlist) {
    && t in r.tables && t in allow && x in allow[t]
    && exists c :: Within(c, root) && c.Column? && !c.star && Lower(c.name) == x && RefersTo(c, root, t, allow)
  }

  /** A table of the schema and the allowlist that is reported as used, and that
      its alias still stands for at the end. */
  ghost predicate TableFound(t: Node, allow: Allowlist, schema: string, index: Index)
    requires t.Table?
  {
    && InSchema(t.db, schema)
    && Lower(t.name) in allow
    && Lower(t.name) in index.physical
    && MapGet(index.aliasToTable, Lower(AliasOrName(t))) == Some(Lower(t.name))
  }

  lemma AcceptedTables(root: Node, allow: Allowlist, schema: string)
    requires IndexTables(FindAll(root, IsTable), Derived(root).Keys, allow, schema).Ok?
    ensures var index := IndexTables(FindAll(root, IsTable), Derived(root).Keys, allow, schema).value;
            TablesSound(root, allow, schema, index)
  {
    var tables := FindAll(root, IsTable);
    var derived := Derived(root).Keys;
    forall t: Node ensures t in tables <==> Within(t, root) && t.Table? { FindsExactly(t, root, IsTable); }
    IndexIsFirstClaims(tables, derived, allow, schema);
    forall t | t in tables && Lower(t.name) !in derived
      ensures TableFound(t, allow, schema, IndexTables(tables, derived, allow, schema).value)
    {
      TableIsFound(t, tables, derived, allow, schema);
    }
  }

  lemma CountedRefersTo(c: Node, root: Node, index: Index, allow: Allowlist, schema: string, t: string)
    requires c.Column? && IndexTables(FindAll(root, IsTable), Derived(root).Keys, allow, schema) == Ok(index)
    requires CheckColumn(c, allow, ScopeOf(root, index), schema) == Ok(Some(t))
    ensures RefersTo(c, root, t, allow) && !c.star && Allowed(allow, t, Lower(c.name)) && t in index.physical
  {
    var tables, derived := FindAll(root, IsTable), Derived(root).Keys;
    CountedColumn(c, allow, ScopeOf(root, index), schema, t);
    IndexNames(root, allow, schema, Lower(c.table));
    if c.table != "" {
      ClaimsArePhysical(tables, Lower(c.table), derived, allow, schema);
    } else {
      assert t in Owners(Lower(c.name), index.physical, allow);
    }
  }

  lemma AcceptedColumn(root: Node, allow: Allowlist, schema: string, t: string, x: string)
    requires CheckReferences(root, allow, schema).Ok?
    requires (t, x) in CheckReferences(root, allow, schema).value.columns
    ensures ColumnFound(root, CheckReferences(root, allow, schema).value, t, x, allow)
  {
    var columns := FindAll(root, IsColumn);
    var index := IndexTables(FindAll(root, IsTable), Derived(root).Keys, allow, schema).value;
    var scope := ScopeOf(root, index);
    ColumnCountedIff(columns, allow, scope, schema, t, x);
    var c :| c in columns && CheckColumn(c, allow, scope, schema) == Ok(Some(t)) && Lower(c.name) == x;
    FindsExactly(c, root, IsColumn);
    CountedRefersTo(c, root, index, allow, schema, t);
  }

  ghost predicate TablesSound(root: Node, allow: Allowlist, schema: string, index: Index) {
    && (forall t :: Within(t, root) && t.Table? ==>
          Lower(t.name) in Derived(root) || TableFound(t, allow, schema, index))
    && (forall x :: x in index.physical <==>
          x !in Derived(root) && exists t :: Within(t, root) && t.Table? && Lower(t.name) == x)
  }

  ghost predicate ColumnsSound(root: Node, r: GuardResult, allow: Allowlist) {
    forall t, x :: (t, x) in r.columns ==> ColumnFound(root, r, t, x, allow)
  }

  lemma AcceptedColumns(root: Node, allow: Allowlist, schema: string)
    requires CheckReferences(root, allow, schema).Ok?
    ensures ColumnsSound(root, CheckReferences(root, allow, schema).value, allow)
  {
    var r := CheckReferences(root, allow, schema).value;
    forall t, x | (t, x) in r.columns
      ensures ColumnFound(root, r, t, x, allow)
    {
      AcceptedColumn(root, allow, schema, t, x);
    }
  }

  lemma GuardedTree(parsed: Parsed, allow: Allowlist, limit: int, schema: string)
    requires Guard(parsed, allow, limit, schema).Ok?
    ensures var r := Guard(parsed, allow, limit, schema).value;
            && CheckReferences(r.tree, allow, schema) == Ok(r)
            && IndexTables(FindAll(r.tree, IsTable), Derived(r.tree).Keys, allow, schema).Ok?
            && IndexTables(FindAll(r.tree, IsTable), Derived(r.tree).Keys, allow, schema).value.physical == r.tables
  {
  }

  /** Reference index soundness, at every depth of an accepted tree: a table node is
      named like a CTE or subquery or is an allowlisted table that was found; the
      tables reported are exactly those found; every reported column was found. */
  lemma AcceptedReferencesAreSound(parsed: Parsed, allow: Allowlist, limit: int, schema: string)
    requires Guard(parsed, allow, limit, schema).Ok?
    ensures var r := Guard(parsed, allow, limit, schema).value;
            var index := IndexTables(FindAll(r.tree, IsTable), Derived(r.tree).Keys, allow, schema);
            && index.Ok? && index.value.physical == r.tables
            && TablesSound(r.tree, allow, schema, index.value)
            && ColumnsSound(r.tree, r, allow)
  {
    GuardedTree(parsed, allow, limit, schema);
    var r := Guard(parsed, allow, limit, schema).value;
    AcceptedTables(r.tree, allow, schema);
    AcceptedColumns(r.tree, allow, schema);
  }

  lemma ReportedTablesAreAllowed(parsed: Parsed, allow: Allowlist, limit: int, schema: string)
    requires Guard(parsed, allow, limit, schema).Ok?
    ensures Guard(parsed, allow, limit, schema).value.tables <= allow.Keys
  {
    AcceptedReferencesAreSound(parsed, allow, limit, schema);
  }

  lemma TableIsFound(t: Node, tables: seq<Node>, derived: set<string>, allow: Allowlist, schema: string)
    requires forall u :: u in tables ==> u.Table?
    requires t in tables && Lower(t.name) !in derived
    requires IndexTables(tables, derived, allow, schema).Ok?
    ensures TableFound(t, allow, schema, IndexTables(tables, derived, allow, schema).value)
  {
    var i :| 0 <= i < |tables| && tables[i] == t;
    IndexBuiltIff(tables, derived, allow, schema);
    IndexIsFirstClaims(tables, derived, allow, schema);
    assert TableFits(tables, i, derived, allow, schema);
    FirstClaimSplit(tables, i, Lower(AliasOrName(t)), derived);
  }

  lemma {:induction false} FirstClaimSplit(tables: seq<Node>, i: nat, a: string, derived: set<string>)
    requires i < |tables| && forall u :: u in tables ==> u.Table?
    requires Lower(tables[i].name) !in derived && Lower(AliasOrName(tables[i])) == a
    ensures FirstClaim(tables, a, derived) ==
            if FirstClaim(tables[..i], a, derived).Some? then FirstClaim(tables[..i], a, derived)
            else Some(Lower(tables[i].name))
  {
    if i > 0 {
      assert tables[1..][..i - 1] == tables[..i][1..];
      FirstClaimSplit(tables[1..], i - 1, a, derived);
    }
  }

  lemma {:induction false} FirstClaimIsATable(tables: seq<Node>, a: string, derived: set<string>)
    requires forall u :: u in tables ==> u.Table?
    requires FirstClaim(tables, a, derived).Some?
    ensures FirstClaim(tables, a, derived).value !in derived
    ensures exists t :: t in tables && Lower(t.name) == FirstClaim(tables, a, derived).value
  {
    var t := tables[0];
    if Lower(t.name) in derived || (Lower(AliasOrName(t)) != a && Lower(t.name) != a) {
      FirstClaimIsATable(tables[1..], a, derived);
    } else {
      assert t in tables;
    }
  }

  lemma ClaimsArePhysical(tables: seq<Node>, a: string, derived: set<string>, allow: Allowlist, schema: string)
    requires forall u :: u in tables ==> u.Table?
    requires IndexTables(tables, derived, allow, schema).Ok?
    ensures var index := IndexTables(tables, derived, allow, schema).value;
            a in index.aliasToTable ==> index.aliasToTable[a] in index.physical
  {
    IndexIsFirstClaims(tables, derived, allow, schema);
    var index := IndexTables(tables, derived, allow, schema).value;
    if a in index.aliasToTable {
      assert MapGet(index.aliasToTable, a) == FirstClaim(tables, a, derived);
      FirstClaimIsATable(tables, a, derived);
    }
  }

  /** Whether an alias is accepted depends on the order of the tables: `a x, c a`
      is refused and `c a, a x` accepted. */
  lemma AliasOrderMatters()
    ensures var ax, ca := Table("a", "", "x", []), Table("c", "", "a", []);
            var allow: Allowlist := map["a" := {}, "c" := {}];
            && IndexTables([ax, ca], {}, allow, "public").Err?
            && IndexTables([ca, ax], {}, allow, "public").Ok?
  {
    var ax, ca := Table("a", "", "x", []), Table("c", "", "a", []);
    var allow: Allowlist := map["a" := {}, "c" := {}];
    assert Lower("a") == "a" && Lower("c") == "c" && Lower("x") == "x";
    assert [ax, ca][..1] == [ax] && [ca, ax][..1] == [ca] && [ax][..0] == [] && [ca][..0] == [];
    assert IndexTables([ax], {}, allow, "public") == AddTable(EMPTY_INDEX, ax, {}, allow, "public");
    assert IndexTables([ca], {}, allow, "public") == AddTable(EMPTY_INDEX, ca, {}, allow, "public");
  }

  // ----------------------------------------------------------------------- idempotence

  lemma KindsIgnoreLimits()
    ensures Ignores(IsTable) && Ignores(IsColumn) && Ignores(IsCte) && Ignores(IsSubquery)
    ensures Ignores(IsSelect) && Ignores(IsWrite) && Ignores(IsDangerous)
  {
  }

  lemma EnforceTwice(n: Node, limit: int)
    requires n.Select? && limit > 0 && EnforceLimit(n, limit).Ok?
    ensures var m := EnforceLimit(n, limit).value;
            m.Select? && EnforceLimit(m, limit) == Ok(m) && PlainLimit(n) && PlainLimit(m) &&
                  Unlimited(m) == Unlimited(n)
  {
  }

  /** Guarding the tree that the guard returned succeeds with the same tree, tables
      and columns. */
  lemma GuardIsIdempotent(parsed: Parsed, allow: Allowlist, limit: int, schema: string)
    requires Guard(parsed, allow, limit, schema).Ok?
    ensures Guard(Statements([Guard(parsed, allow, limit, schema).value.tree]), allow, limit, schema)
            == Guard(parsed, allow, limit, schema)
  {
    var tree := parsed.trees[0];
    var limited := EnforceLimit(tree, limit).value;
    EnforceTwice(tree, limit);
    KindsIgnoreLimits();
    SameFound(tree, limited, IsWrite);
    SameFound(tree, limited, IsDangerous);
    assert Admit(Statements([limited]), limit) == Ok(limited) == Admit(parsed, limit);
    assert CheckReferences(limited, allow, schema).value.tree == limited;
  }

  /** The limit has no say in which tables and columns a query uses. */
  lemma LimitKeepsReferences(n: Node, allow: Allowlist, limit: int, schema: string)
    requires n.Select? && EnforceLimit(n, limit).Ok?
    ensures var m := EnforceLimit(n, limit).value;
            && CheckReferences(m, allow, schema).Ok? == CheckReferences(n, allow, schema).Ok?
            && (CheckReferences(n, allow, schema).Ok? ==>
                  && CheckReferences(m, allow, schema).value.tables == CheckReferences(n, allow, schema).value.tables
                  && CheckReferences(m, allow, schema).value.columns == CheckReferences(n, allow, schema).value.columns)
  {
    var m := EnforceLimit(n, limit).value;
    KindsIgnoreLimits();
    assert Unlimited(m) == Unlimited(n);
    SameFound(n, m, IsTable);
    SameFound(n, m, IsColumn);
    SameFound(n, m, IsCte);
    SameFound(n, m, IsSubquery);
    LimitIsNotFound(n, IsSelect);
    LimitIsNotFound(m, IsSelect);
    var rest := Filter(Walk(Children(Unlimited(n))), IsSelect);
    assert OutputAliases([n] + rest) == OutputAliases([m] + rest) by {
      SameOutputs(n, m, rest);
    }
  }

  lemma SameFound(n: Node, m: Node, p: Node -> bool)
    requires PlainLimit(n) && PlainLimit(m) && Unlimited(n) == Unlimited(m) && Ignores(p) && !p(n) && !p(m)
    ensures FindAll(n, p) == FindAll(m, p)
  {
    LimitIsNotFound(n, p);
    LimitIsNotFound(m, p);
  }

  lemma SameOutputs(n: Node, m: Node, rest: seq<Node>)
    requires n.Select? && m.Select? && n.projections == m.projections && forall s :: s in rest ==> s.Select?
    ensures OutputAliases([n] + rest) == OutputAliases([m] + rest)
  {
  }
}
