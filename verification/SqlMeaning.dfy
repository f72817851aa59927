/**
 What a query returns, and what guarding does to it.

 The meaning of a tree is compositional: a node combines the meanings of its
 children, given the current outer row, into a list of rows. How joins, filters,
 groupings, functions and so on combine is left to an arbitrary `ops`; what is
 fixed is what the guard relies on: a LIMIT keeps the first rows, a table name
 stands for the CTE of that name that is in scope and for a stored table
 otherwise, and each CTE of a WITH is in scope of what follows it.
 */
module SqlMeaning {
  import opened Wrappers
  import opened SqlTree
  import opened SqlGuard
  import opened SqlGuardProofs

  datatype Value = Null | Number(n: int) | Text(s: string)

  type Row = map<string, Value>

  /** Stored tables by schema and name. */
  type Database = map<(string, string), seq<Row>>

  /** The rows a query or expression gives in the context of an outer row. */
  type Meaning = Row -> seq<Row>

  type Env = map<string, Meaning>

  datatype Engine = Engine(db: Database, schema: string, ops: (Node, seq<Meaning>, seq<Meaning>) -> Meaning)

  function Take(rows: seq<Row>, n: int): seq<Row> {
    if n <= 0 then [] else if n >= |rows| then rows else rows[..n]
  }

  function Limited(m: Meaning, n: int): Meaning {
    (outer: Row) => Take(m(outer), n)
  }

  function RowsAt(db: Database, key: (string, string)): seq<Row> {
    if key in db then db[key] else []
  }

  function Stored(rows: seq<Row>): Meaning {
    (outer: Row) => rows
  }

  /** The node without its children. */
  function Shape(n: Node): Node {
    match n
    case Select(_, _, _) => Select([], [], None)
    case With(_) => With([])
    case Cte(alias, _) => Cte(alias, IntLiteral(0))
    case Subquery(alias, _, _) => Subquery(alias, IntLiteral(0), [])
    case Table(name, db, alias, _) => Table(name, db, alias, [])
    case Column(_, _, _, _) => n
    case Aliased(alias, _) => Aliased(alias, IntLiteral(0))
    case Func(sqlName, text, _) => Func(sqlName, text, [])
    case Anonymous(name, _) => Anonymous(name, [])
    case Write(kind, _) => Write(kind, [])
    case LimitNode(_) => LimitNode(IntLiteral(0))
    case IntLiteral(_) => n
    case Other(tag, text, _) => Other(tag, text, [])
  }

  function TableKey(t: Node, schema: string): (string, string)
    requires t.Table?
  {
    (SchemaOf(t.db, schema), Lower(t.name))
  }

  /** The table name is that of a CTE in scope. */
  predicate InScope(t: Node, names: set<string>)
    requires t.Table?
  {
    t.db == "" && Lower(t.name) in names
  }

  ghost function Eval(n: Node, env: Env, e: Engine): Meaning
    decreases n, 2
  {
    match n
    case Select(projections, clauses, limit) =>
      var body := SelectBody(n, env, e);
      if limit.None? then body
      else if limit.value.LimitNode? && limit.value.count.IntLiteral? then Limited(body, limit.value.count.value)
      else e.ops(Shape(limit.value), [body], [Eval(limit.value, Extend(clauses, env, e), e)])
    case Table(_, _, _, parts) =>
      var rows := if InScope(n, env.Keys) then env[Lower(n.name)] else Stored(RowsAt(e.db, TableKey(n, e.schema)));
      e.ops(Shape(n), [rows], EvalAll(parts, env, e))
    case Subquery(_, body, parts) =>
      var inner := Extend(parts, env, e);
      e.ops(Shape(n), [Eval(body, inner, e)], EvalAll(parts, inner, e))
    case Other(_, _, parts) => e.ops(Shape(n), [], EvalAll(parts, Extend(parts, env, e), e))
    case With(ctes) => e.ops(Shape(n), [], EvalAll(ctes, env, e))
    case Cte(_, body) => e.ops(Shape(n), [Eval(body, env, e)], [])
    case Aliased(_, body) => e.ops(Shape(n), [Eval(body, env, e)], [])
    case LimitNode(count) => e.ops(Shape(n), [Eval(count, env, e)], [])
    case Func(_, _, parts) => e.ops(Shape(n), [], EvalAll(parts, env, e))
    case Anonymous(_, parts) => e.ops(Shape(n), [], EvalAll(parts, env, e))
    case Write(_, parts) => e.ops(Shape(n), [], EvalAll(parts, env, e))
    case Column(_, _, _, _) => e.ops(n, [], [])
    case IntLiteral(_) => e.ops(n, [], [])
  }

  /** A query without its limit. */
  ghost function SelectBody(n: Node, env: Env, e: Engine): Meaning
    requires n.Select?
    decreases n, 1
  {
    var inner := Extend(n.clauses, env, e);
    e.ops(Shape(n), EvalAll(n.projections, inner, e), EvalAll(n.clauses, inner, e))
  }

  ghost function EvalAll(ns: seq<Node>, env: Env, e: Engine): (ms: seq<Meaning>)
    decreases ns, 0
  {
    if ns == [] then [] else [Eval(ns[0], env, e)] + EvalAll(ns[1..], env, e)
  }

  /** The environment inside a query whose clauses include a WITH. */
  ghost function Extend(ns: seq<Node>, env: Env, e: Engine): Env
    decreases ns, 1
  {
    if ns == [] then env
    else if ns[0].With? then Extend(ns[1..], ExtendCtes(ns[0].ctes, env, e), e)
    else Extend(ns[1..], env, e)
  }

  ghost function ExtendCtes(ctes: seq<Node>, env: Env, e: Engine): Env
    decreases ctes, 0
  {
    if ctes == [] then env
    else if ctes[0].Cte? && ctes[0].alias != "" then
      ExtendCtes(ctes[1..], env[Lower(ctes[0].alias) := Eval(ctes[0].body, env, e)], e)
    else ExtendCtes(ctes[1..], env, e)
  }

  // --------------------------------------------------------------- the row limit

  lemma TakeTwice(rows: seq<Row>, m: int, n: int)
    ensures Take(Take(rows, m), n) == Take(rows, if m < n then m else n)
  {
  }

  lemma LimitedRows(n: Node, limit: int, env: Env, e: Engine, outer: Row)
    requires n.Select? && limit > 0 && EnforceLimit(n, limit).Ok?
    ensures var rows := Eval(EnforceLimit(n, limit).value, env, e)(outer);
            rows == Take(Eval(n, env, e)(outer), limit) && |rows| <= limit
  {
    var body := SelectBody(n, env, e);
    assert SelectBody(LimitedTo(n, limit), env, e) == body;
    assert Eval(LimitedTo(n, limit), env, e) == Limited(body, limit);
    if n.limit.Some? {
      var value := n.limit.value.count.value;
      assert Eval(n, env, e) == Limited(body, value);
      TakeTwice(body(outer), value, limit);
    }
  }

  /** The guarded query returns the first rows of the original one, as many as the
      limit allows, in every database and context. */
  lemma GuardedRowsArePrefix(parsed: Parsed, allow: Allowlist, limit: int, schema: string, env: Env, e: Engine,
                             outer: Row)
    requires Guard(parsed, allow, limit, schema).Ok?
    ensures var rows := Eval(Guard(parsed, allow, limit, schema).value.tree, env, e)(outer);
            rows == Take(Eval(parsed.trees[0], env, e)(outer), limit) && |rows| <= limit
  {
    LimitedRows(parsed.trees[0], limit, env, e, outer);
    assert Guard(parsed, allow, limit, schema).value.tree == EnforceLimit(parsed.trees[0], limit).value;
  }

  // ------------------------------------------------------- which tables are read

  /** The stored tables that a tree reads when the given names are CTEs in scope. */
  function Reads(n: Node, names: set<string>, schema: string): set<(string, string)>
    decreases n, 2
  {
    match n
    case Select(projections, clauses, limit) =>
      var inner := ExtendNames(clauses, names);
      WithReads(clauses, names, schema) + ReadsAll(projections, inner, schema) + ReadsAll(clauses, inner, schema)
      + (if limit.Some? then Reads(limit.value, inner, schema) else {})
    case Table(_, _, _, parts) =>
      (if InScope(n, names) then {} else {TableKey(n, schema)}) + ReadsAll(parts, names, schema)
    case Subquery(_, body, parts) =>
      var inner := ExtendNames(parts, names);
      WithReads(parts, names, schema) + Reads(body, inner, schema) + ReadsAll(parts, inner, schema)
    case Other(_, _, parts) => WithReads(parts, names, schema) + ReadsAll(parts, ExtendNames(parts, names), schema)
    case With(ctes) => ReadsAll(ctes, names, schema)
    case Cte(_, body) => Reads(body, names, schema)
    case Aliased(_, body) => Reads(body, names, schema)
    case LimitNode(count) => Reads(count, names, schema)
    case Func(_, _, parts) => ReadsAll(parts, names, schema)
    case Anonymous(_, parts) => ReadsAll(parts, names, schema)
    case Write(_, parts) => ReadsAll(parts, names, schema)
    case Column(_, _, _, _) => {}
    case IntLiteral(_) => {}
  }

  function ReadsAll(ns: seq<Node>, names: set<string>, schema: string): set<(string, string)>
    decreases ns, 0
  {
    if ns == [] then {} else Reads(ns[0], names, schema) + ReadsAll(ns[1..], names, schema)
  }

  function ExtendNames(ns: seq<Node>, names: set<string>): set<string> {
    if ns == [] then names
    else if ns[0].With? then ExtendNames(ns[1..], CteNames(ns[0].ctes, names))
    else ExtendNames(ns[1..], names)
  }

  function CteNames(ctes: seq<Node>, names: set<string>): set<string> {
    if ctes == [] then names
    else if ctes[0].Cte? && ctes[0].alias != "" then CteNames(ctes[1..], names + {Lower(ctes[0].alias)})
    else CteNames(ctes[1..], names)
  }

  /** What the CTEs of the WITH clauses read, each in the scope of those before it. */
  function WithReads(ns: seq<Node>, names: set<string>, schema: string): set<(string, string)>
    decreases ns, 1
  {
    if ns == [] then {}
    else if ns[0].With? then
      CteReads(ns[0].ctes, names, schema) + WithReads(ns[1..], CteNames(ns[0].ctes, names), schema)
    else WithReads(ns[1..], names, schema)
  }

  function CteReads(ctes: seq<Node>, names: set<string>, schema: string): set<(string, string)>
    decreases ctes, 0
  {
    if ctes == [] then {}
    else if ctes[0].Cte? && ctes[0].alias != "" then
      Reads(ctes[0].body, names, schema) + CteReads(ctes[1..], names + {Lower(ctes[0].alias)}, schema)
    else CteReads(ctes[1..], names, schema)
  }

  ghost predicate Agree(e: Engine, f: Engine, keys: set<(string, string)>) {
    && e.schema == f.schema && e.ops == f.ops
    && forall k :: k in keys ==> RowsAt(e.db, k) == RowsAt(f.db, k)
  }

  /** A tree gives the same rows in two databases that agree on the tables it reads. */
  lemma {:induction false} ReadsDecide(n: Node, env: Env, e: Engine, f: Engine)
    requires Agree(e, f, Reads(n, env.Keys, e.schema))
    ensures Eval(n, env, e) == Eval(n, env, f)
    decreases n, 2
  {
    match n
    case Select(projections, clauses, limit) =>
      SelectReadsDecide(n, env, e, f);
      if limit.Some? {
        ExtendReadsDecide(clauses, env, e, f);
        ReadsDecide(limit.value, Extend(clauses, env, e), e, f);
      }
    case Table(_, _, _, parts) => ReadsAllDecide(parts, env, e, f);
    case Subquery(_, body, parts) =>
      ExtendReadsDecide(parts, env, e, f);
      ReadsDecide(body, Extend(parts, env, e), e, f);
      ReadsAllDecide(parts, Extend(parts, env, e), e, f);
    case Other(_, _, parts) =>
      ExtendReadsDecide(parts, env, e, f);
      ReadsAllDecide(parts, Extend(parts, env, e), e, f);
    case With(ctes) => ReadsAllDecide(ctes, env, e, f);
    case Cte(_, body) => ReadsDecide(body, env, e, f);
    case Aliased(_, body) => ReadsDecide(body, env, e, f);
    case LimitNode(count) => ReadsDecide(count, env, e, f);
    case Func(_, _, parts) => ReadsAllDecide(parts, env, e, f);
    case Anonymous(_, parts) => ReadsAllDecide(parts, env, e, f);
    case Write(_, parts) => ReadsAllDecide(parts, env, e, f);
    case Column(_, _, _, _) =>
    case IntLiteral(_) =>
  }

  lemma {:induction false} SelectReadsDecide(n: Node, env: Env, e: Engine, f: Engine)
    requires n.Select? && Agree(e, f, Reads(n, env.Keys, e.schema))
    ensures SelectBody(n, env, e) == SelectBody(n, env, f)
    ensures Extend(n.clauses, env, e) == Extend(n.clauses, env, f)
    ensures Extend(n.clauses, env, e).Keys == ExtendNames(n.clauses, env.Keys)
    decreases n, 1
  {
    ExtendReadsDecide(n.clauses, env, e, f);
    var inner := Extend(n.clauses, env, e);
    ReadsAllDecide(n.projections, inner, e, f);
    ReadsAllDecide(n.clauses, inner, e, f);
  }

  lemma {:induction false} ReadsAllDecide(ns: seq<Node>, env: Env, e: Engine, f: Engine)
    requires Agree(e, f, ReadsAll(ns, env.Keys, e.schema))
    ensures EvalAll(ns, env, e) == EvalAll(ns, env, f)
    decreases ns, 0
  {
    if ns != [] {
      ReadsDecide(ns[0], env, e, f);
      ReadsAllDecide(ns[1..], env, e, f);
    }
  }

  lemma {:induction false} ExtendReadsDecide(ns: seq<Node>, env: Env, e: Engine, f: Engine)
    requires Agree(e, f, WithReads(ns, env.Keys, e.schema))
    ensures Extend(ns, env, e) == Extend(ns, env, f)
    ensures Extend(ns, env, e).Keys == ExtendNames(ns, env.Keys)
    decreases ns, 1
  {
    if ns != [] {
      if ns[0].With? {
        CteReadsDecide(ns[0].ctes, env, e, f);
        ExtendReadsDecide(ns[1..], ExtendCtes(ns[0].ctes, env, e), e, f);
      } else {
        ExtendReadsDecide(ns[1..], env, e, f);
      }
    }
  }

  lemma {:induction false} CteReadsDecide(ctes: seq<Node>, env: Env, e: Engine, f: Engine)
    requires Agree(e, f, CteReads(ctes, env.Keys, e.schema))
    ensures ExtendCtes(ctes, env, e) == ExtendCtes(ctes, env, f)
    ensures ExtendCtes(ctes, env, e).Keys == CteNames(ctes, env.Keys)
    decreases ctes, 0
  {
    if ctes != [] {
      if ctes[0].Cte? && ctes[0].alias != "" {
        ReadsDecide(ctes[0].body, env, e, f);
        var next := env[Lower(ctes[0].alias) := Eval(ctes[0].body, env, e)];
        assert next.Keys == env.Keys + {Lower(ctes[0].alias)};
        CteReadsDecide(ctes[1..], next, e, f);
      } else {
        CteReadsDecide(ctes[1..], env, e, f);
      }
    }
  }

  // ------------------------------------------------ reads and the tables reported

  /** Every key belongs to a table node somewhere in the tree. */
  ghost predicate Named(keys: set<(string, string)>, n: Node, schema: string) {
    forall k :: k in keys ==> exists t :: Within(t, n) && t.Table? && k == TableKey(t, schema)
  }

  lemma NamedAbove(keys: set<(string, string)>, c: Node, n: Node, schema: string)
    requires c in Children(n) && Named(keys, c, schema)
    ensures Named(keys, n, schema)
  {
  }

  lemma {:induction false} ReadsAreNamed(n: Node, names: set<string>, schema: string)
    ensures Named(Reads(n, names, schema), n, schema)
    decreases n, 2
  {
    match n
    case Select(projections, clauses, limit) =>
      var inner := ExtendNames(clauses, names);
      WithReadsAreNamed(clauses, names, n, schema);
      ReadsAllAreNamed(projections, inner, n, schema);
      ReadsAllAreNamed(clauses, inner, n, schema);
      if limit.Some? { ReadsBelowAreNamed(limit.value, inner, n, schema); }
    case Table(_, _, _, parts) =>
      ReadsAllAreNamed(parts, names, n, schema);
      assert Within(n, n);
    case Subquery(_, body, parts) =>
      WithReadsAreNamed(parts, names, n, schema);
      ReadsAllAreNamed(parts, ExtendNames(parts, names), n, schema);
      ReadsBelowAreNamed(body, ExtendNames(parts, names), n, schema);
    case Other(_, _, parts) =>
      WithReadsAreNamed(parts, names, n, schema);
      ReadsAllAreNamed(parts, ExtendNames(parts, names), n, schema);
    case With(ctes) => ReadsAllAreNamed(ctes, names, n, schema);
    case Cte(_, body) => ReadsBelowAreNamed(body, names, n, schema);
    case Aliased(_, body) => ReadsBelowAreNamed(body, names, n, schema);
    case LimitNode(count) => ReadsBelowAreNamed(count, names, n, schema);
    case Func(_, _, parts) => ReadsAllAreNamed(parts, names, n, schema);
    case Anonymous(_, parts) => ReadsAllAreNamed(parts, names, n, schema);
    case Write(_, parts) => ReadsAllAreNamed(parts, names, n, schema);
    case Column(_, _, _, _) =>
    case IntLiteral(_) =>
  }

  lemma {:induction false} ReadsBelowAreNamed(c: Node, names: set<string>, n: Node, schema: string)
    requires c in Children(n)
    ensures Named(Reads(c, names, schema), n, schema)
    decreases c, 3
  {
    ReadsAreNamed(c, names, schema);
    NamedAbove(Reads(c, names, schema), c, n, schema);
  }

  lemma {:induction false} ReadsAllAreNamed(ns: seq<Node>, names: set<string>, n: Node, schema: string)
    requires forall c :: c in ns ==> c in Children(n)
    ensures Named(ReadsAll(ns, names, schema), n, schema)
    decreases ns, 0
  {
    if ns != [] {
      ReadsBelowAreNamed(ns[0], names, n, schema);
      ReadsAllAreNamed(ns[1..], names, n, schema);
    }
  }

  lemma {:induction false} WithReadsAreNamed(ns: seq<Node>, names: set<string>, n: Node, schema: string)
    requires forall c :: c in ns ==> c in Children(n)
    ensures Named(WithReads(ns, names, schema), n, schema)
    decreases ns, 1
  {
    if ns != [] {
      if ns[0].With? {
        CteReadsAreNamed(ns[0].ctes, names, ns[0], schema);
        NamedAbove(CteReads(ns[0].ctes, names, schema), ns[0], n, schema);
        WithReadsAreNamed(ns[1..], CteNames(ns[0].ctes, names), n, schema);
      } else {
        WithReadsAreNamed(ns[1..], names, n, schema);
      }
    }
  }

  lemma {:induction false} CteReadsAreNamed(ctes: seq<Node>, names: set<string>, w: Node, schema: string)
    requires forall c :: c in ctes ==> c in Children(w)
    ensures Named(CteReads(ctes, names, schema), w, schema)
    decreases ctes, 0
  {
    if ctes != [] {
      if ctes[0].Cte? && ctes[0].alias != "" {
        ReadsBelowAreNamed(ctes[0].body, names, ctes[0], schema);
        NamedAbove(Reads(ctes[0].body, names, schema), ctes[0], w, schema);
        CteReadsAreNamed(ctes[1..], names + {Lower(ctes[0].alias)}, w, schema);
      } else {
        CteReadsAreNamed(ctes[1..], names, w, schema);
      }
    }
  }

  /** `d` covers the CTE names that can ever be in scope below the node. */
  ghost predicate Covers(d: set<string>, n: Node) {
    forall c :: Within(c, n) && c.Cte? && c.alias != "" ==> Lower(c.alias) in d
  }

  lemma CoversBelow(d: set<string>, c: Node, n: Node)
    requires c in Children(n) && Covers(d, n)
    ensures Covers(d, c)
  {
  }

  lemma {:induction false} NamesCovered(ns: seq<Node>, names: set<string>, d: set<string>, n: Node)
    requires names <= d && Covers(d, n) && forall c :: c in ns ==> c in Children(n)
    ensures ExtendNames(ns, names) <= d
  {
    if ns != [] {
      if ns[0].With? {
        CoversBelow(d, ns[0], n);
        CteNamesCovered(ns[0].ctes, names, d, ns[0]);
        NamesCovered(ns[1..], CteNames(ns[0].ctes, names), d, n);
      } else {
        NamesCovered(ns[1..], names, d, n);
      }
    }
  }

  lemma {:induction false} CteNamesCovered(ctes: seq<Node>, names: set<string>, d: set<string>, w: Node)
    requires names <= d && Covers(d, w) && forall c :: c in ctes ==> c in Children(w)
    ensures CteNames(ctes, names) <= d
  {
    if ctes != [] {
      assert Within(ctes[0], ctes[0]) && Within(ctes[0], w);
      var more := if ctes[0].Cte? && ctes[0].alias != "" then names + {Lower(ctes[0].alias)} else names;
      CteNamesCovered(ctes[1..], more, d, w);
    }
  }

  /** A table whose name no CTE can have is read, wherever it stands. */
  lemma {:induction false} OtherTablesAreRead(t: Node, n: Node, names: set<string>, d: set<string>, schema: string)
    requires Within(t, n) && t.Table? && Lower(t.name) !in d && names <= d && Covers(d, n)
    ensures TableKey(t, schema) in Reads(n, names, schema)
    decreases n, 2
  {
    if t != n {
      var c :| c in Children(n) && Within(t, c);
      CoversBelow(d, c, n);
      match n
      case Select(projections, clauses, limit) =>
        NamesCovered(clauses, names, d, n);
        var inner := ExtendNames(clauses, names);
        if c in projections { OneIsRead(t, c, projections, inner, d, schema); }
        else if c in clauses { OneIsRead(t, c, clauses, inner, d, schema); }
        else { OtherTablesAreRead(t, limit.value, inner, d, schema); }
      case Subquery(_, body, parts) =>
        NamesCovered(parts, names, d, n);
        if c in parts { OneIsRead(t, c, parts, ExtendNames(parts, names), d, schema); }
        else { OtherTablesAreRead(t, body, ExtendNames(parts, names), d, schema); }
      case Other(_, _, parts) =>
        NamesCovered(parts, names, d, n);
        OneIsRead(t, c, parts, ExtendNames(parts, names), d, schema);
      case Table(_, _, _, parts) => OneIsRead(t, c, parts, names, d, schema);
      case With(ctes) => OneIsRead(t, c, ctes, names, d, schema);
      case Func(_, _, parts) => OneIsRead(t, c, parts, names, d, schema);
      case Anonymous(_, parts) => OneIsRead(t, c, parts, names, d, schema);
      case Write(_, parts) => OneIsRead(t, c, parts, names, d, schema);
      case Cte(_, body) => OtherTablesAreRead(t, body, names, d, schema);
      case Aliased(_, body) => OtherTablesAreRead(t, body, names, d, schema);
      case LimitNode(count) => OtherTablesAreRead(t, count, names, d, schema);
    }
  }

  lemma {:induction false} OneIsRead(t: Node, c: Node, ns: seq<Node>, names: set<string>, d: set<string>,
                                     schema: string)
    requires c in ns && Within(t, c) && t.Table? && Lower(t.name) !in d && names <= d && Covers(d, c)
    ensures TableKey(t, schema) in ReadsAll(ns, names, schema)
    decreases ns, 0
  {
    if c == ns[0] {
      OtherTablesAreRead(t, c, names, d, schema);
    } else {
      OneIsRead(t, c, ns[1..], names, d, schema);
    }
  }

  lemma DerivedCoversCtes(root: Node)
    ensures Covers(Derived(root).Keys, root)
  {
    forall c | Within(c, root) && c.Cte? && c.alias != ""
      ensures Lower(c.alias) in Derived(root)
    {
      FindsExactly(c, root, IsCte);
      AliasIsDerived(c, FindAll(root, IsCte));
    }
  }

  lemma {:induction false} AliasIsDerived(c: Node, ns: seq<Node>)
    requires c in ns && (c.Cte? || c.Subquery?) && c.alias != "" && forall n :: n in ns ==> n.Cte? || n.Subquery?
    ensures Lower(c.alias) in OutputsByAlias(ns)
  {
    if c != ns[|ns| - 1] {
      AliasIsDerived(c, ns[..|ns| - 1]);
    }
  }

  /** The tables reported as used, as keys of the database. */
  function Used(tables: set<string>, schema: string): set<(string, string)> {
    set x | x in tables :: (schema, x)
  }

  /** Every stored table that the query reads has a name that no CTE or subquery of
      the tree carries: a table node with such a name denotes that derived table. */
  predicate NoStrayReads(root: Node, schema: string) {
    forall k :: k in Reads(root, {}, schema) ==> k.1 !in Derived(root)
  }

  /** The reported tables are exactly the stored tables an accepted query reads if
      and only if every table node named like a CTE or subquery denotes it. */
  lemma ReportedTablesAreReadIff(parsed: Parsed, allow: Allowlist, limit: int, schema: string)
    requires Guard(parsed, allow, limit, schema).Ok?
    ensures var r := Guard(parsed, allow, limit, schema).value;
            Reads(r.tree, {}, schema) == Used(r.tables, schema) <==> NoStrayReads(r.tree, schema)
    ensures var r := Guard(parsed, allow, limit, schema).value;
            Used(r.tables, schema) <= Reads(r.tree, {}, schema)
  {
    var r := Guard(parsed, allow, limit, schema).value;
    AcceptedReferencesAreSound(parsed, allow, limit, schema);
    DerivedCoversCtes(r.tree);
    forall k | k in Used(r.tables, schema)
      ensures k in Reads(r.tree, {}, schema) && k.1 !in Derived(r.tree)
    {
      var t :| Within(t, r.tree) && t.Table? && Lower(t.name) == k.1;
      InSchemaIff(t.db, schema);
      OtherTablesAreRead(t, r.tree, {}, Derived(r.tree).Keys, schema);
    }
    ReadsAreNamed(r.tree, {}, schema);
    if NoStrayReads(r.tree, schema) {
      forall k | k in Reads(r.tree, {}, schema)
        ensures k in Used(r.tables, schema)
      {
        var t :| Within(t, r.tree) && t.Table? && k == TableKey(t, schema);
        InSchemaIff(t.db, schema);
        assert Lower(t.name) !in Derived(r.tree);
      }
    }
  }

  /** When they do, the rows of the guarded query are the same in any two databases
      that agree on the tables reported as used. */
  lemma GuardedRowsDependOnReportedTables(parsed: Parsed, allow: Allowlist, limit: int, e: Engine, f: Engine,
                                          outer: Row)
    requires Guard(parsed, allow, limit, e.schema).Ok?
    requires NoStrayReads(Guard(parsed, allow, limit, e.schema).value.tree, e.schema)
    requires Agree(e, f, Used(Guard(parsed, allow, limit, e.schema).value.tables, e.schema))
    ensures var tree := Guard(parsed, allow, limit, e.schema).value.tree;
            Eval(tree, map[], e)(outer) == Eval(tree, map[], f)(outer)
  {
    ReportedTablesAreReadIff(parsed, allow, limit, e.schema);
    var none: Env := map[];
    assert none.Keys == {};
    ReadsDecide(Guard(parsed, allow, limit, e.schema).value.tree, none, e, f);
  }

  // ------------------------------------------------------------- without the condition

  /** `(SELECT ...) AS s`, joined to a stored table of that name. */
  function Shadowing(s: string): Node {
    Other("join", "", [Subquery(s, Select([], [], None), [])])
  }

  /** `FROM s AS t`, with a table alias of its own. */
  function StrayTable(s: string): Node {
    Table(s, "", "t", [])
  }

  function StrayFrom(s: string): Node {
    Other("from", "", [StrayTable(s)])
  }

  /** `SELECT ... FROM s AS t, (SELECT ...) AS s`: outside the subquery `s` is a stored
      table, but a subquery of the tree has its name for an alias. */
  function Shadowed(s: string): Node {
    Select([], [StrayFrom(s), Shadowing(s)], None)
  }

  /** What the nodes of that tree can be. */
  predicate IsPlain(x: Node, s: string) {
    x.Select? || x.Other? || x.Subquery? || x == StrayTable(s) || x.LimitNode? || x.IntLiteral?
  }

  lemma LeafOnly(x: Node, leaf: Node)
    requires Children(leaf) == [] && Within(x, leaf)
    ensures x == leaf
  {
  }

  /** A node with one child. */
  lemma OneBelow(x: Node, n: Node, child: Node)
    requires Children(n) == [child] && Within(x, n)
    ensures x == n || Within(x, child)
  {
    if x != n {
      var c :| c in Children(n) && Within(x, c);
      assert c == child;
    }
  }

  lemma NodesOfChild(x: Node, c: Node, s: string, limit: int)
    requires c == StrayFrom(s) || c == Shadowing(s) || c == LimitNode(IntLiteral(limit))
    requires Within(x, c)
    ensures IsPlain(x, s)
  {
    if c == StrayFrom(s) {
      OneBelow(x, c, StrayTable(s));
      if x != c { LeafOnly(x, StrayTable(s)); }
    } else if c == Shadowing(s) {
      var sub, inner := c.parts[0], Select([], [], None);
      OneBelow(x, c, sub);
      if x != c {
        OneBelow(x, sub, inner);
        if x != sub { LeafOnly(x, inner); }
      }
    } else {
      OneBelow(x, c, IntLiteral(limit));
      if x != c { LeafOnly(x, IntLiteral(limit)); }
    }
  }

  lemma ShadowedChildren(c: Node, root: Node, s: string, limit: int)
    requires root == Shadowed(s) || root == LimitedTo(Shadowed(s), limit)
    requires c in Children(root)
    ensures c == StrayFrom(s) || c == Shadowing(s) || c == LimitNode(IntLiteral(limit))
  {
  }

  lemma NodesOfShadowed(x: Node, root: Node, s: string, limit: int)
    requires root == Shadowed(s) || root == LimitedTo(Shadowed(s), limit)
    requires Within(x, root)
    ensures IsPlain(x, s)
  {
    if x != root {
      var c :| c in Children(root) && Within(x, c);
      ShadowedChildren(c, root, s, limit);
      NodesOfChild(x, c, s, limit);
    }
  }

  lemma SubqueryIsThere(s: string, limit: int)
    ensures Within(Shadowing(s).parts[0], LimitedTo(Shadowed(s), limit))
  {
    var root, join_, sub := LimitedTo(Shadowed(s), limit), Shadowing(s), Shadowing(s).parts[0];
    assert join_ == root.clauses[1] && root.clauses[1] in Children(root);
    assert sub in Children(join_);
    assert Within(sub, sub) && Within(sub, join_);
  }

  lemma ShadowedFits(s: string, limit: int, schema: string)
    requires s != ""
    ensures TreeFits(LimitedTo(Shadowed(s), limit), map[], schema)
  {
    var root, sub := LimitedTo(Shadowed(s), limit), Shadowing(s).parts[0];
    var tables := FindAll(root, IsTable);
    SubqueryIsThere(s, limit);
    FindsExactly(sub, root, IsSubquery);
    AliasIsDerived(sub, FindAll(root, IsSubquery));
    assert Lower(s) in Derived(root);
    forall i | 0 <= i < |tables|
      ensures TableFits(tables, i, Derived(root).Keys, map[], schema)
    {
      FindsExactly(tables[i], root, IsTable);
      NodesOfShadowed(tables[i], root, s, limit);
    }
    forall c | Within(c, root) ensures !c.Column? { NodesOfShadowed(c, root, s, limit); }
  }

  lemma StrayFromReads(s: string, schema: string)
    ensures (schema, Lower(s)) in Reads(StrayFrom(s), {}, schema)
  {
    var tab := StrayTable(s);
    assert ExtendNames([tab], {}) == {};
    assert TableKey(tab, schema) in Reads(tab, {}, schema);
    assert TableKey(tab, schema) in ReadsAll([tab], {}, schema);
  }

  lemma ShadowedReads(s: string, limit: int, schema: string)
    ensures (schema, Lower(s)) in Reads(LimitedTo(Shadowed(s), limit), {}, schema)
  {
    var root := LimitedTo(Shadowed(s), limit);
    StrayFromReads(s, schema);
    assert root.clauses[1..] == [Shadowing(s)] && [Shadowing(s)][1..] == [];
    assert ExtendNames([Shadowing(s)], {}) == {} && ExtendNames(root.clauses, {}) == {};
    assert (schema, Lower(s)) in ReadsAll(root.clauses, {}, schema);
  }

  /** The condition cannot be left out: with no table allowed at all, the guard
      accepts that query for every name, reports no table, and the query still
      reads the stored table of that name. */
  lemma StrayReadIsNotReported(s: string, limit: int, schema: string)
    requires s != "" && limit > 0
    ensures var r := Guard(Statements([Shadowed(s)]), map[], limit, schema);
            r.Ok? && r.value.tables == {} && (schema, Lower(s)) in Reads(r.value.tree, {}, schema)
  {
    forall x | Within(x, Shadowed(s)) ensures !x.Write? && !CallsListed(x) {
      NodesOfShadowed(x, Shadowed(s), s, limit);
    }
    ShadowedFits(s, limit, schema);
    GuardAcceptsIff(Statements([Shadowed(s)]), map[], limit, schema);
    ReportedTablesAreAllowed(Statements([Shadowed(s)]), map[], limit, schema);
    ShadowedReads(s, limit, schema);
  }
}
