/**
 The SQL guard (app/sql_agent/validation/sql_guard.py): which parsed statements it
 accepts, with which tables and columns, and the tree it hands on.

 Parsing and printing belong to sqlglot; the guard here starts from the parsed
 statements and ends with a tree. Names are compared after lowering ASCII letters.
 */
module SqlGuard {
  import opened Wrappers
  import opened SqlTree

  type Allowlist = map<string, set<string>>

  datatype ErrorCode =
    | ParseError | MultiStatement | NonSelect | WriteOperation | DangerousFunction
    | UnknownTable | UnknownColumn | AmbiguousColumn | InvalidLimit

  /** What sqlglot makes of a text: an error, or the statements in it. */
  datatype Parsed = Unparsable | Statements(trees: seq<Node>)

  datatype GuardResult = GuardResult(tree: Node, tables: set<string>, columns: set<(string, string)>)

  const DANGEROUS_FUNCTIONS: set<string> :=
    {"copy", "dblink", "dblink_connect", "dblink_exec", "lo_export", "lo_import",
     "pg_execute_server_program", "pg_ls_dir", "pg_read_binary_file", "pg_read_file", "pg_stat_file"}

  // ------------------------------------------------------------------------ names

  function LowerChar(c: char): char {
    if 'A' <= c <= 'Z' then (c as int + 32) as char else c
  }

  function Lower(s: string): string {
    seq(|s|, i requires 0 <= i < |s| => LowerChar(s[i]))
  }

  function Decimal(v: int): string
    decreases if v < 0 then 1 - v else v
  {
    if v < 0 then "-" + Decimal(-v)
    else if v < 10 then [('0' as int + v) as char]
    else Decimal(v / 10) + Decimal(v % 10)
  }

  function Alias(n: Node): string {
    match n
    case Aliased(alias, _) => alias
    case Table(_, _, alias, _) => alias
    case Subquery(alias, _, _) => alias
    case Cte(alias, _) => alias
    case _ => ""
  }

  function Name(n: Node): string {
    match n
    case Table(name, _, _, _) => name
    case Column(name, _, _, star) => if star then "*" else name
    case Func(_, text, _) => text
    case Anonymous(name, _) => name
    case IntLiteral(value) => Decimal(value)
    case Other(_, text, _) => text
    case _ => ""
  }

  function AliasOrName(n: Node): string {
    if Alias(n) != "" then Alias(n) else Name(n)
  }

  predicate IsTable(n: Node) { n.Table? }
  predicate IsColumn(n: Node) { n.Column? }
  predicate IsCte(n: Node) { n.Cte? }
  predicate IsSubquery(n: Node) { n.Subquery? }
  predicate IsSelect(n: Node) { n.Select? }
  predicate IsWrite(n: Node) { n.Write? }

  predicate IsDangerousName(name: string) {
    name in DANGEROUS_FUNCTIONS || "lo_" <= name
  }

  /** A built-in function by its class name, or an unknown one by its own name. */
  predicate IsDangerous(n: Node) {
    || (n.Func? && IsDangerousName(Lower(n.sqlName)))
    || (n.Anonymous? && IsDangerousName(Lower(n.name)))
  }

  // ---------------------------------------------------------------- the reference index

  function SelectOutputNames(n: Node): set<string> {
    if n.Select? then set p | p in n.projections && AliasOrName(p) != "" :: Lower(AliasOrName(p)) else {}
  }

  /** The output names of the CTEs or subqueries of a list, by alias; a later one
      hides an earlier one of the same name. */
  function OutputsByAlias(ns: seq<Node>): map<string, set<string>>
    requires forall n :: n in ns ==> n.Cte? || n.Subquery?
  {
    if ns == [] then map[]
    else
      var last := ns[|ns| - 1];
      var before := OutputsByAlias(ns[..|ns| - 1]);
      if last.alias == "" then before else before[Lower(last.alias) := SelectOutputNames(last.body)]
  }

  function Derived(root: Node): map<string, set<string>> {
    OutputsByAlias(FindAll(root, IsCte)) + OutputsByAlias(FindAll(root, IsSubquery))
  }

  function OutputAliases(selects: seq<Node>): set<string>
    requires forall s :: s in selects ==> s.Select?
  {
    set s, p | s in selects && p in s.projections && Alias(p) != "" :: Lower(Alias(p))
  }

  datatype Index = Index(aliasToTable: map<string, string>, physical: set<string>)

  const EMPTY_INDEX := Index(map[], {})

  function SchemaOf(db: string, schema: string): string {
    if db != "" then Lower(db) else schema
  }

  function AddTable(ix: Index, t: Node, derived: set<string>, allow: Allowlist, schema: string)
    : Result<Index, ErrorCode>
    requires t.Table?
  {
    var name, alias := Lower(t.name), Lower(AliasOrName(t));
    if name in derived then Ok(ix)
    else if SchemaOf(t.db, schema) != schema || name !in allow then Err(UnknownTable)
    else if alias in ix.aliasToTable && ix.aliasToTable[alias] != name then Err(UnknownTable)
    else
      var named := ix.aliasToTable[alias := name];
      Ok(Index(if name in named then named else named[name := name], ix.physical + {name}))
  }

  function IndexTables(tables: seq<Node>, derived: set<string>, allow: Allowlist, schema: string)
    : Result<Index, ErrorCode>
    requires forall t :: t in tables ==> t.Table?
  {
    if tables == [] then Ok(EMPTY_INDEX)
    else
      var before := IndexTables(tables[..|tables| - 1], derived, allow, schema);
      if before.Err? then before else AddTable(before.value, tables[|tables| - 1], derived, allow, schema)
  }

  // ----------------------------------------------------------------------- columns

  predicate Allowed(allow: Allowlist, table: string, column: string) {
    table in allow && column in allow[table]
  }

  function Owners(column: string, physical: set<string>, allow: Allowlist): set<string> {
    set t | t in physical && Allowed(allow, t, column)
  }

  /** The names a column reference is checked against. */
  datatype Scope = Scope(index: Index, derived: map<string, set<string>>, outputs: set<string>)

  /** The table a column reference is counted for; `None` when it is accepted
      without one. */
  ghost function CheckColumn(c: Node, allow: Allowlist, scope: Scope, schema: string): Result<Option<string>, ErrorCode>
    requires c.Column?
  {
    var name, qualifier := Lower(c.name), Lower(c.table);
    if c.star then Ok(None)
    else if SchemaOf(c.db, schema) != schema then Err(UnknownColumn)
    else if c.table != "" then
      if qualifier in scope.index.aliasToTable then
        var t := scope.index.aliasToTable[qualifier];
        if Allowed(allow, t, name) then Ok(Some(t)) else Err(UnknownColumn)
      else if qualifier in scope.derived && (scope.derived[qualifier] == {} || name in scope.derived[qualifier]) then
        Ok(None)
      else Err(UnknownColumn)
    else if name in scope.outputs then Ok(None)
    else
      var owners := Owners(name, scope.index.physical, allow);
      if |owners| == 1 then (var t :| t in owners; Ok(Some(t)))
      else if |owners| > 1 then Err(AmbiguousColumn)
      else if exists d :: d in scope.derived && name in scope.derived[d] then Ok(None)
      else Err(UnknownColumn)
  }

  ghost function ColumnsUsed(columns: seq<Node>, allow: Allowlist, scope: Scope, schema: string)
    : Result<set<(string, string)>, ErrorCode>
    requires forall c :: c in columns ==> c.Column?
  {
    if columns == [] then Ok({})
    else
      var last := columns[|columns| - 1];
      var before := ColumnsUsed(columns[..|columns| - 1], allow, scope, schema);
      if before.Err? then before
      else
        match CheckColumn(last, allow, scope, schema)
        case Err(code) => Err(code)
        case Ok(None) => before
        case Ok(Some(t)) => Ok(before.value + {(t, Lower(last.name))})
  }

  // ------------------------------------------------------------------------ the guard

  function LimitedTo(n: Node, limit: int): Node
    requires n.Select?
  {
    n.(limit := Some(LimitNode(IntLiteral(limit))))
  }

  function EnforceLimit(n: Node, limit: int): Result<Node, ErrorCode>
    requires n.Select?
  {
    if n.limit.None? then Ok(LimitedTo(n, limit))
    else if !PlainLimit(n) then Err(InvalidLimit)
    else
      var value := n.limit.value.count.value;
      if value <= 0 then Err(InvalidLimit)
      else if value <= limit then Ok(n)
      else Ok(LimitedTo(n, limit))
  }

  function ScopeOf(root: Node, index: Index): Scope {
    Scope(index, Derived(root), OutputAliases(FindAll(root, IsSelect)))
  }

  ghost function CheckReferences(root: Node, allow: Allowlist, schema: string): Result<GuardResult, ErrorCode> {
    match IndexTables(FindAll(root, IsTable), Derived(root).Keys, allow, schema)
    case Err(code) => Err(code)
    case Ok(index) =>
      match ColumnsUsed(FindAll(root, IsColumn), allow, ScopeOf(root, index), schema)
      case Err(code) => Err(code)
      case Ok(used) => Ok(GuardResult(root, index.physical, used))
  }

  /** The checks on the statement as a whole, and its tree with the limit in place. */
  function Admit(parsed: Parsed, limit: int): Result<Node, ErrorCode> {
    if limit <= 0 then Err(InvalidLimit)
    else if parsed.Unparsable? then Err(ParseError)
    else if |parsed.trees| != 1 then Err(MultiStatement)
    else if !parsed.trees[0].Select? then Err(NonSelect)
    else if FindAll(parsed.trees[0], IsWrite) != [] then Err(WriteOperation)
    else if FindAll(parsed.trees[0], IsDangerous) != [] then Err(DangerousFunction)
    else EnforceLimit(parsed.trees[0], limit)
  }

  ghost function Guard(parsed: Parsed, allow: Allowlist, limit: int, schema: string): Result<GuardResult, ErrorCode> {
    match Admit(parsed, limit)
    case Err(code) => Err(code)
    case Ok(limited) => CheckReferences(limited, allow, schema)
  }
}
