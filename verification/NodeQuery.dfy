/**
  The statements that select nodes: how they are put together from parts of other statements, and
  which rows they select.
 */
module NodeQuery {
  import opened Wrappers
  import opened Roles
  import opened RoleSearch

  datatype Node = Node(member: string, name: string, role: string, machineId: int, systemId: string,
                       arch: string, isDPU: bool, imageName: string)

  datatype NodeFilter =
    NodeFilter(member: Option<string>, name: Option<string>, role: Option<string>, machineId: Option<int>)

  datatype Arg = Text(text: string) | Integer(n: int)

  datatype Column = Member | Name | Role | MachineID

  /** A statement as a sequence of words. */
  type Statement = seq<string>

  const ORDER_BY := "ORDER BY"

  const SELECT: Statement := [
    "SELECT", "nodes.id,", "core_cluster_members.name", "AS", "member,", "nodes.name,", "nodes.role,",
    "nodes.machine_id,", "nodes.system_id,", "nodes.arch,", "nodes.is_dpu,", "nodes.image_name",
    "FROM", "nodes", "JOIN", "core_cluster_members", "ON", "nodes.member_id", "=", "core_cluster_members.id"]

  function ColumnName(c: Column): string {
    match c
    case Member => "member"
    case Name => "nodes.name"
    case Role => "nodes.role"
    case MachineID => "nodes.machine_id"
  }

  function Clause(c: Column): Statement { ["(", ColumnName(c), "=", "?", ")"] }

  const NODE_OBJECTS: Statement := SELECT + [ORDER_BY] + ["nodes.name"]

  function Filtered(condition: Statement): Statement {
    SELECT + ["WHERE"] + condition + [ORDER_BY] + ["nodes.name"]
  }

  /** nodeObjectsByMember, nodeObjectsByName, nodeObjectsByRole and nodeObjectsByMachineID */
  function NodeObjectsBy(c: Column): Statement {
    Filtered(Clause(c))
  }

  /** The text before the first `sep`, the text after it, and whether there is one. */
  function Cut(words: Statement, sep: string): (r: (Statement, Statement, bool))
    ensures r.2 <==> sep in words
  {
    if words == [] then ([], [], false)
    else if words[0] == sep then ([], words[1..], true)
    else var r := Cut(words[1..], sep); ([words[0]] + r.0, r.1, r.2)
  }

  lemma {:induction false} CutAt(a: Statement, sep: string, b: Statement)
    requires sep !in a
    ensures Cut(a + [sep] + b, sep) == (a, b, true)
  {
    if a == [] {
      assert (a + [sep] + b)[1..] == b;
    } else {
      CutAt(a[1..], sep, b);
      assert (a + [sep] + b)[1..] == a[1..] + [sep] + b;
      assert a == [a[0]] + a[1..];
    }
  }

  lemma {:induction false} CutNowhere(a: Statement, sep: string)
    requires sep !in a
    ensures Cut(a, sep) == (a, [], false)
  {
    if a != [] {
      CutNowhere(a[1..], sep);
      assert a == [a[0]] + a[1..];
    }
  }

  // ------------------------------------------------------------------ what a statement selects

  datatype Term = Equals(column: Column) | ShowsRole

  function ParseTerm(words: Statement): (r: Option<(Term, Statement)>)
    ensures r.Some? ==> |r.value.1| < |words|
  {
    if |words| >= 5 && words[0] == "(" && words[2..5] == ["=", "?", ")"] then
      match words[1]
      case "member" => Some((Equals(Member), words[5..]))
      case "nodes.name" => Some((Equals(Name), words[5..]))
      case "nodes.role" => Some((Equals(Role), words[5..]))
      case "nodes.machine_id" => Some((Equals(MachineID), words[5..]))
      case _ => None
    else if |words| >= 4 && words[..4] == ["instr(nodes.role,", "?)", ">", "0"] then Some((ShowsRole, words[4..]))
    else None
  }

  /** AND binds more tightly than OR. */
  function ParseAnd(words: Statement): (r: Option<(seq<Term>, Statement)>)
    ensures r.Some? ==> |r.value.1| < |words|
    decreases |words|
  {
    match ParseTerm(words)
    case None => None
    case Some((term, rest)) =>
      if rest == [] || rest[0] != "AND" then Some(([term], rest))
      else
        match ParseAnd(rest[1..])
        case None => None
        case Some((terms, after)) => Some(([term] + terms, after))
  }

  function ParseOr(words: Statement): Option<seq<seq<Term>>>
    decreases |words|
  {
    match ParseAnd(words)
    case None => None
    case Some((terms, rest)) =>
      if rest == [] then Some([terms])
      else if rest[0] != "OR" then None
      else
        match ParseOr(rest[1..])
        case None => None
        case Some(others) => Some([terms] + others)
  }

  function ColumnOf(row: Node, c: Column): Arg {
    match c
    case Member => Text(row.member)
    case Name => Text(row.name)
    case Role => Text(row.role)
    case MachineID => Integer(row.machineId)
  }

  predicate Holds(term: Term, arg: Arg, row: Node) {
    match term
    case Equals(column) => ColumnOf(row, column) == arg
    case ShowsRole => arg.Text? && Occurs(row.role, arg.text)
  }

  /** Placeholders take the arguments in order. */
  predicate AllHold(terms: seq<Term>, args: seq<Arg>, row: Node)
    requires |terms| == |args|
  {
    forall i :: 0 <= i < |terms| ==> Holds(terms[i], args[i], row)
  }

  function Placeholders(terms: seq<seq<Term>>): nat {
    if terms == [] then 0 else |terms[0]| + Placeholders(terms[1..])
  }

  predicate SomeHolds(terms: seq<seq<Term>>, args: seq<Arg>, row: Node)
    requires Placeholders(terms) == |args|
  {
    terms != [] &&
    (AllHold(terms[0], args[..|terms[0]|], row) || SomeHolds(terms[1..], args[|terms[0]|..], row))
  }

  /** The condition of a statement that lists nodes by name. */
  datatype Condition = Always | Where(terms: seq<seq<Term>>)

  function Parse(stmt: Statement): Option<Condition> {
    var ordered := Cut(stmt, ORDER_BY);
    if ordered.1 != ["nodes.name"] then None else ParseFront(ordered.0)
  }

  function ParseFront(front: Statement): Option<Condition> {
    var filtered := Cut(front, "WHERE");
    if filtered.0 != SELECT then None
    else if !filtered.2 then Some(Always)
    else
      match ParseOr(filtered.1)
      case None => None
      case Some(terms) => Some(Where(terms))
  }

  /** The database accepts the statement with these arguments. */
  predicate Runs(stmt: Statement, args: seq<Arg>) {
    match Parse(stmt)
    case None => false
    case Some(Always) => args == []
    case Some(Where(terms)) => Placeholders(terms) == |args|
  }

  predicate Selects(stmt: Statement, args: seq<Arg>, row: Node)
    requires Runs(stmt, args)
  {
    Parse(stmt).value.Where? ==> SomeHolds(Parse(stmt).value.terms, args, row)
  }

  // ------------------------------------------------------------------ GetNodes

  /** The one column that a filter is for. */
  function OnlyColumn(f: NodeFilter): Option<(Column, Arg)> {
    match f
    case NodeFilter(None, None, Some(role), None) => Some((Role, Text(role)))
    case NodeFilter(None, Some(name), None, None) => Some((Name, Text(name)))
    case NodeFilter(Some(member), None, None, None) => Some((Member, Text(member)))
    case NodeFilter(None, None, None, Some(id)) => Some((MachineID, Integer(id)))
    case _ => None
  }

  function Given<T>(field: Option<T>): nat { if field.Some? then 1 else 0 }

  /** A filter is accepted exactly when it is on one column. */
  lemma OnlyColumnIff(f: NodeFilter)
    ensures OnlyColumn(f).Some? <==>
            Given(f.member) + Given(f.name) + Given(f.role) + Given(f.machineId) == 1
  {
  }

  ghost predicate Matches(f: NodeFilter, row: Node) {
    && (f.member.Some? ==> row.member == f.member.value)
    && (f.name.Some? ==> row.name == f.name.value)
    && (f.role.Some? ==> row.role == f.role.value)
    && (f.machineId.Some? ==> row.machineId == f.machineId.value)
  }

  function Alternatives(columns: seq<Column>): Statement {
    if columns == [] then []
    else
      var n := |columns| - 1;
      if n == 0 then Clause(columns[n]) else Alternatives(columns[..n]) + ["OR"] + Clause(columns[n])
  }

  function ColumnsOf(filters: seq<NodeFilter>): (columns: seq<Column>)
    requires forall f <- filters :: OnlyColumn(f).Some?
    ensures |columns| == |filters|
    ensures forall i :: 0 <= i < |filters| ==> columns[i] == OnlyColumn(filters[i]).value.0
  {
    seq(|filters|, i requires 0 <= i < |filters| => assert filters[i] in filters; OnlyColumn(filters[i]).value.0)
  }

  function ArgsOf(filters: seq<NodeFilter>): (args: seq<Arg>)
    requires forall f <- filters :: OnlyColumn(f).Some?
    ensures |args| == |filters|
    ensures forall i :: 0 <= i < |filters| ==> args[i] == OnlyColumn(filters[i]).value.1
  {
    seq(|filters|, i requires 0 <= i < |filters| => assert filters[i] in filters; OnlyColumn(filters[i]).value.1)
  }

  lemma SelectIsPlain()
    ensures ORDER_BY !in SELECT && "WHERE" !in SELECT
  {
  }

  lemma PartsOfFiltered(condition: Statement)
    requires ORDER_BY !in condition
    ensures Cut(Filtered(condition), ORDER_BY) == (SELECT + ["WHERE"] + condition, ["nodes.name"], true)
    ensures Cut(SELECT + ["WHERE"] + condition, "WHERE") == (SELECT, condition, true)
    ensures Parse(Filtered(condition)) ==
            if ParseOr(condition).None? then None else Some(Where(ParseOr(condition).value))
  {
    SelectIsPlain();
    CutAt(SELECT + ["WHERE"] + condition, ORDER_BY, ["nodes.name"]);
    CutAt(SELECT, "WHERE", condition);
  }

  lemma NodeObjectsParses()
    ensures Cut(NODE_OBJECTS, ORDER_BY) == (SELECT, ["nodes.name"], true)
    ensures Parse(NODE_OBJECTS) == Some(Always)
  {
    SelectIsPlain();
    CutAt(SELECT, ORDER_BY, ["nodes.name"]);
    CutNowhere(SELECT, "WHERE");
  }

  lemma ClauseParses(c: Column, rest: Statement)
    ensures ParseTerm(Clause(c) + rest) == Some((Equals(c), rest))
  {
    var words := Clause(c) + rest;
    assert words[2..5] == ["=", "?", ")"] && words[5..] == rest;
  }

  lemma {:induction false} FirstAlternative(columns: seq<Column>)
    requires |columns| > 1
    ensures Alternatives(columns) == Clause(columns[0]) + (["OR"] + Alternatives(columns[1..]))
  {
    var n := |columns| - 1;
    if n > 1 {
      FirstAlternative(columns[..n]);
      assert columns[..n][1..] == columns[1..][..n - 1] && columns[1..][n - 1] == columns[n];
      assert Alternatives(columns[1..]) == Alternatives(columns[1..][..n - 1]) + ["OR"] + Clause(columns[n]);
    }
  }

  function Each(columns: seq<Column>): (terms: seq<seq<Term>>) {
    if columns == [] then [] else [[Equals(columns[0])]] + Each(columns[1..])
  }

  lemma {:induction false} AlternativesParse(columns: seq<Column>)
    requires columns != []
    ensures ParseOr(Alternatives(columns)) == Some(Each(columns))
    ensures ORDER_BY !in Alternatives(columns)
  {
    var c := columns[0];
    if |columns| == 1 {
      ClauseParses(c, []);
      assert Clause(c) + [] == Clause(c);
      assert Each(columns[1..]) == [] && Each(columns) == [[Equals(c)]];
    } else {
      FirstAlternative(columns);
      AlternativesParse(columns[1..]);
      var rest := ["OR"] + Alternatives(columns[1..]);
      ClauseParses(c, rest);
      assert rest[1..] == Alternatives(columns[1..]);
    }
  }

  lemma FirstHolds(c: Column, terms: seq<seq<Term>>, args: seq<Arg>, row: Node)
    requires |args| == 1 + Placeholders(terms)
    ensures Placeholders([[Equals(c)]] + terms) == |args|
    ensures SomeHolds([[Equals(c)]] + terms, args, row) <==> ColumnOf(row, c) == args[0] || SomeHolds(terms, args[1..], row)
  {
    assert ([[Equals(c)]] + terms)[1..] == terms && args[..1] == [args[0]];
  }

  lemma {:induction false} AlternativesHold(filters: seq<NodeFilter>, args: seq<Arg>, row: Node)
    requires (forall f <- filters :: OnlyColumn(f).Some?) && args == ArgsOf(filters)
    ensures Placeholders(Each(ColumnsOf(filters))) == |args|
    ensures SomeHolds(Each(ColumnsOf(filters)), args, row) <==> exists f <- filters :: Matches(f, row)
  {
    if filters != [] {
      var f, c := filters[0], OnlyColumn(filters[0]).value.0;
      AlternativesHold(filters[1..], args[1..], row);
      assert ColumnsOf(filters)[1..] == ColumnsOf(filters[1..]);
      FirstHolds(c, Each(ColumnsOf(filters[1..])), args, row);
      assert ColumnOf(row, c) == args[0] <==> Matches(f, row);
    }
  }

  /** The database accepts the statement, which selects the rows that match a filter; all rows without filters. */
  ghost predicate SelectsMatching(stmt: Statement, args: seq<Arg>, filters: seq<NodeFilter>) {
    Runs(stmt, args) && forall row ::
      Selects(stmt, args, row) <==> filters == [] || exists f <- filters :: Matches(f, row)
  }

  ghost predicate Simple(filters: seq<NodeFilter>) {
    forall f <- filters :: OnlyColumn(f).Some?
  }

  /** Every filter is on one column and no more. */
  ghost predicate OnOneColumn(filters: seq<NodeFilter>) {
    forall f <- filters :: Given(f.member) + Given(f.name) + Given(f.role) + Given(f.machineId) == 1
  }

  lemma SimpleIff(filters: seq<NodeFilter>)
    ensures Simple(filters) <==> OnOneColumn(filters)
  {
    forall f | f in filters
      ensures OnlyColumn(f).Some? <==> Given(f.member) + Given(f.name) + Given(f.role) + Given(f.machineId) == 1
    {
      OnlyColumnIff(f);
    }
  }

  /** The parts of the statement, and the arguments, after some filters. */
  ghost predicate Built(filters: seq<NodeFilter>, parts: (Statement, Statement), args: seq<Arg>) {
    && Simple(filters) && args == ArgsOf(filters)
    && (filters != [] ==> parts == (SELECT + ["WHERE"] + Alternatives(ColumnsOf(filters)), ["nodes.name"]))
  }

  /** The statement and its arguments, or an error for a filter on no or several columns. */
  method GetNodesStatement(filters: seq<NodeFilter>) returns (r: Option<(Statement, seq<Arg>)>)
    ensures r.Some? <==> Simple(filters)
    ensures r.Some? <==> OnOneColumn(filters)
    ensures r.Some? ==> SelectsMatching(r.value.0, r.value.1, filters)
  {
    SimpleIff(filters);
    if filters == [] {
      NodeObjectsParses();
      return Some((NODE_OBJECTS, []));
    }
    var args: seq<Arg> := [];
    var parts: (Statement, Statement) := ([], []);
    for i := 0 to |filters|
      invariant i > 0 ==> |filters| > 1
      invariant Built(filters[..i], parts, args)
    {
      var only := OnlyColumn(filters[i]);
      if only.None? {
        assert filters[i] in filters;
        return None;
      }
      ghost var before := filters[..i];
      assert filters[..i + 1] == before + [filters[i]];
      if |filters| == 1 {
        OnlyFilter(filters);
        assert args == [] && args + [only.value.1] == [only.value.1];
        return Some((NodeObjectsBy(only.value.0), args + [only.value.1]));
      }
      if i == 0 {
        FirstFilter(filters[0]);
        assert args == [] && before == [];
      } else {
        BuiltFurther(before, parts, args, filters[i]);
      }
      parts := AddClause(parts, only.value.0, i == 0);
      args := args + [only.value.1];
    }
    assert filters[..|filters|] == filters;
    JoinedStatement(filters, parts, args);
    r := Some((parts.0 + [ORDER_BY] + parts.1, args));
  }

  /** Adds the condition of the statement for a column. */
  method AddClause(parts: (Statement, Statement), c: Column, first: bool) returns (parts': (Statement, Statement))
    ensures parts' == if first then (SELECT + ["WHERE"] + Clause(c), ["nodes.name"])
                      else (parts.0 + (["OR"] + Clause(c)), parts.1)
  {
    PartsOfFiltered(Clause(c));
    var split := Cut(NodeObjectsBy(c), ORDER_BY);
    if first {
      return (split.0, split.1);
    }
    var where := Cut(split.0, "WHERE").1;
    parts' := (parts.0 + (["OR"] + where), parts.1);
  }

  lemma JoinedStatement(filters: seq<NodeFilter>, parts: (Statement, Statement), args: seq<Arg>)
    requires filters != [] && Built(filters, parts, args)
    ensures SelectsMatching(parts.0 + [ORDER_BY] + parts.1, args, filters)
  {
    BuiltStatement(filters, args);
  }

  lemma FirstFilter(f: NodeFilter)
    requires OnlyColumn(f).Some?
    ensures Simple([f]) && Alternatives(ColumnsOf([f])) == Clause(OnlyColumn(f).value.0)
    ensures ArgsOf([f]) == [OnlyColumn(f).value.1]
  {
  }

  lemma OnlyFilter(filters: seq<NodeFilter>)
    requires |filters| == 1 && OnlyColumn(filters[0]).Some?
    ensures Simple(filters)
    ensures SelectsMatching(NodeObjectsBy(OnlyColumn(filters[0]).value.0), [OnlyColumn(filters[0]).value.1], filters)
  {
    assert filters == [filters[0]];
    FirstFilter(filters[0]);
    BuiltStatement(filters, ArgsOf(filters));
  }

  lemma BuiltFurther(filters: seq<NodeFilter>, parts: (Statement, Statement), args: seq<Arg>, f: NodeFilter)
    requires filters != [] && Built(filters, parts, args) && OnlyColumn(f).Some?
    ensures Built(filters + [f], (parts.0 + (["OR"] + Clause(OnlyColumn(f).value.0)), parts.1),
              args + [OnlyColumn(f).value.1])
  {
    OneMoreAlternative(filters, f);
  }

  lemma OneMoreAlternative(filters: seq<NodeFilter>, f: NodeFilter)
    requires filters != [] && OnlyColumn(f).Some? && forall f <- filters :: OnlyColumn(f).Some?
    ensures SELECT + ["WHERE"] + Alternatives(ColumnsOf(filters)) + (["OR"] + Clause(OnlyColumn(f).value.0)) ==
            SELECT + ["WHERE"] + Alternatives(ColumnsOf(filters + [f]))
  {
    assert ColumnsOf(filters + [f]) == ColumnsOf(filters) + [OnlyColumn(f).value.0];
    assert ColumnsOf(filters + [f])[..|filters|] == ColumnsOf(filters);
  }

  lemma BuiltStatementSelectsRow(stmt: Statement, filters: seq<NodeFilter>, args: seq<Arg>, row: Node)
    requires Simple(filters) && args == ArgsOf(filters) && Parse(stmt) == Some(Where(Each(ColumnsOf(filters))))
    ensures Runs(stmt, args)
    ensures Selects(stmt, args, row) <==> exists f <- filters :: Matches(f, row)
  {
    AlternativesHold(filters, args, row);
  }

  lemma BuiltStatement(filters: seq<NodeFilter>, args: seq<Arg>)
    requires filters != [] && Simple(filters) && args == ArgsOf(filters)
    ensures SelectsMatching(Filtered(Alternatives(ColumnsOf(filters))), args, filters)
  {
    var stmt := Filtered(Alternatives(ColumnsOf(filters)));
    AlternativesParse(ColumnsOf(filters));
    PartsOfFiltered(Alternatives(ColumnsOf(filters)));
    forall row
      ensures Runs(stmt, args)
      ensures Selects(stmt, args, row) <==> exists f <- filters :: Matches(f, row)
    {
      BuiltStatementSelectsRow(stmt, filters, args, row);
    }
    BuiltStatementSelectsRow(stmt, filters, args, Node("", "", "", 0, "", "", false, ""));
  }

  // ------------------------------------------------------------------ GetNodesFromRoles

  function RoleClause(): Statement { ["instr(nodes.role,", "?)", ">", "0"] }

  function RoleClauses(n: nat): Statement {
    if n == 0 then [] else if n == 1 then RoleClause() else RoleClauses(n - 1) + ["AND"] + RoleClause()
  }

  lemma {:induction false} FirstRoleClause(n: nat)
    requires n > 1
    ensures RoleClauses(n) == RoleClause() + (["AND"] + RoleClauses(n - 1))
  {
    if n > 2 {
      FirstRoleClause(n - 1);
    }
  }

  function Shows(n: nat): (terms: seq<Term>)
    ensures |terms| == n && forall i :: 0 <= i < n ==> terms[i] == ShowsRole
  {
    seq(n, i => ShowsRole)
  }

  lemma {:induction false} RoleClausesParse(n: nat)
    requires n > 0
    ensures ParseAnd(RoleClauses(n)) == Some((Shows(n), []))
    ensures ORDER_BY !in RoleClauses(n)
  {
    if n == 1 {
      RoleClauseParses([]);
      assert RoleClause() + [] == RoleClause() && Shows(1) == [ShowsRole];
    } else {
      FirstRoleClause(n);
      RoleClausesParse(n - 1);
      var rest := ["AND"] + RoleClauses(n - 1);
      RoleClauseParses(rest);
      assert rest[1..] == RoleClauses(n - 1) && Shows(n) == [ShowsRole] + Shows(n - 1);
    }
  }

  lemma RoleClauseParses(rest: Statement)
    ensures ParseTerm(RoleClause() + rest) == Some((ShowsRole, rest))
  {
    var words := RoleClause() + rest;
    assert words[..4] == RoleClause() && words[4..] == rest && words[0] != "(";
  }

  /** The database accepts the statement, which selects the rows whose text shows every role in quotes. */
  ghost predicate SelectsRoles(stmt: Statement, args: seq<Arg>, roles: seq<string>) {
    Runs(stmt, args) && forall row :: Selects(stmt, args, row) <==> forall r <- roles :: Occurs(row.role, Quoted(r))
  }

  function QuotedRoles(roles: seq<string>): (args: seq<Arg>)
    ensures |args| == |roles| && forall i :: 0 <= i < |roles| ==> args[i] == Text(Quoted(roles[i]))
  {
    seq(|roles|, i requires 0 <= i < |roles| => Text(Quoted(roles[i])))
  }

  lemma OneConjunction(terms: seq<Term>, args: seq<Arg>, row: Node)
    requires |terms| == |args|
    ensures Placeholders([terms]) == |args|
    ensures SomeHolds([terms], args, row) <==> AllHold(terms, args, row)
  {
    assert [terms][1..] == [] && args[..|terms|] == args && args[|terms|..] == [];
  }

  lemma AllShown(roles: seq<string>, row: Node)
    ensures AllHold(Shows(|roles|), QuotedRoles(roles), row) <==> forall r <- roles :: Occurs(row.role, Quoted(r))
  {
    assert forall i :: 0 <= i < |roles| ==>
      (Holds(Shows(|roles|)[i], QuotedRoles(roles)[i], row) <==> Occurs(row.role, Quoted(roles[i])));
  }

  lemma RoleStatementSelectsRow(stmt: Statement, roles: seq<string>, args: seq<Arg>, row: Node)
    requires Parse(stmt) == Some(Where([Shows(|roles|)])) && args == QuotedRoles(roles)
    ensures Runs(stmt, args)
    ensures Selects(stmt, args, row) <==> forall r <- roles :: Occurs(row.role, Quoted(r))
  {
    OneConjunction(Shows(|roles|), args, row);
    AllShown(roles, row);
  }

  lemma ConjunctionParses(condition: Statement, terms: seq<Term>)
    requires ParseAnd(condition) == Some((terms, [])) && ORDER_BY !in condition
    ensures Parse(Filtered(condition)) == Some(Where([terms]))
  {
    PartsOfFiltered(condition);
  }

  lemma RoleStatementSelects(roles: seq<string>, stmt: Statement)
    requires Parse(stmt) == Some(Where([Shows(|roles|)]))
    ensures SelectsRoles(stmt, QuotedRoles(roles), roles)
  {
    var args := QuotedRoles(roles);
    forall row
      ensures Runs(stmt, args)
      ensures Selects(stmt, args, row) <==> forall r <- roles :: Occurs(row.role, Quoted(r))
    {
      RoleStatementSelectsRow(stmt, roles, args, row);
    }
    RoleStatementSelectsRow(stmt, roles, args, Node("", "", "", 0, "", "", false, ""));
  }

  lemma NoRoles()
    ensures SelectsRoles(NODE_OBJECTS, [], [])
  {
    NodeObjectsParses();
  }

  lemma OneMoreRole(head: Statement, n: nat, roles: seq<string>)
    requires n < |roles|
    ensures head + RoleClauses(n) + (if n > 0 then ["AND"] else []) + RoleClause() == head + RoleClauses(n + 1)
    ensures QuotedRoles(roles[..n]) + [Text(Quoted(roles[n]))] == QuotedRoles(roles[..n + 1])
  {
  }

  /** The condition and its arguments. */
  method RoleCondition(head: Statement, roles: seq<string>) returns (part: Statement, args: seq<Arg>)
    ensures part == head + RoleClauses(|roles|) && args == QuotedRoles(roles)
  {
    part, args := head, [];
    for i := 0 to |roles|
      invariant part == head + RoleClauses(i)
      invariant args == QuotedRoles(roles[..i])
    {
      OneMoreRole(head, i, roles);
      part := part + (if i > 0 then ["AND"] else []) + RoleClause();
      args := args + [Text(Quoted(roles[i]))];
    }
    assert roles[..|roles|] == roles;
  }

  method GetNodesFromRolesStatement(roles: seq<string>) returns (stmt: Statement, args: seq<Arg>)
    ensures SelectsRoles(stmt, args, roles)
  {
    NodeObjectsParses();
    var split := Cut(NODE_OBJECTS, ORDER_BY);
    if roles == [] {
      NoRoles();
      return split.0 + [ORDER_BY] + split.1, [];
    }
    var part;
    part, args := RoleCondition(split.0 + ["WHERE"], roles);
    stmt := part + [ORDER_BY] + split.1;
    RoleClausesParse(|roles|);
    ConjunctionParses(RoleClauses(|roles|), Shows(|roles|));
    RoleStatementSelects(roles, stmt);
  }
}
