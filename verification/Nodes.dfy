/**
  The `nodes` table as the cluster API keeps and lists it.
 */
module Nodes {
  import opened Wrappers
  import opened ConfigTable
  import opened Roles
  import opened RoleSearch
  import opened NodeQuery

  const DEFAULT_ARCH := "amd64"

  /** A node as the API shows it; the role list is None for the nil slice. */
  datatype ApiNode = ApiNode(name: string, role: Option<seq<string>>, machineId: int, systemId: string,
                             arch: string, isDPU: bool, imageName: string)

  /** The text of a sorted role list. */
  ghost predicate Written(text: string) {
    exists roles: Option<seq<string>> :: text == Encode(roles) && (roles.Some? ==> IsSorted(roles.value))
  }

  /** Every text that was written is read back as the list it shows. */
  lemma WrittenReadsBack(text: string, roles: Option<seq<string>>)
    requires text == Encode(roles) && (roles.Some? ==> IsSorted(roles.value))
    ensures FromStr(text) == Some(roles)
  {
    DecodeEncode(roles);
    if roles.Some? {
      SortedOfSorted(roles.value);
    }
  }

  ghost function RolesOf(row: Node): seq<string> {
    match FromStr(row.role)
    case Some(Some(roles)) => roles
    case _ => []
  }

  /** The role can be searched for: it is not ",", and has no quote. */
  ghost predicate Searchable(r: string) {
    '"' !in r && r != ","
  }

  lemma NothingInNull(r: string)
    ensures !Occurs("null", Quoted(r))
  {
    forall p | 0 <= p <= 4 ensures !OccursAt("null", Quoted(r), p) {
      var n := |Quoted(r)|;
      if p + n <= 4 {
        assert "null"[p] != '"' && "null"[p..p + n][0] == "null"[p];
      }
    }
  }

  /** Searching a written text finds the runs of consecutive pieces of the node's role list. */
  lemma SearchFindsRunsOf(row: Node, r: string)
    requires Written(row.role)
    ensures Occurs(row.role, Quoted(r)) <==> Run(Pieces(RolesOf(row)), r)
  {
    var roles: Option<seq<string>> :| row.role == Encode(roles) && (roles.Some? ==> IsSorted(roles.value));
    WrittenReadsBack(row.role, roles);
    if roles.Some? {
      SearchFindsRuns(roles.value, r);
    } else {
      NothingInNull(r);
    }
  }

  /** Searching a written text for plain names is asking for roles of the node. */
  lemma SearchFindsRoles(row: Node, r: string)
    requires Written(row.role) && PlainNames(RolesOf(row)) && Searchable(r)
    ensures Occurs(row.role, Quoted(r)) <==> r in RolesOf(row)
  {
    SearchFindsRunsOf(row, r);
    SearchFindsRuns(RolesOf(row), r);
    RoleSearchIsExact(RolesOf(row), r);
  }

  class NodeTable {
    var rows: map<string, Node>

    ghost predicate Valid()
      reads this
    {
      forall name <- rows :: rows[name].name == name && Written(rows[name].role)
    }

    constructor ()
      ensures Valid() && rows == map[]
    {
      rows := map[];
    }

    method AddNode(member: string, name: string, role: array?<string>, machineId: int, systemId: string,
                   arch: string, isDPU: bool, imageName: string) returns (r: Result<()>)
      requires Valid()
      modifies this, role
      ensures Valid()
      ensures r == if name in old(rows) then Err(Conflict) else Ok(())
      ensures r.Err? ==> rows == old(rows)
      ensures r.Ok? ==>
                && rows.Keys == old(rows.Keys) + {name} && forall n <- old(rows) :: rows[n] == old(rows)[n]
      ensures r.Ok? ==>
                var arch' := if arch == "" then "amd64" else arch;
                && rows[name].(role := "") == Node(member, name, "", machineId, systemId, arch', isDPU, imageName)
                && FromStr(rows[name].role) == Some(if role == null then None else Some(Sorted(old(role[..]))))
    {
      var text := RoleToStr(role);
      assert Written(text) && FromStr(text) == Some(if role == null then None else Some(Sorted(old(role[..])))) by {
        if role != null {
          SortedIsSorted(old(role[..]));
          WrittenReadsBack(text, Some(role[..]));
        } else {
          WrittenReadsBack(text, None);
        }
      }
      if name in rows {
        return Err(Conflict);
      }
      rows := rows[name := Node(member, name, text, machineId, systemId, if arch == "" then DEFAULT_ARCH else arch, isDPU, imageName)];
      r := Ok(());
    }
  
    /** The fields that are not given keep their value; the member becomes the one that answers the request. */
    method UpdateNode(member: string, name: string, role: array?<string>, machineId: int, systemId: string,
                      arch: string, isDPU: Option<bool>, imageName: Option<string>) returns (r: Result<()>)
      requires Valid()
      modifies this, role
      ensures Valid()
      ensures r == if name in old(rows) then Ok(()) else Err(NotFound)
      ensures r.Err? ==> rows == old(rows)
      ensures r.Ok? ==> rows.Keys == old(rows.Keys) && forall n <- rows :: n != name ==> rows[n] == old(rows)[n]
      ensures r.Ok? ==>
                var was := old(rows)[name];
                && rows[name].(role := was.role) == Node(member, name, was.role,
                     if machineId == -1 then was.machineId else machineId, if systemId == "" then was.systemId else systemId,
                     if arch == "" then was.arch else arch, if isDPU.None? then was.isDPU else isDPU.value,
                     if imageName.None? then was.imageName else imageName.value)
                && if role == null then rows[name].role == was.role
                   else FromStr(rows[name].role) == Some(Some(Sorted(old(role[..]))))
    {
      var text := RoleToStr(role);
      if role != null {
        SortedIsSorted(old(role[..]));
        WrittenReadsBack(text, Some(role[..]));
      }
      if name !in rows {
        return Err(NotFound);
      }
      var was := rows[name];
      var machineId', systemId' := machineId, systemId;
      if role == null {
        text := was.role;
      }
      if machineId == -1 {
        machineId' := was.machineId;
      }
      if systemId == "" {
        systemId' := was.systemId;
      }
      var nodeArch, nodeIsDPU, nodeImageName := arch, was.isDPU, was.imageName;
      if nodeArch == "" {
        nodeArch := was.arch;
      }
      if isDPU.Some? {
        nodeIsDPU := isDPU.value;
      }
      if imageName.Some? {
        nodeImageName := imageName.value;
      }
      rows := rows[name := Node(member, name, text, machineId', systemId', nodeArch, nodeIsDPU, nodeImageName)];
      r := Ok(());
    }

    /** What the database answers to a statement: the selected rows, ordered by name. */
    method Query(stmt: Statement, args: seq<Arg>) returns (found: seq<Node>)
      requires Valid() && Runs(stmt, args)
      ensures IsAnswer(found, rows, stmt, args)
    {
      var names := InOrder(rows.Keys);
      found := [];
      for i := 0 to |names|
        invariant AnswersFor(found, rows, names[..i], stmt, args)
      {
        NextName(found, rows, names, i, stmt, args);
        var row := rows[names[i]];
        if Selects(stmt, args, row) {
          found := found + [row];
        }
      }
      assert names[..|names|] == names;
    }

    /** The nodes that have all the roles, by name; None when a text is not a role list. */
    method ListNodes(roles: seq<string>) returns (nodes: Option<seq<ApiNode>>)
      requires Valid()
      ensures nodes.Some? && NodesOf(nodes.value, rows)
      ensures forall n <- nodes.value :: n.name in rows && ShowsRow(n, rows[n.name])
      ensures AreFound(nodes.value, rows, roles)
      ensures (forall name <- rows :: PlainNames(RolesOf(rows[name]))) && (forall r <- roles :: Searchable(r)) ==>
                HaveRoles(nodes.value, rows, roles)
    {
      var stmt, args := GetNodesFromRolesStatement(roles);
      var records := Query(stmt, args);
      forall row | row in records ensures AsApi(row).Some? {
        WrittenIsListed(row);
      }
      nodes := Convert(records);
      ListedAreShown(records, nodes.value, rows, stmt, args);
      ListedAreFound(records, nodes.value, rows, stmt, args, roles);
      forall n | n in nodes.value ensures ShowsRow(n, rows[n.name]) {
        ApiShowsRow(n, rows[n.name]);
      }
      if (forall name <- rows :: PlainNames(RolesOf(rows[name]))) && (forall r <- roles :: Searchable(r)) {
        FoundHaveRoles(nodes.value, rows, roles);
      }
    }
  }

  /** The records as the API shows them; None when a text is not a role list. */
  method Convert(records: seq<Node>) returns (nodes: Option<seq<ApiNode>>)
    ensures nodes.Some? <==> forall row <- records :: AsApi(row).Some?
    ensures nodes.Some? ==> ListsEach(records, nodes.value)
  {
    var listed: seq<ApiNode> := [];
    for i := 0 to |records|
      invariant |listed| == i && forall j :: 0 <= j < i ==> AsApi(records[j]) == Some(listed[j])
    {
      var row := records[i];
      var role := RoleFromStr(row.role);
      if role.None? {
        assert row in records;
        return None;
      }
      listed := listed + [ApiNode(row.name, role.value, row.machineId, row.systemId, row.arch, row.isDPU, row.imageName)];
    }
    nodes := Some(listed);
  }

  lemma ListedAreFound(records: seq<Node>, listed: seq<ApiNode>, rows: map<string, Node>, stmt: Statement,
                       args: seq<Arg>, roles: seq<string>)
    requires forall name <- rows :: rows[name].name == name && Written(rows[name].role)
    requires SelectsRoles(stmt, args, roles) && IsAnswer(records, rows, stmt, args) && ListsEach(records, listed)
    ensures AreFound(listed, rows, roles)
  {
    forall name | name in rows
      ensures Listed(listed, name) <==> forall r <- roles :: Run(Pieces(RolesOf(rows[name])), r)
    {
      ListedIffFound(records, listed, rows, name, stmt, args, roles);
    }
  }

  lemma FoundHaveRoles(listed: seq<ApiNode>, rows: map<string, Node>, roles: seq<string>)
    requires forall name <- rows :: Written(rows[name].role) && PlainNames(RolesOf(rows[name]))
    requires (forall r <- roles :: Searchable(r)) && AreFound(listed, rows, roles)
    ensures HaveRoles(listed, rows, roles)
  {
    forall name, r | name in rows && r in roles
      ensures Run(Pieces(RolesOf(rows[name])), r) <==> r in RolesOf(rows[name])
    {
      SearchFindsRunsOf(rows[name], r);
      SearchFindsRoles(rows[name], r);
    }
  }

  /** Nodes of the table as the API shows them, by name. */
  ghost predicate NodesOf(nodes: seq<ApiNode>, rows: map<string, Node>) {
    && (forall i, j :: 0 <= i < j < |nodes| ==> Below(nodes[i].name, nodes[j].name) && nodes[i].name != nodes[j].name)
    && forall n <- nodes :: n.name in rows && AsApi(rows[n.name]) == Some(n)
  }

  ghost predicate Listed(nodes: seq<ApiNode>, name: string) {
    exists n :: n in nodes && n.name == name
  }

  /** Exactly the nodes in whose role list every name is found. */
  ghost predicate AreFound(nodes: seq<ApiNode>, rows: map<string, Node>, roles: seq<string>) {
    forall name <- rows :: Listed(nodes, name) <==> forall r <- roles :: Run(Pieces(RolesOf(rows[name])), r)
  }

  /** Exactly the nodes with all the roles. */
  ghost predicate HaveRoles(nodes: seq<ApiNode>, rows: map<string, Node>, roles: seq<string>) {
    forall name <- rows :: Listed(nodes, name) <==> forall r <- roles :: r in RolesOf(rows[name])
  }

  /** The rows that a statement selects. */
  ghost predicate IsAnswer(records: seq<Node>, rows: map<string, Node>, stmt: Statement, args: seq<Arg>)
    requires Runs(stmt, args)
  {
    ByName(records) &&
    forall row :: row in records <==> row.name in rows && rows[row.name] == row && Selects(stmt, args, row)
  }

  /** The answer as far as these names go. */
  ghost predicate AnswersFor(
      found: seq<Node>, rows: map<string, Node>, names: seq<string>, stmt: Statement, args: seq<Arg>)
    requires Runs(stmt, args)
  {
    ByName(found) && forall row ::
      row in found <==> row.name in names && row.name in rows && rows[row.name] == row && Selects(stmt, args, row)
  }

  lemma NextName(found: seq<Node>, rows: map<string, Node>, names: seq<string>, i: nat, stmt: Statement, args: seq<Arg>)
    requires Runs(stmt, args) && i < |names| && AnswersFor(found, rows, names[..i], stmt, args)
    requires IsSorted(names) && forall j, k :: 0 <= j < k < |names| ==> names[j] != names[k]
    requires names[i] in rows && rows[names[i]].name == names[i]
    ensures var row := rows[names[i]];
            AnswersFor(if Selects(stmt, args, row) then found + [row] else found, rows, names[..i + 1], stmt, args)
  {
    var row := rows[names[i]];
    assert names[..i + 1] == names[..i] + [names[i]];
    forall r | r in found ensures Below(r.name, row.name) && r.name != row.name {
      var j :| 0 <= j < i && names[j] == r.name;
    }
  }

  ghost predicate ListsEach(records: seq<Node>, listed: seq<ApiNode>) {
    |listed| == |records| && forall j :: 0 <= j < |records| ==> AsApi(records[j]) == Some(listed[j])
  }

  lemma ListedAreShown(
      records: seq<Node>, listed: seq<ApiNode>, rows: map<string, Node>, stmt: Statement, args: seq<Arg>)
    requires Runs(stmt, args) && IsAnswer(records, rows, stmt, args) && ListsEach(records, listed)
    ensures NodesOf(listed, rows)
  {
    forall j | 0 <= j < |listed| ensures listed[j].name == records[j].name && records[j] in records {
    }
  }

  lemma WrittenIsListed(row: Node)
    requires Written(row.role)
    ensures AsApi(row).Some?
  {
    var roles: Option<seq<string>> :| row.role == Encode(roles) && (roles.Some? ==> IsSorted(roles.value));
    WrittenReadsBack(row.role, roles);
  }

  lemma ListedIffFound(records: seq<Node>, listed: seq<ApiNode>, rows: map<string, Node>, name: string,
                       stmt: Statement, args: seq<Arg>, roles: seq<string>)
    requires name in rows && rows[name].name == name && Written(rows[name].role)
    requires SelectsRoles(stmt, args, roles) && IsAnswer(records, rows, stmt, args) && ListsEach(records, listed)
    ensures Listed(listed, name) <==> forall r <- roles :: Run(Pieces(RolesOf(rows[name])), r)
  {
    var row := rows[name];
    forall r | r in roles ensures Occurs(row.role, Quoted(r)) <==> Run(Pieces(RolesOf(row)), r) {
      SearchFindsRunsOf(row, r);
    }
    if row in records {
      var j :| 0 <= j < |records| && records[j] == row;
      assert listed[j] in listed && listed[j].name == name;
    }
    if Listed(listed, name) {
      var n :| n in listed && n.name == name;
      var j :| 0 <= j < |listed| && listed[j] == n;
      assert records[j] in records && records[j] == row;
    }
  }

  /** Every field of the row, and the role list whose text the row has, sorted. */
  ghost predicate ShowsRow(n: ApiNode, row: Node) {
    && n.name == row.name && n.machineId == row.machineId && n.systemId == row.systemId
    && n.arch == row.arch && n.isDPU == row.isDPU && n.imageName == row.imageName
    && exists roles: Option<seq<string>> :: row.role == Encode(roles) && SameRoles(n.role, roles)
  }

  ghost predicate SameRoles(shown: Option<seq<string>>, roles: Option<seq<string>>) {
    if roles.None? then shown.None?
    else shown.Some? && IsSorted(shown.value) && multiset(shown.value) == multiset(roles.value)
  }

  lemma ApiShowsRow(n: ApiNode, row: Node)
    requires AsApi(row) == Some(n) && Written(row.role)
    ensures ShowsRow(n, row)
  {
    var roles: Option<seq<string>> :| row.role == Encode(roles) && (roles.Some? ==> IsSorted(roles.value));
    WrittenReadsBack(row.role, roles);
    assert SameRoles(n.role, roles);
  }

  ghost function AsApi(row: Node): Option<ApiNode> {
    match FromStr(row.role)
    case None => None
    case Some(role) => Some(ApiNode(row.name, role, row.machineId, row.systemId, row.arch, row.isDPU, row.imageName))
  }

  ghost predicate ByName(rows: seq<Node>) {
    forall i, j :: 0 <= i < j < |rows| ==> Below(rows[i].name, rows[j].name) && rows[i].name != rows[j].name
  }

  /** The names of a set, sorted. */
  method InOrder(names: set<string>) returns (l: seq<string>)
    ensures forall n :: n in l <==> n in names
    ensures IsSorted(l) && forall i, j :: 0 <= i < j < |l| ==> l[i] != l[j]
  {
    l := [];
    var rest := names;
    while rest != {}
      invariant rest <= names && forall n :: n in l <==> n in names - rest
      invariant IsSorted(l) && forall i, j :: 0 <= i < j < |l| ==> l[i] != l[j]
    {
      var n :| n in rest;
      InsertedIsSorted(n, l);
      InsertedIsNew(n, l);
      l, rest := Inserted(n, l), rest - {n};
    }
  }

  lemma InsertedIsNew(n: string, l: seq<string>)
    requires n !in l && forall i, j :: 0 <= i < j < |l| ==> l[i] != l[j]
    ensures forall m :: m in Inserted(n, l) <==> m in l || m == n
    ensures forall i, j :: 0 <= i < j < |Inserted(n, l)| ==> Inserted(n, l)[i] != Inserted(n, l)[j]
  {
    if l != [] && !Below(n, l[0]) {
      assert forall m :: m in l <==> m == l[0] || m in l[1..];
      InsertedIsNew(n, l[1..]);
      var rest := Inserted(n, l[1..]);
      forall j | 0 <= j < |rest| ensures rest[j] != l[0] {
        assert rest[j] in rest;
        if rest[j] in l[1..] {
          var k :| 0 <= k < |l[1..]| && l[1..][k] == rest[j];
          assert l[k + 1] == rest[j];
        }
      }
    }
  }
}
