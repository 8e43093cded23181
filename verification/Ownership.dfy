/** Declared operators against the registry's owners (nns/reconcile_nodes.go). */
module Ownership {
  import Sequences
  import Sorting
  import opened Resources
  import Tables
  import History

  datatype Status = OwnedAsDeclared | Mismatch | Gone | Unmanaged | Decommissioned

  datatype Row = Row(
    nodeId: string, name: string, operator: string, owner: string, decommissioned: bool,
    status: Status, stillRegistered: bool)

  type Lists = map<string, seq<string>>

  function NodeId(r: Row): string {
    r.nodeId
  }

  predicate InOrder(r: Row) {
    r.status == OwnedAsDeclared || r.status == Decommissioned
  }

  /** Some operator's list names the node. */
  ghost predicate Owned(byOperator: Lists, id: string) {
    exists op :: op in byOperator && id in byOperator[op]
  }

  /** A choice of owner for every listed node: which, when several lists name it, map order decides. */
  ghost predicate IsOwner(owner: map<string, string>, byOperator: Lists) {
    && (forall id :: id in owner <==> Owned(byOperator, id))
    && (forall id :: id in owner ==> owner[id] in byOperator && id in byOperator[owner[id]])
  }

  function OwnerOf(owner: map<string, string>, id: string): string {
    if id in owner then owner[id] else ""
  }

  function Verdict(n: NodeRes, owner: string): Status {
    if n.decommissioned && owner == "" then Decommissioned
    else if n.decommissioned then Mismatch
    else if owner == "" then Gone
    else if owner == n.operator then OwnedAsDeclared
    else Mismatch
  }

  function DeclaredRow(n: NodeRes, owner: map<string, string>): Row {
    var o := OwnerOf(owner, n.id);
    Row(n.id, n.name, n.operator, o, n.decommissioned, Verdict(n, o), false)
  }

  function UnmanagedRow(id: string, owner: string): Row {
    Row(id, "", "", owner, false, Unmanaged, false)
  }

  /** One row per block with an operator, in file order. */
  function DeclaredRows(nodes: seq<NodeRes>, owner: map<string, string>): seq<Row> {
    if nodes == [] then []
    else
      var n := nodes[|nodes| - 1];
      DeclaredRows(nodes[..|nodes| - 1], owner) + if n.operator == "" then [] else [DeclaredRow(n, owner)]
  }

  function DeclaredIds(nodes: seq<NodeRes>): set<string> {
    set n | n in nodes && n.operator != "" :: n.id
  }

  /** One row per owned id in ids that no block ties to an operator. */
  function UnmanagedRows(ids: set<string>, owner: map<string, string>, declared: set<string>): set<Row> {
    set id | id in ids && id in owner && id !in declared :: UnmanagedRow(id, owner[id])
  }

  ghost predicate IsReport(rows: seq<Row>, nodes: seq<NodeRes>, owner: map<string, string>) {
    multiset(rows) == multiset(DeclaredRows(nodes, owner)) + multiset(UnmanagedRows(owner.Keys, owner, DeclaredIds(nodes)))
  }

  method OwnersOf(byOperator: Lists) returns (owner: map<string, string>)
    ensures IsOwner(owner, byOperator)
  {
    owner := map[];
    var rest := byOperator.Keys;
    while rest != {}
      invariant rest <= byOperator.Keys
      invariant forall id :: id in owner ==>
                  owner[id] in byOperator && owner[id] !in rest && id in byOperator[owner[id]]
      invariant forall op, id :: op in byOperator && op !in rest && id in byOperator[op] ==> id in owner
    {
      var op :| op in rest;
      rest := rest - {op};
      var nodes := byOperator[op];
      for i := 0 to |nodes|
        invariant forall id :: id in owner ==>
                    owner[id] in byOperator && owner[id] !in rest && id in byOperator[owner[id]]
        invariant forall o, id :: o in byOperator && o !in rest && o != op && id in byOperator[o] ==> id in owner
        invariant forall j :: 0 <= j < i ==> nodes[j] in owner
      {
        owner := owner[nodes[i] := op];
      }
    }
    forall id ensures id in owner <==> Owned(byOperator, id) {
      if Owned(byOperator, id) {
        var op :| op in byOperator && id in byOperator[op];
      }
    }
  }

  method DeclaredWithOperator(nodes: seq<NodeRes>) returns (declared: set<string>)
    ensures declared == DeclaredIds(nodes)
  {
    declared := {};
    for i := 0 to |nodes|
      invariant declared == DeclaredIds(nodes[..i])
    {
      assert nodes[..i + 1] == nodes[..i] + [nodes[i]];
      if nodes[i].operator != "" {
        declared := declared + {nodes[i].id};
      }
    }
    assert nodes[..|nodes|] == nodes;
  }

  method RowsOfBlocks(nodes: seq<NodeRes>, owner: map<string, string>) returns (rows: seq<Row>)
    ensures rows == DeclaredRows(nodes, owner)
  {
    rows := [];
    for i := 0 to |nodes|
      invariant rows == DeclaredRows(nodes[..i], owner)
    {
      var n := nodes[i];
      assert nodes[..i + 1][..i] == nodes[..i];
      if n.operator == "" {
        continue;
      }
      var o := if n.id in owner then owner[n.id] else "";
      var row := Row(n.id, n.name, n.operator, o, n.decommissioned, Mismatch, false);
      if n.decommissioned && o == "" {
        row := row.(status := Decommissioned);
      } else if n.decommissioned {
        row := row.(status := Mismatch);
      } else if o == "" {
        row := row.(status := Gone);
      } else if o == n.operator {
        row := row.(status := OwnedAsDeclared);
      }
      rows := rows + [row];
    }
    assert nodes[..|nodes|] == nodes;
  }

  /** owner is the choice of owners the report rests on. */
  method ReconcileOperatorNodes(nodes: seq<NodeRes>, byOperator: Lists)
    returns (rows: seq<Row>, owner: map<string, string>)
    ensures IsOwner(owner, byOperator)
    ensures IsReport(rows, nodes, owner)
    ensures Sorting.SortedByText(rows, NodeId)
  {
    hide IsOwner, DeclaredRows, DeclaredIds, UnmanagedRows;
    owner := OwnersOf(byOperator);
    var declared := DeclaredWithOperator(nodes);
    rows := RowsOfBlocks(nodes, owner);
    ghost var fromBlocks := rows;
    var rest := owner.Keys;
    NoneUnmanaged(owner, declared);
    assert owner.Keys - rest == {};
    while rest != {}
      invariant rest <= owner.Keys
      invariant multiset(rows) == multiset(fromBlocks) + multiset(UnmanagedRows(owner.Keys - rest, owner, declared))
    {
      var id :| id in rest;
      OneMoreUnmanaged(owner.Keys - rest, id, owner, declared);
      assert owner.Keys - (rest - {id}) == owner.Keys - rest + {id};
      rest := rest - {id};
      if id in declared {
        continue;
      }
      rows := rows + [UnmanagedRow(id, owner[id])];
    }
    assert owner.Keys - rest == owner.Keys;
    rows := Sorting.SortByText(rows, NodeId);
  }

  lemma NoneUnmanaged(owner: map<string, string>, declared: set<string>)
    ensures UnmanagedRows({}, owner, declared) == {}
  {
  }

  lemma OneMoreUnmanaged(ids: set<string>, id: string, owner: map<string, string>, declared: set<string>)
    requires id !in ids && id in owner
    ensures multiset(UnmanagedRows(ids + {id}, owner, declared)) ==
            multiset(UnmanagedRows(ids, owner, declared)) + if id in declared then multiset{} else multiset{UnmanagedRow(id, owner[id])}
  {
  }

  lemma {:induction false} DeclaredRowsMembers(nodes: seq<NodeRes>, owner: map<string, string>, r: Row)
    ensures r in DeclaredRows(nodes, owner) <==> exists n :: n in nodes && n.operator != "" && r == DeclaredRow(n, owner)
  {
    if nodes != [] {
      var front, n := nodes[..|nodes| - 1], nodes[|nodes| - 1];
      assert nodes == front + [n];
      DeclaredRowsMembers(front, owner, r);
      assert forall m :: m in nodes <==> m in front || m == n;
    }
  }

  /** r is a block's row, or an unmanaged node's. */
  ghost predicate RowOf(nodes: seq<NodeRes>, owner: map<string, string>, r: Row) {
    || (exists n :: n in nodes && n.operator != "" && r == DeclaredRow(n, owner))
    || (r.nodeId in owner && r.nodeId !in DeclaredIds(nodes) && r == UnmanagedRow(r.nodeId, owner[r.nodeId]))
  }

  lemma ReportMembers(rows: seq<Row>, nodes: seq<NodeRes>, owner: map<string, string>, r: Row)
    requires IsReport(rows, nodes, owner)
    ensures r in rows <==> RowOf(nodes, owner, r)
  {
    DeclaredRowsMembers(nodes, owner, r);
    assert r in rows <==> r in multiset(rows);
    var unmanaged := UnmanagedRows(owner.Keys, owner, DeclaredIds(nodes));
    assert r in multiset(unmanaged) <==> r in unmanaged;
    assert r in multiset(DeclaredRows(nodes, owner)) <==> r in DeclaredRows(nodes, owner);
  }

  lemma {:induction false} DeclaredRowsOnce(nodes: seq<NodeRes>, owner: map<string, string>, r: Row)
    requires UniqueIds(nodes)
    ensures multiset(DeclaredRows(nodes, owner))[r] <= 1
  {
    if nodes != [] {
      var front, n := nodes[..|nodes| - 1], nodes[|nodes| - 1];
      DeclaredRowsOnce(front, owner, r);
      forall m | m in front ensures m.id != n.id {
        var i :| 0 <= i < |front| && front[i] == m;
        assert nodes[i].id != nodes[|nodes| - 1].id;
      }
      DeclaredRowsMembers(front, owner, DeclaredRow(n, owner));
      assert multiset(DeclaredRows(front, owner))[DeclaredRow(n, owner)] == 0;
    }
  }

  lemma RowsOnce(rows: seq<Row>, nodes: seq<NodeRes>, owner: map<string, string>)
    requires UniqueIds(nodes) && IsReport(rows, nodes, owner)
    ensures Sequences.Distinct(rows)
  {
    hide Sequences.Distinct, DeclaredRows, UniqueIds;
    var unmanaged := UnmanagedRows(owner.Keys, owner, DeclaredIds(nodes));
    forall r ensures multiset(rows)[r] <= 1 {
      DeclaredRowsOnce(nodes, owner, r);
      DeclaredRowsMembers(nodes, owner, r);
      assert r in unmanaged ==> multiset(DeclaredRows(nodes, owner))[r] == 0;
    }
    Sequences.DistinctIffMultiplicities(rows);
  }

  lemma SameIdSameRow(nodes: seq<NodeRes>, owner: map<string, string>, r: Row, q: Row)
    requires UniqueIds(nodes) && RowOf(nodes, owner, r) && RowOf(nodes, owner, q)
    ensures r.nodeId == q.nodeId ==> r == q
  {
  }

  lemma RowsCover(nodes: seq<NodeRes>, owner: map<string, string>, id: string)
    ensures (exists r :: RowOf(nodes, owner, r) && r.nodeId == id) <==> id in DeclaredIds(nodes) || id in owner
  {
    if id in DeclaredIds(nodes) {
      var n :| n in nodes && n.operator != "" && n.id == id;
      assert RowOf(nodes, owner, DeclaredRow(n, owner));
    } else if id in owner {
      assert RowOf(nodes, owner, UnmanagedRow(id, owner[id]));
    }
  }

  /** With unique ids: exactly one row per node that is declared with an operator, or owned, or both. */
  lemma OneRowPerNode(rows: seq<Row>, nodes: seq<NodeRes>, owner: map<string, string>)
    requires UniqueIds(nodes) && IsReport(rows, nodes, owner)
    ensures forall i, j :: 0 <= i < j < |rows| ==> rows[i].nodeId != rows[j].nodeId
    ensures forall id :: (exists r :: r in rows && r.nodeId == id) <==> id in DeclaredIds(nodes) || id in owner
  {
    hide RowOf, UniqueIds, IsReport, DeclaredIds;
    RowsOnce(rows, nodes, owner);
    forall i, j | 0 <= i < j < |rows| ensures rows[i].nodeId != rows[j].nodeId {
      ReportMembers(rows, nodes, owner, rows[i]);
      ReportMembers(rows, nodes, owner, rows[j]);
      SameIdSameRow(nodes, owner, rows[i], rows[j]);
    }
    forall id ensures (exists r :: r in rows && r.nodeId == id) <==> id in DeclaredIds(nodes) || id in owner {
      RowsCover(nodes, owner, id);
      forall r ensures r in rows <==> RowOf(nodes, owner, r) {
        ReportMembers(rows, nodes, owner, r);
      }
    }
  }

  // What drift means.

  ghost predicate DisjointLists(byOperator: Lists) {
    forall o, p, id :: o in byOperator && p in byOperator && id in byOperator[o] && id in byOperator[p] ==> o == p
  }

  /** A block agrees with the registry: its operator owns the node, or the node is gone as declared. */
  ghost predicate Agrees(n: NodeRes, byOperator: Lists) {
    if n.decommissioned then !Owned(byOperator, n.id) else Claims(byOperator, n)
  }

  predicate Claims(byOperator: Lists, n: NodeRes) {
    n.operator in byOperator && n.id in byOperator[n.operator]
  }

  /** Every verdict on a block, read off the lists alone. */
  lemma StatusMeans(n: NodeRes, byOperator: Lists, owner: map<string, string>)
    requires "" !in byOperator && DisjointLists(byOperator) && IsOwner(owner, byOperator) && n.operator != ""
    ensures var s := DeclaredRow(n, owner).status;
      && (s == OwnedAsDeclared <==> !n.decommissioned && Claims(byOperator, n))
      && (s == Decommissioned <==> n.decommissioned && !Owned(byOperator, n.id))
      && (s == Gone <==> !n.decommissioned && !Owned(byOperator, n.id))
      && (s == Mismatch <==> Owned(byOperator, n.id) && (n.decommissioned || !Claims(byOperator, n)))
    ensures InOrder(DeclaredRow(n, owner)) <==> Agrees(n, byOperator)
  {
    assert n.id in owner <==> Owned(byOperator, n.id);
  }

  /**
   Every column of a block's row: the block's own, and as owner the operator whose list names the node, or
   nothing when none does.
   */
  lemma ColumnsMean(n: NodeRes, byOperator: Lists, owner: map<string, string>)
    requires "" !in byOperator && DisjointLists(byOperator) && IsOwner(owner, byOperator)
    ensures var r := DeclaredRow(n, owner);
      && r.nodeId == n.id && r.name == n.name && r.operator == n.operator && r.decommissioned == n.decommissioned
      && !r.stillRegistered
      && (r.owner == "" <==> !Owned(byOperator, n.id))
      && (forall op :: op in byOperator && n.id in byOperator[op] ==> r.owner == op)
  {
    assert n.id in owner <==> Owned(byOperator, n.id);
  }

  /** A row for a node with no block of its own says who owns it, and nothing of any block. */
  lemma UnmanagedColumnsMean(id: string, byOperator: Lists, owner: map<string, string>)
    requires IsOwner(owner, byOperator) && id in owner
    ensures var r := UnmanagedRow(id, owner[id]);
      && r.nodeId == id && r.status == Unmanaged && r.owner in byOperator && id in byOperator[r.owner]
      && r.name == "" && r.operator == "" && !r.decommissioned && !r.stillRegistered
  {
  }

  lemma OwnerKeys(byOperator: Lists, owner: map<string, string>)
    requires IsOwner(owner, byOperator)
    ensures forall id :: id in owner <==> Owned(byOperator, id)
  {
  }

  /**
   Drift is exact: none iff every block with an operator agrees with the lists and every listed node
   has such a block.
   */
  lemma OwnershipDriftIff(rows: seq<Row>, nodes: seq<NodeRes>, byOperator: Lists, owner: map<string, string>)
    requires "" !in byOperator && DisjointLists(byOperator)
    requires IsOwner(owner, byOperator) && IsReport(rows, nodes, owner)
    ensures !Tables.Drifts(rows, InOrder) <==>
      && (forall n :: n in nodes && n.operator != "" ==> Agrees(n, byOperator))
      && (forall id :: Owned(byOperator, id) ==> id in DeclaredIds(nodes))
  {
    hide IsOwner, IsReport, DisjointLists, Owned, Agrees, DeclaredRow, DeclaredIds;
    forall n | n in nodes && n.operator != "" ensures InOrder(DeclaredRow(n, owner)) <==> Agrees(n, byOperator) {
      StatusMeans(n, byOperator, owner);
    }
    OwnerKeys(byOperator, owner);
    if Tables.Drifts(rows, InOrder) {
      var r :| r in rows && !InOrder(r);
      ReportMembers(rows, nodes, owner, r);
    } else {
      forall n | n in nodes && n.operator != "" ensures Agrees(n, byOperator) {
        ReportMembers(rows, nodes, owner, DeclaredRow(n, owner));
      }
      forall id | Owned(byOperator, id) ensures id in DeclaredIds(nodes) {
        ReportMembers(rows, nodes, owner, UnmanagedRow(id, owner[id]));
      }
    }
  }

  // Settling decommissioned rows against the nodes' own records.

  type Statuses = map<string, History.NodeStatus>

  ghost predicate Contradicted(r: Row, status: Statuses) {
    r.status == Decommissioned && r.nodeId in status && status[r.nodeId].registered
  }

  /** What a row becomes: only a contradicted one changes, and it becomes a mismatch that names the recorded owner. */
  ghost predicate SettlesTo(r: Row, settled: Row, status: Statuses) {
    if Contradicted(r, status) then
      settled == r.(status := Mismatch, stillRegistered := true,
                    owner := if r.owner == "" then status[r.nodeId].operatorId else r.owner)
    else settled == r
  }

  method ApplyNodeStatus(rows: array<Row>, status: Statuses)
    modifies rows
    ensures forall i :: 0 <= i < rows.Length ==> SettlesTo(old(rows[i]), rows[i], status)
  {
    for i := 0 to rows.Length
      invariant forall j :: 0 <= j < i ==> SettlesTo(old(rows[j]), rows[j], status)
      invariant forall j :: i <= j < rows.Length ==> rows[j] == old(rows[j])
    {
      var row := rows[i];
      if row.status != Decommissioned {
        continue;
      }
      if row.nodeId !in status || !status[row.nodeId].registered {
        continue;
      }
      row := row.(stillRegistered := true, status := Mismatch);
      if row.owner == "" {
        row := row.(owner := status[row.nodeId].operatorId);
      }
      rows[i] := row;
    }
  }

  ghost predicate Settled(rows: seq<Row>, settled: seq<Row>, status: Statuses) {
    |rows| == |settled| && forall i :: 0 <= i < |rows| ==> SettlesTo(rows[i], settled[i], status)
  }

  /** Applying the records again changes nothing. */
  lemma SettlingIdempotent(rows: seq<Row>, once: seq<Row>, twice: seq<Row>, status: Statuses)
    requires Settled(rows, once, status) && Settled(once, twice, status)
    ensures twice == once
  {
  }

  /** Records never clear drift; they add it exactly where a decommissioned node is still registered. */
  lemma SettledDriftIff(rows: seq<Row>, settled: seq<Row>, status: Statuses)
    requires Settled(rows, settled, status)
    ensures Tables.Drifts(settled, InOrder) <==> Tables.Drifts(rows, InOrder) || exists r :: r in rows && Contradicted(r, status)
  {
    if Tables.Drifts(rows, InOrder) || exists r :: r in rows && Contradicted(r, status) {
      var r :| r in rows && (!InOrder(r) || Contradicted(r, status));
      var i :| 0 <= i < |rows| && rows[i] == r;
      assert SettlesTo(rows[i], settled[i], status) && settled[i] in settled;
    }
    if Tables.Drifts(settled, InOrder) {
      var s :| s in settled && !InOrder(s);
      var i :| 0 <= i < |settled| && settled[i] == s;
      assert SettlesTo(rows[i], settled[i], status) && rows[i] in rows;
    }
  }

  /** A contradicted row names the operator the node's record does, since in a report its own owner was nobody. */
  lemma ContradictedNamesOwner(
    rows: seq<Row>, nodes: seq<NodeRes>, owner: map<string, string>, settled: seq<Row>, status: Statuses, i: nat)
    requires IsReport(rows, nodes, owner) && Settled(rows, settled, status) && i < |rows|
    requires Contradicted(rows[i], status)
    ensures settled[i].owner == status[rows[i].nodeId].operatorId
    ensures settled[i].status == Mismatch && settled[i].stillRegistered && settled[i].decommissioned
  {
    hide IsReport;
    ReportMembers(rows, nodes, owner, rows[i]);
    assert SettlesTo(rows[i], settled[i], status);
  }

  /** Order of arrival does not matter either: two batches of records settle rows to the same verdicts both ways round. */
  lemma SettlingCommutes(rows: seq<Row>, a: Statuses, b: Statuses, ra: seq<Row>, rab: seq<Row>, rb: seq<Row>, rba: seq<Row>)
    requires Settled(rows, ra, a) && Settled(ra, rab, b) && Settled(rows, rb, b) && Settled(rb, rba, a)
    ensures forall i :: 0 <= i < |rows| ==> rab[i].status == rba[i].status && rab[i].stillRegistered == rba[i].stillRegistered
  {
  }
}
