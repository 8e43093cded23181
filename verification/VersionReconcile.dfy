/** Expected against reported node versions (nns/reconcile_version.go). */
module VersionReconcile {
  import opened Wrappers
  import Sequences
  import Sorting
  import Resources
  import opened DefaultVersion
  import Tables
  import History

  datatype Status = Running | Mismatch | Unreachable

  datatype NodeVersion = NodeVersion(version: string, err: string, indirect: bool)

  datatype Row = Row(
    nodeId: string, name: string, declared: string, actual: string, err: string,
    status: Status, indirect: bool, unelected: bool, from: VersionSource, overridden: bool)

  /** The version blocks, what the nodes reported, and the elected set consulted. */
  datatype Input = Input(versions: seq<Version>, reported: map<string, NodeVersion>, elected: History.ElectedVersions)

  function NodeId(r: Row): string {
    r.nodeId
  }

  predicate InOrder(r: Row) {
    r.status != Mismatch
  }

  function Reported(input: Input, id: string): NodeVersion {
    if id in input.reported then input.reported[id] else NodeVersion("", "", false)
  }

  /** The row of a checked node: its expectation, what it reports, and how they compare. */
  ghost predicate IsRow(r: Row, n: Resources.NodeRes, input: Input) {
    var e, got := Expectation(input.versions, n), Reported(input, n.id);
    && e.Some?
    && r.nodeId == n.id && r.name == n.name
    && r.declared == e.value.version && r.from == e.value.source
    && r.actual == got.version && r.err == got.err
    && (r.status == Unreachable <==> got.err != "" || got.version == "")
    && (r.status == Running <==> got.err == "" && got.version != "" && got.version == e.value.version)
    && (r.indirect <==> got.indirect && got.version != "")
    && (r.unelected <==> input.elected.Known() && !input.elected.Elected(e.value.version))
    && (r.overridden <==> FirstDefault(input.versions).Some? && e.value.source == FromNode)
  }

  function Checked(all: seq<Resources.NodeRes>, input: Input): seq<Resources.NodeRes> {
    Sequences.Filter(all, n => Expectation(input.versions, n).Some?)
  }

  ghost function RowIs(input: Input): (Row, Resources.NodeRes) -> bool {
    (r, n) => IsRow(r, n, input)
  }

  /** One row per checked node. */
  ghost predicate IsVersionReport(rows: seq<Row>, all: seq<Resources.NodeRes>, input: Input) {
    Tables.IsReport(rows, Checked(all, input), RowIs(input))
  }

  method ReconcileNodeVersionsElected(all: seq<Resources.NodeRes>, input: Input) returns (rows: seq<Row>)
    ensures IsVersionReport(rows, all, input)
    ensures Sorting.SortedByText(rows, NodeId)
  {
    hide Sequences.Filter, Expectation, FirstDefault;
    var default := FindDefault(input.versions);
    var nodes, want := VersionCheckedNodes(input.versions, all);
    rows := [];
    for i := 0 to |nodes|
      invariant Tables.InStep(rows, nodes[..i], RowIs(input))
    {
      var n, exp := nodes[i], want[i];
      var got := if n.id in input.reported then input.reported[n.id] else NodeVersion("", "", false);
      var status := Mismatch;
      if got.err != "" || got.version == "" {
        status := Unreachable;
      } else if got.version == exp.version {
        status := Running;
      }
      rows := rows + [Row(n.id, n.name, exp.version, got.version, got.err, status,
                          got.indirect && got.version != "",
                          input.elected.Known() && !input.elected.Elected(exp.version),
                          exp.source, default.Some? && exp.source == FromNode)];
    }
    assert nodes[..|nodes|] == nodes;
    ghost var unsorted := rows;
    rows := Sorting.SortByText(rows, NodeId);
    assert multiset(rows) == multiset(unsorted) && Tables.InStep(unsorted, Checked(all, input), RowIs(input));
  }

  /**
   Every verdict on a checked node and what else its row says: the block's own version or the default's as
   what is declared, the node's own answer as what is actual, and an override only where there is a default.
   */
  lemma RowMeans(r: Row, n: Resources.NodeRes, input: Input)
    requires IsRow(r, n, input)
    ensures !n.decommissioned && n.guestosVersion != "none" && r.nodeId == n.id && r.name == n.name
    ensures if n.guestosVersion != "" then r.declared == n.guestosVersion && r.from == FromNode
            else r.from == FromDefault && exists i: int :: IsFirstDefault(input.versions, i) && input.versions[i].id == r.declared
    ensures r.overridden <==> n.guestosVersion != "" && exists v :: v in input.versions && v.isDefault
    ensures if n.id in input.reported then r.actual == input.reported[n.id].version && r.err == input.reported[n.id].err
            else r.actual == "" && r.err == ""
    ensures r.status == if r.err != "" || r.actual == "" then Unreachable else if r.actual == r.declared then Running else Mismatch
    ensures r.indirect <==> n.id in input.reported && input.reported[n.id].indirect && r.actual != ""
    ensures r.unelected <==> |input.elected.ids| > 0 && !(r.declared in input.elected.ids && input.elected.ids[r.declared])
  {
    hide FirstDefault;
    ExpectationMeans(input.versions, n);
    FirstDefaultMeans(input.versions);
  }

  /** A node that answers with something other than what is expected of it. */
  ghost predicate RunsOther(n: Resources.NodeRes, input: Input) {
    var e, got := Expectation(input.versions, n), Reported(input, n.id);
    e.Some? && got.err == "" && got.version != "" && got.version != e.value.version
  }

  /** Drift is exact: some node answers, and with another version than its expectation. An outage is not drift. */
  lemma VersionDriftIff(rows: seq<Row>, all: seq<Resources.NodeRes>, input: Input)
    requires IsVersionReport(rows, all, input)
    ensures Tables.Drifts(rows, InOrder) <==> exists n :: n in all && RunsOther(n, input)
  {
    hide Sequences.Filter, Tables.IsReport, Expectation;
    if Tables.Drifts(rows, InOrder) {
      var r :| r in rows && !InOrder(r);
      var n := Tables.ItemOfRow(rows, Checked(all, input), RowIs(input), r);
      assert n in all && RunsOther(n, input);
    }
    if exists n :: n in all && RunsOther(n, input) {
      var n :| n in all && RunsOther(n, input);
      assert n in Checked(all, input);
      var r := Tables.RowOfItem(rows, Checked(all, input), RowIs(input), n);
      assert !InOrder(r);
    }
  }

  predicate DifferentIds(a: Resources.NodeRes, b: Resources.NodeRes) {
    a.id != b.id
  }

  predicate DifferentRows(r: Row, q: Row) {
    r.nodeId != q.nodeId
  }

  /** With unique ids, no two rows are about the same node, so each checked node's row is the one. */
  lemma OneRowPerNode(rows: seq<Row>, all: seq<Resources.NodeRes>, input: Input)
    requires Resources.UniqueIds(all) && IsVersionReport(rows, all, input)
    ensures forall i, j :: 0 <= i < j < |rows| ==> rows[i].nodeId != rows[j].nodeId
  {
    hide Sequences.Filter;
    var nodes := Checked(all, input);
    assert Sequences.Pairwise(all, DifferentIds);
    Sequences.FilterPairwise(all, n => Expectation(input.versions, n).Some?, DifferentIds);
    var unsorted :| multiset(rows) == multiset(unsorted) && Tables.InStep(unsorted, nodes, RowIs(input));
    forall i, j | 0 <= i < j < |unsorted| ensures DifferentRows(unsorted[i], unsorted[j]) {
      assert IsRow(unsorted[i], nodes[i], input) && IsRow(unsorted[j], nodes[j], input);
      assert DifferentIds(nodes[i], nodes[j]);
    }
    Sequences.PairwisePermutes(unsorted, rows, DifferentRows);
    forall i, j | 0 <= i < j < |rows| ensures rows[i].nodeId != rows[j].nodeId {
      assert DifferentRows(rows[i], rows[j]);
    }
  }

  /** Reordering the version blocks of an accepted file changes no row. */
  lemma BlockOrderIrrelevant(r: Row, n: Resources.NodeRes, input: Input, reordered: Input)
    requires reordered == input.(versions := reordered.versions)
    requires multiset(input.versions) == multiset(reordered.versions) && UniqueNames(input.versions)
    requires OnlyLastNamed(Defaults(input.versions)) && OnlyLastNamed(Defaults(reordered.versions))
    ensures IsRow(r, n, input) <==> IsRow(r, n, reordered)
  {
    hide UniqueNames, OnlyLastNamed, Defaults;
    ExpectationPermutes(input.versions, reordered.versions, n);
  }
}
