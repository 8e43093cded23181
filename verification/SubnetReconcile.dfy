/** Declared against live subnet membership (nns/reconcile.go). */
module SubnetReconcile {
  import opened Wrappers
  import Sequences
  import Sorting
  import Resources
  import Tables

  datatype Status = InSync | Missing | Unmanaged | Deregistered

  datatype Row = Row(nodeId: string, name: string, rowLabel: string, status: Status)

  function NodeId(r: Row): string {
    r.nodeId
  }

  predicate InOrder(r: Row) {
    r.status == InSync
  }

  /** What a reconcile is given: the blocks, the live list, whether records were read, and the labels. */
  datatype Input = Input(
    nodes: seq<Resources.NodeRes>, subnetId: string, live: seq<string>,
    registered: Option<map<string, bool>>, labels: map<string, string>)

  function LabelFor(labels: map<string, string>, id: string): string {
    if id in labels then labels[id] else ""
  }

  /** The blocks declaring this subnet, by id; a later block replaces an earlier one of the same id. */
  function Declared(nodes: seq<Resources.NodeRes>, subnetId: string): map<string, Resources.NodeRes> {
    if nodes == [] then map[]
    else
      var n := nodes[|nodes| - 1];
      var earlier := Declared(nodes[..|nodes| - 1], subnetId);
      if n.subnet == subnetId then earlier[n.id := n] else earlier
  }

  function DeclaredIds(nodes: seq<Resources.NodeRes>, subnetId: string): set<string> {
    set n | n in nodes && n.subnet == subnetId :: n.id
  }

  lemma {:induction false} DeclaredKeys(nodes: seq<Resources.NodeRes>, subnetId: string)
    ensures Declared(nodes, subnetId).Keys == DeclaredIds(nodes, subnetId)
    ensures forall id :: id in Declared(nodes, subnetId) ==>
              Declared(nodes, subnetId)[id] in nodes && Declared(nodes, subnetId)[id].id == id
  {
    if nodes != [] {
      var front, n := nodes[..|nodes| - 1], nodes[|nodes| - 1];
      assert nodes == front + [n];
      DeclaredKeys(front, subnetId);
      assert DeclaredIds(nodes, subnetId) == DeclaredIds(front, subnetId) + if n.subnet == subnetId then {n.id} else {};
    }
  }

  /** Position i has the last block declaring this subnet under this id. */
  predicate LastDeclared(nodes: seq<Resources.NodeRes>, subnetId: string, id: string, i: int) {
    && 0 <= i < |nodes| && nodes[i].id == id && nodes[i].subnet == subnetId
    && forall j :: i < j < |nodes| && nodes[j].id == id ==> nodes[j].subnet != subnetId
  }

  lemma {:induction false} DeclaredIsLast(nodes: seq<Resources.NodeRes>, subnetId: string, id: string) returns (i: int)
    requires id in Declared(nodes, subnetId)
    ensures LastDeclared(nodes, subnetId, id, i) && Declared(nodes, subnetId)[id] == nodes[i]
  {
    i := |nodes| - 1;
    if nodes[i].id != id || nodes[i].subnet != subnetId {
      i := DeclaredIsLast(nodes[..|nodes| - 1], subnetId, id);
    }
  }

  /** The verdict on one id, by which sides know it and whether its record is gone. */
  ghost predicate Classified(r: Row, input: Input) {
    var declared := DeclaredIds(input.nodes, input.subnetId);
    && (r.nodeId in declared || r.nodeId in input.live)
    && match r.status
       case InSync => r.nodeId in declared && r.nodeId in input.live
       case Unmanaged => r.nodeId !in declared
       case Deregistered =>
         && r.nodeId in declared && r.nodeId !in input.live
         && input.registered.Some? && r.nodeId in input.registered.value && !input.registered.value[r.nodeId]
       case Missing =>
         && r.nodeId in declared && r.nodeId !in input.live
         && (input.registered.Some? && r.nodeId in input.registered.value ==> input.registered.value[r.nodeId])
  }

  ghost predicate Described(r: Row, input: Input) {
    var declared := Declared(input.nodes, input.subnetId);
    if r.nodeId in declared then r.name == declared[r.nodeId].name && r.rowLabel == declared[r.nodeId].nodeLabel
    else r.name == "" && r.rowLabel == LabelFor(input.labels, r.nodeId)
  }

  /** How many rows are about id. */
  ghost function Mentions(rows: seq<Row>, id: string): nat {
    |Sequences.Filter(rows, (r: Row) => r.nodeId == id)|
  }

  lemma MentionsAppendAll(rows: seq<Row>, r: Row)
    ensures forall id :: Mentions(rows + [r], id) == Mentions(rows, id) + if r.nodeId == id then 1 else 0
  {
  }

  /** The rows of the declared nodes, in whatever order Go ranges over the map. */
  method DeclaredRows(input: Input, declared: map<string, Resources.NodeRes>, live: set<string>) returns (rows: seq<Row>)
    requires declared == Declared(input.nodes, input.subnetId) && live == Sequences.ToSet(input.live)
    requires declared.Keys == DeclaredIds(input.nodes, input.subnetId)
    ensures forall r :: r in rows ==> Classified(r, input) && Described(r, input)
    ensures forall id :: Mentions(rows, id) == if id in declared then 1 else 0
  {
    hide Mentions, Declared, DeclaredIds;
    rows := [];
    NoMentions();
    var rest := declared.Keys;
    while rest != {}
      invariant rest <= declared.Keys
      invariant forall r :: r in rows ==> Classified(r, input) && Described(r, input)
      invariant forall id :: Mentions(rows, id) == if id in declared && id !in rest then 1 else 0
    {
      var id :| id in rest;
      var status := Missing;
      if id in live {
        status := InSync;
      } else if input.registered.Some? && id in input.registered.value && !input.registered.value[id] {
        status := Deregistered;
      }
      var r := Row(id, declared[id].name, declared[id].nodeLabel, status);
      assert Classified(r, input) && Described(r, input);
      MentionsAppendAll(rows, r);
      rows := rows + [r];
      rest := rest - {id};
    }
  }

  /** One row per declared id, and one per live entry that no block declares. */
  method Reconcile(input: Input) returns (rows: seq<Row>)
    ensures forall r :: r in rows ==> Classified(r, input) && Described(r, input)
    ensures forall id :: Mentions(rows, id) ==
              if id in DeclaredIds(input.nodes, input.subnetId) then 1 else multiset(input.live)[id]
    ensures Sorting.SortedByText(rows, NodeId)
  {
    hide Mentions, Declared, DeclaredIds, Classified, Described;
    var live: set<string> := {};
    for i := 0 to |input.live|
      invariant live == Sequences.ToSet(input.live[..i])
    {
      live := live + {input.live[i]};
    }
    assert input.live[..|input.live|] == input.live;
    var declared := DeclaredOn(input.nodes, input.subnetId);
    DeclaredKeys(input.nodes, input.subnetId);
    rows := DeclaredRows(input, declared, live);
    for i := 0 to |input.live|
      invariant forall r :: r in rows ==> Classified(r, input) && Described(r, input)
      invariant forall id :: Mentions(rows, id) == if id in declared then 1 else multiset(input.live[..i])[id]
    {
      var id := input.live[i];
      assert input.live[..i + 1] == input.live[..i] + [id];
      if id !in declared {
        var r := Row(id, "", LabelFor(input.labels, id), Unmanaged);
        UnmanagedFits(input, id);
        MentionsAppendAll(rows, r);
        rows := rows + [r];
      }
    }
    ghost var unsorted := rows;
    rows := Sorting.SortByText(rows, NodeId);
    Sequences.PermutationSameElements(rows, unsorted);
    forall id ensures Mentions(rows, id) == Mentions(unsorted, id) {
      MentionsPermute(rows, unsorted, id);
    }
  }

  lemma UnmanagedFits(input: Input, id: string)
    requires id in input.live && id !in DeclaredIds(input.nodes, input.subnetId)
    ensures var r := Row(id, "", LabelFor(input.labels, id), Unmanaged); Classified(r, input) && Described(r, input)
  {
    DeclaredKeys(input.nodes, input.subnetId);
  }

  lemma NoMentions()
    ensures forall id :: Mentions([], id) == 0
  {
  }

  lemma MentionsPermute(rows: seq<Row>, others: seq<Row>, id: string)
    requires multiset(rows) == multiset(others)
    ensures Mentions(rows, id) == Mentions(others, id)
  {
    Sequences.FilterPermutes(rows, others, (r: Row) => r.nodeId == id);
  }

  lemma Mentioned(rows: seq<Row>, id: string)
    ensures Mentions(rows, id) > 0 <==> exists r :: r in rows && r.nodeId == id
  {
    var about := Sequences.Filter(rows, (r: Row) => r.nodeId == id);
    if about != [] {
      assert about[0] in about;
    }
  }

  method DeclaredOn(nodes: seq<Resources.NodeRes>, subnetId: string) returns (declared: map<string, Resources.NodeRes>)
    ensures declared == Declared(nodes, subnetId)
  {
    declared := map[];
    for i := 0 to |nodes|
      invariant declared == Declared(nodes[..i], subnetId)
    {
      assert nodes[..i + 1][..i] == nodes[..i];
      if nodes[i].subnet == subnetId {
        declared := declared[nodes[i].id := nodes[i]];
      }
    }
    assert nodes[..|nodes|] == nodes;
  }

  /** A row's name and label: the last declaring block's, or for an undeclared node no name and the label on file. */
  lemma ColumnsMean(r: Row, input: Input)
    requires Described(r, input)
    ensures
      if r.nodeId in DeclaredIds(input.nodes, input.subnetId) then
        exists i: int :: LastDeclared(input.nodes, input.subnetId, r.nodeId, i)
                      && r.name == input.nodes[i].name && r.rowLabel == input.nodes[i].nodeLabel
      else r.name == "" && r.rowLabel == if r.nodeId in input.labels then input.labels[r.nodeId] else ""
  {
    DeclaredKeys(input.nodes, input.subnetId);
    if r.nodeId in Declared(input.nodes, input.subnetId) {
      var i := DeclaredIsLast(input.nodes, input.subnetId, r.nodeId);
    }
  }

  /** The row about an id that either side knows, with its verdict. */
  lemma VerdictOf(rows: seq<Row>, input: Input, id: string) returns (r: Row)
    requires forall r :: r in rows ==> Classified(r, input)
    requires forall id :: Mentions(rows, id) ==
               if id in DeclaredIds(input.nodes, input.subnetId) then 1 else multiset(input.live)[id]
    requires id in DeclaredIds(input.nodes, input.subnetId) || id in input.live
    ensures r in rows && r.nodeId == id
    ensures r.status ==
      if id !in DeclaredIds(input.nodes, input.subnetId) then Unmanaged
      else if id in input.live then InSync
      else if input.registered.Some? && id in input.registered.value && !input.registered.value[id] then Deregistered
      else Missing
  {
    hide Mentions, DeclaredIds;
    Mentioned(rows, id);
    assert id in input.live ==> id in multiset(input.live);
    r :| r in rows && r.nodeId == id;
  }

  /** Drift is exact: the report drifts iff the declared and the live sets differ. */
  lemma DriftIff(rows: seq<Row>, input: Input)
    requires forall r :: r in rows ==> Classified(r, input)
    requires forall id :: Mentions(rows, id) ==
               if id in DeclaredIds(input.nodes, input.subnetId) then 1 else multiset(input.live)[id]
    ensures Tables.Drifts(rows, InOrder) <==> DeclaredIds(input.nodes, input.subnetId) != Sequences.ToSet(input.live)
  {
    hide Mentions, DeclaredIds;
    var declared := DeclaredIds(input.nodes, input.subnetId);
    if declared != Sequences.ToSet(input.live) {
      var id :| id in declared <==> id !in input.live;
      Mentioned(rows, id);
      assert id in input.live ==> id in multiset(input.live);
      var r :| r in rows && r.nodeId == id;
      assert !InOrder(r);
    }
  }
}
