/**
 The checks on resources.hcl and what they buy (nns/resources.go): names and ids that cannot be
 confused, and one default GuestOS version.
 */
module Resources {
  import opened Wrappers
  import opened Sequences

  datatype BlockType = Subnet | Node | NodeProvider | NodeOperator | DataCenter | GuestosVersion

  /** id is "" when the block has none, or one that is not a literal. */
  datatype Block = Block(kind: BlockType, name: string, id: string, blockLabel: string)

  /** A decoded node block. Optional attributes left out read as "". */
  datatype NodeRes = NodeRes(
    id: string, name: string, nodeLabel: string, subnet: string, operator: string,
    decommissioned: bool, guestosVersion: string, chipId: string)

  ghost predicate UniqueIds(nodes: seq<NodeRes>) {
    forall i, j :: 0 <= i < j < |nodes| ==> nodes[i].id != nodes[j].id
  }

  function TypeName(kind: BlockType): string {
    match kind
    case Subnet => "subnet"
    case Node => "node"
    case NodeProvider => "node_provider"
    case NodeOperator => "node_operator"
    case DataCenter => "data_center"
    case GuestosVersion => "guestos_version"
  }

  function Key(kind: BlockType, separator: char, rest: string): string {
    TypeName(kind) + [separator] + rest
  }

  lemma TypeNamesDiffer(a: BlockType, b: BlockType)
    requires TypeName(a) == TypeName(b)
    ensures a == b
  {
  }

  /** One map serves every kind: the separator occurs in no kind's name, so no two pairs share a key. */
  lemma KeyInjective(a: BlockType, x: string, b: BlockType, y: string, separator: char)
    requires separator == '.' || separator == '\0'
    requires Key(a, separator, x) == Key(b, separator, y)
    ensures a == b && x == y
  {
    var s, t := TypeName(a), TypeName(b);
    var k := Key(a, separator, x);
    assert separator !in s && separator !in t;
    assert k[|s|] == separator && k[|t|] == separator;
    assert forall i :: 0 <= i < |s| ==> k[i] == s[i];
    assert forall i :: 0 <= i < |t| ==> k[i] == t[i];
    assert |s| == |t|;
    assert s == k[..|s|] == t && x == k[|s| + 1..] == y;
    TypeNamesDiffer(a, b);
  }

  predicate SameName(a: Block, b: Block) {
    a.kind == b.kind && a.name == b.name
  }

  /** Versions are exempt: an alias carries the hash of the entry it points at. */
  predicate HasId(b: Block) {
    b.kind != GuestosVersion && b.id != ""
  }

  predicate SameId(a: Block, b: Block) {
    HasId(a) && a.kind == b.kind && a.id == b.id
  }

  predicate Apart(a: Block, b: Block) {
    !SameName(a, b) && !SameId(a, b)
  }

  /** A collision, with the positions of both blocks. */
  datatype Duplicate = DuplicateName(first: nat, second: nat) | DuplicateId(first: nat, second: nat)

  ghost predicate IsFirstDuplicate(blocks: seq<Block>, d: Duplicate) {
    && d.first < d.second < |blocks|
    && Pairwise(blocks[..d.second], Apart)
    && match d
       case DuplicateName(i, j) => SameName(blocks[i], blocks[j])
       case DuplicateId(i, j) =>
         SameId(blocks[i], blocks[j]) && forall k :: 0 <= k < j ==> !SameName(blocks[k], blocks[j])
  }

  ghost predicate NamesRecorded(names: map<string, nat>, blocks: seq<Block>) {
    && (forall k :: k in names ==> names[k] < |blocks| && k == Key(blocks[names[k]].kind, '.', blocks[names[k]].name))
    && (forall i :: 0 <= i < |blocks| ==> Key(blocks[i].kind, '.', blocks[i].name) in names)
  }

  ghost predicate IdsRecorded(ids: map<string, nat>, blocks: seq<Block>) {
    && (forall k :: k in ids ==>
          ids[k] < |blocks| && HasId(blocks[ids[k]]) && k == Key(blocks[ids[k]].kind, '\0', blocks[ids[k]].id))
    && (forall i :: 0 <= i < |blocks| && HasId(blocks[i]) ==> Key(blocks[i].kind, '\0', blocks[i].id) in ids)
  }

  lemma Recorded(names: map<string, nat>, ids: map<string, nat>, blocks: seq<Block>, b: Block)
    requires NamesRecorded(names, blocks) && IdsRecorded(ids, blocks)
    ensures NamesRecorded(names[Key(b.kind, '.', b.name) := |blocks|], blocks + [b])
    ensures HasId(b) ==> IdsRecorded(ids[Key(b.kind, '\0', b.id) := |blocks|], blocks + [b])
    ensures !HasId(b) ==> IdsRecorded(ids, blocks + [b])
  {
    hide Key;
  }

  lemma NameSeen(names: map<string, nat>, blocks: seq<Block>, b: Block)
    requires NamesRecorded(names, blocks)
    ensures Key(b.kind, '.', b.name) in names ==>
              var i := names[Key(b.kind, '.', b.name)]; i < |blocks| && SameName(blocks[i], b)
    ensures Key(b.kind, '.', b.name) !in names ==> forall i :: 0 <= i < |blocks| ==> !SameName(blocks[i], b)
  {
    var k := Key(b.kind, '.', b.name);
    if k in names {
      KeyInjective(blocks[names[k]].kind, blocks[names[k]].name, b.kind, b.name, '.');
    }
  }

  lemma IdSeen(ids: map<string, nat>, blocks: seq<Block>, b: Block)
    requires IdsRecorded(ids, blocks) && HasId(b)
    ensures Key(b.kind, '\0', b.id) in ids ==>
              var i := ids[Key(b.kind, '\0', b.id)]; i < |blocks| && SameId(blocks[i], b)
    ensures Key(b.kind, '\0', b.id) !in ids ==> forall i :: 0 <= i < |blocks| ==> !SameId(blocks[i], b)
  {
    var k := Key(b.kind, '\0', b.id);
    if k in ids {
      KeyInjective(blocks[ids[k]].kind, blocks[ids[k]].id, b.kind, b.id, '\0');
    }
  }

  lemma PairwiseAppend(blocks: seq<Block>, b: Block)
    requires Pairwise(blocks, Apart) && forall i :: 0 <= i < |blocks| ==> Apart(blocks[i], b)
    ensures Pairwise(blocks + [b], Apart)
  {
  }

  /** Accepts exactly the files without a collision, and otherwise names the first. */
  method CheckUnique(blocks: seq<Block>) returns (r: Result<(), Duplicate>)
    ensures r.Ok? <==> Pairwise(blocks, Apart)
    ensures r.Err? ==> IsFirstDuplicate(blocks, r.error)
  {
    hide Key, Pairwise, NamesRecorded, IdsRecorded;
    var names: map<string, nat>, ids: map<string, nat> := map[], map[];
    NothingRecorded();
    assert blocks[..0] == [];
    for i := 0 to |blocks|
      invariant NamesRecorded(names, blocks[..i])
      invariant IdsRecorded(ids, blocks[..i])
      invariant Pairwise(blocks[..i], Apart)
    {
      var b := blocks[i];
      assert blocks[..i + 1] == blocks[..i] + [b];
      Recorded(names, ids, blocks[..i], b);
      NameSeen(names, blocks[..i], b);
      var key := Key(b.kind, '.', b.name);
      if key in names {
        NotPairwise(blocks, names[key], i);
        return Err(DuplicateName(names[key], i));
      }
      names := names[key := i];
      if b.kind == GuestosVersion || b.id == "" {
        PairwiseAppend(blocks[..i], b);
        continue;
      }
      IdSeen(ids, blocks[..i], b);
      var idKey := Key(b.kind, '\0', b.id);
      if idKey in ids {
        NotPairwise(blocks, ids[idKey], i);
        return Err(DuplicateId(ids[idKey], i));
      }
      ids := ids[idKey := i];
      PairwiseAppend(blocks[..i], b);
    }
    assert blocks[..|blocks|] == blocks;
    return Ok(());
  }

  lemma NothingRecorded()
    ensures NamesRecorded(map[], []) && IdsRecorded(map[], []) && Pairwise([], Apart)
  {
  }

  lemma NotPairwise(blocks: seq<Block>, i: nat, j: nat)
    requires i < j < |blocks| && !Apart(blocks[i], blocks[j])
    ensures !Pairwise(blocks, Apart)
  {
  }

  /** Block order never decides whether a file is accepted. */
  lemma UniquePermutes(blocks: seq<Block>, others: seq<Block>)
    requires multiset(blocks) == multiset(others)
    ensures Pairwise(blocks, Apart) <==> Pairwise(others, Apart)
  {
    hide Pairwise;
    if Pairwise(blocks, Apart) {
      PairwisePermutes(blocks, others, Apart);
    }
    if Pairwise(others, Apart) {
      PairwisePermutes(others, blocks, Apart);
    }
  }

  // References by name.

  datatype Object = Object(id: string, objectLabel: string)

  function ObjectsOf(bs: seq<Block>): map<string, Object> {
    if bs == [] then map[]
    else
      var b := bs[|bs| - 1];
      ObjectsOf(bs[..|bs| - 1])[b.name := Object(b.id, b.blockLabel)]
  }

  method ObjectsByName(bs: seq<Block>) returns (out: map<string, Object>)
    ensures out == ObjectsOf(bs)
  {
    out := map[];
    for i := 0 to |bs|
      invariant out == ObjectsOf(bs[..i])
    {
      assert bs[..i + 1][..i] == bs[..i];
      out := out[bs[i].name := Object(bs[i].id, bs[i].blockLabel)];
    }
    assert bs[..|bs|] == bs;
  }

  lemma {:induction false} DistinctNamesResolve(bs: seq<Block>, b: Block)
    requires forall i, j :: 0 <= i < j < |bs| ==> bs[i].name != bs[j].name
    requires b in bs
    ensures b.name in ObjectsOf(bs) && ObjectsOf(bs)[b.name] == Object(b.id, b.blockLabel)
  {
    var front, last := bs[..|bs| - 1], bs[|bs| - 1];
    assert bs == front + [last];
    if b != last {
      assert b in front;
      DistinctNamesResolve(front, b);
      var i :| 0 <= i < |front| && front[i] == b;
      assert bs[i].name != bs[|bs| - 1].name;
    }
  }

  function OfKind(blocks: seq<Block>, kind: BlockType): seq<Block> {
    Filter(blocks, (b: Block) => b.kind == kind)
  }

  /** In an accepted file every reference <kind>.<name> resolves to its own block, wherever the block stands. */
  lemma ReferencesResolve(blocks: seq<Block>, b: Block)
    requires Pairwise(blocks, Apart) && b in blocks
    ensures var objects := ObjectsOf(OfKind(blocks, b.kind));
            b.name in objects && objects[b.name] == Object(b.id, b.blockLabel)
  {
    var keep := (c: Block) => c.kind == b.kind;
    FilterPairwise(blocks, keep, Apart);
    var bs := Filter(blocks, keep);
    forall i, j | 0 <= i < j < |bs| ensures bs[i].name != bs[j].name {
      assert Apart(bs[i], bs[j]) && bs[i] in bs && bs[j] in bs;
    }
    DistinctNamesResolve(bs, b);
  }

  /** A table of names has every block's name, and of several blocks with one name it shows the last. */
  lemma {:induction false} ObjectNames(bs: seq<Block>, name: string)
    ensures name in ObjectsOf(bs) <==> exists b :: b in bs && b.name == name
  {
    if bs != [] {
      assert bs == bs[..|bs| - 1] + [bs[|bs| - 1]];
      ObjectNames(bs[..|bs| - 1], name);
    }
  }

  lemma {:induction false} ObjectsAreLast(bs: seq<Block>, name: string) returns (i: int)
    requires name in ObjectsOf(bs)
    ensures LastNamed(bs, name, i) && Shows(ObjectsOf(bs)[name], bs[i])
  {
    i := |bs| - 1;
    if bs[i].name != name {
      i := ObjectsAreLast(bs[..|bs| - 1], name);
    }
  }

  predicate LastNamed(bs: seq<Block>, name: string, i: int) {
    0 <= i < |bs| && bs[i].name == name && forall j :: i < j < |bs| ==> bs[j].name != name
  }

  predicate Shows(o: Object, b: Block) {
    o.id == b.id && o.objectLabel == b.blockLabel
  }

  // Node blocks, decoded.

  /** The node of a node block. An id the block gives as an expression, which the check reads as none, may be any text. */
  ghost predicate Decodes(b: Block, n: NodeRes) {
    b.kind == Node && b.name == n.name && b.blockLabel == n.nodeLabel && (b.id != "" ==> b.id == n.id)
  }

  ghost predicate DecodeNodes(blocks: seq<Block>, nodes: seq<NodeRes>) {
    |blocks| == |nodes| && forall i :: 0 <= i < |nodes| ==> Decodes(blocks[i], nodes[i])
  }

  /** No node whose block's id escapes the check repeats another node's. */
  ghost predicate EscapedApart(blocks: seq<Block>, nodes: seq<NodeRes>)
    requires |blocks| == |nodes|
  {
    forall i, j :: 0 <= i < j < |nodes| && (blocks[i].id == "" || blocks[j].id == "") ==> nodes[i].id != nodes[j].id
  }

  /**
   In an accepted file node names are unique, and node ids are, as the drift reports want them, unless one
   that is no literal repeats another: with literal ids throughout they always are.
   */
  lemma AcceptedNodesUnique(blocks: seq<Block>, nodes: seq<NodeRes>)
    requires Pairwise(blocks, Apart) && DecodeNodes(OfKind(blocks, Node), nodes)
    ensures UniqueIds(nodes) <==> EscapedApart(OfKind(blocks, Node), nodes)
    ensures (forall b :: b in OfKind(blocks, Node) ==> b.id != "") ==> UniqueIds(nodes)
    ensures forall i, j :: 0 <= i < j < |nodes| ==> nodes[i].name != nodes[j].name
  {
    hide Pairwise, Filter;
    var bs := OfKind(blocks, Node);
    FilterPairwise(blocks, (b: Block) => b.kind == Node, Apart);
    forall i, j | 0 <= i < j < |nodes|
      ensures bs[i].id != "" && bs[j].id != "" ==> nodes[i].id != nodes[j].id
      ensures nodes[i].name != nodes[j].name
    {
      PairApart(bs, i, j);
      assert Decodes(bs[i], nodes[i]) && Decodes(bs[j], nodes[j]);
    }
    assert forall i :: 0 <= i < |bs| ==> bs[i] in bs;
  }

  /** Two nodes whose ids are one expression pass under one id. */
  lemma EscapedIds(id: string)
    ensures
      var a, b := Block(Node, "a", "", ""), Block(Node, "b", "", "");
      var nodes := [NodeRes(id, "a", "", "", "", false, "", ""), NodeRes(id, "b", "", "", "", false, "", "")];
      Pairwise([a, b], Apart) && DecodeNodes(OfKind([a, b], Node), nodes) && !UniqueIds(nodes)
  {
    hide Filter;
    FilterUniform([Block(Node, "a", "", ""), Block(Node, "b", "", "")], (b: Block) => b.kind == Node);
    var nodes := [NodeRes(id, "a", "", "", "", false, "", ""), NodeRes(id, "b", "", "", "", false, "", "")];
    assert nodes[0].id == nodes[1].id;
  }

  lemma PairApart(bs: seq<Block>, i: nat, j: nat)
    requires Pairwise(bs, Apart) && i < j < |bs|
    ensures Apart(bs[i], bs[j])
  {
  }

  /** Only version blocks may share an id: of any other kind two blocks do only when neither gives one. */
  lemma AcceptedIds(blocks: seq<Block>, i: nat, j: nat)
    requires Pairwise(blocks, Apart) && i < j < |blocks| && blocks[i].kind == blocks[j].kind
    ensures blocks[i].id == blocks[j].id ==> blocks[i].kind == GuestosVersion || blocks[i].id == ""
  {
    PairApart(blocks, i, j);
  }

  /** And they may: two version blocks of one id pass. */
  lemma VersionsShareIds(a: Block, b: Block)
    requires a.kind == b.kind == GuestosVersion && a.name != b.name
    ensures Pairwise([a, b], Apart)
  {
  }
}
