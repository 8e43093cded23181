/**
 The records a dry run fabricates (nns/seed.go). Node ids are principals of freshly drawn
 signing keys, so the draws are a parameter: draw(i) is the i-th key the process generates.
 */
module Seed {
  import opened Wrappers
  import opened Sequences
  import opened Registry
  import opened UniqueBytes

  /** numNodes is a Go int: a negative count seeds no node. */
  datatype SubnetSeed = SubnetSeed(subnet: Id, numNodes: int, version: string)
  datatype ProviderSeed = ProviderSeed(provider: Id, operator: Id, dc: string, region: string)
  datatype DataCenterSeed = DataCenterSeed(id: string, region: string, owner: string)

  datatype SigningKey = SigningKey(raw: Bytes, node: Id)
  type Draw = nat -> SigningKey

  function Count(n: int): nat {
    if n < 0 then 0 else n
  }

  /** uint32(4100 + salt), at the fifth salt of node i. */
  function XnetPort(i: nat): nat {
    (4100 + 5 * (i + 1)) % 0x1_0000_0000
  }

  function HttpPort(i: nat): nat {
    (XnetPort(i) + 10000) % 0x1_0000_0000
  }

  /** The six records of one node. */
  function NodeRecords(n: Id, signing: Bytes, committee: Bytes, dealing: Bytes, mega: Bytes, cert: Bytes,
                       xnet: nat, http: nat): seq<Mutation>
  {
    [Mutation(CryptoKey(n, NodeSigning), PublicKeyValue(signing)),
     Mutation(CryptoKey(n, CommitteeSigning), PublicKeyValue(committee)),
     Mutation(CryptoKey(n, DkgDealingEncryption), PublicKeyValue(dealing)),
     Mutation(CryptoKey(n, IDkgMEGaEncryption), PublicKeyValue(mega)),
     Mutation(TlsKey(n), CertValue(cert)),
     Mutation(NodeKey(n), NodeValue(NodeRecord("", "", xnet, http)))]
  }

  /** Node i of the whole batch uses salts 5i + 1 to 5i + 5, the last one for its ports. */
  function NodeMutations(draw: Draw, i: nat): seq<Mutation> {
    NodeRecords(draw(i).node, draw(i).raw, UniqueKey(5 * i + 1), UniqueKey(5 * i + 2), UniqueKey(5 * i + 3),
                UniqueKey(5 * i + 4), XnetPort(i), HttpPort(i))
  }

  /** The records of nodes from .. from + n. */
  function NodesMutations(draw: Draw, from: nat, n: nat): seq<Mutation> {
    if n == 0 then [] else NodesMutations(draw, from, n - 1) + NodeMutations(draw, from + n - 1)
  }

  function NodeIds(draw: Draw, from: nat, n: nat): (ids: seq<Id>)
    ensures |ids| == n && forall i :: 0 <= i < n ==> ids[i] == draw(from + i).node
  {
    if n == 0 then [] else NodeIds(draw, from, n - 1) + [draw(from + n - 1).node]
  }

  /** How many nodes the first k seeds fabricate. */
  function NodesBefore(seeds: seq<SubnetSeed>, k: nat): nat
    requires k <= |seeds|
  {
    if k == 0 then 0 else NodesBefore(seeds, k - 1) + Count(seeds[k - 1].numNodes)
  }

  function SeededMembers(draw: Draw, seeds: seq<SubnetSeed>, k: nat): seq<Id>
    requires k < |seeds|
  {
    NodeIds(draw, NodesBefore(seeds, k), Count(seeds[k].numNodes))
  }

  /** The threshold key and the CUP carry the same point. */
  function CryptoRecords(s: Id, point: Bytes): seq<Mutation> {
    [Mutation(ThresholdKey(s), PublicKeyValue(point)), Mutation(CatchUpKey(s), CupValue(point))]
  }

  /** One seeded subnet: its nodes, its record and its crypto pair. The first one is the system subnet. */
  function SubnetMutations(draw: Draw, point: Bytes, seeds: seq<SubnetSeed>, k: nat): seq<Mutation>
    requires k < |seeds|
  {
    NodesMutations(draw, NodesBefore(seeds, k), Count(seeds[k].numNodes))
    + [Mutation(SubnetKey(seeds[k].subnet),
                SubnetValue(SubnetRecord(SeededMembers(draw, seeds, k), seeds[k].version, k == 0)))]
    + CryptoRecords(seeds[k].subnet, point)
  }

  function SubnetsMutations(draw: Draw, point: Bytes, seeds: seq<SubnetSeed>, k: nat): seq<Mutation>
    requires k <= |seeds|
  {
    if k == 0 then []
    else SubnetsMutations(draw, point, seeds, k - 1) + SubnetMutations(draw, point, seeds, k - 1)
  }

  function SeedIds(seeds: seq<SubnetSeed>): (ids: seq<Id>)
    ensures |ids| == |seeds| && forall i :: 0 <= i < |seeds| ==> ids[i] == seeds[i].subnet
  {
    seq(|seeds|, i requires 0 <= i < |seeds| => seeds[i].subnet)
  }

  /** The nodes fabricated per subnet, as the first k seeds leave the map. */
  function MembersMap(draw: Draw, seeds: seq<SubnetSeed>, k: nat): map<Id, seq<Id>>
    requires k <= |seeds|
  {
    if k == 0 then map[] else MembersMap(draw, seeds, k - 1)[seeds[k - 1].subnet := SeededMembers(draw, seeds, k - 1)]
  }

  function VersionsOf(seeds: seq<SubnetSeed>, k: nat): set<string>
    requires k <= |seeds|
  {
    if k == 0 then {} else VersionsOf(seeds, k - 1) + {seeds[k - 1].version}
  }

  // The fabricating loops.

  /** One fabricated node: it advances the salt by five. */
  method SeedNode(salt: Salt, draw: Draw, ghost g: nat) returns (muts: seq<Mutation>, id: Id)
    requires salt.value == 5 * g
    modifies salt
    ensures salt.value == 5 * (g + 1)
    ensures muts == NodeMutations(draw, g) && id == draw(g).node
  {
    var key := draw(salt.value / 5);
    var committee := salt.Next();
    var dealing := salt.Next();
    var mega := salt.Next();
    var cert := salt.Next();
    salt.value := salt.value + 1;
    var port := (4100 + salt.value) % 0x1_0000_0000;
    assert key == draw(g) && port == XnetPort(g);
    assert committee == UniqueKey(5 * g + 1) && dealing == UniqueKey(5 * g + 2);
    assert mega == UniqueKey(5 * g + 3) && cert == UniqueKey(5 * g + 4);
    muts := NodeRecords(key.node, key.raw, committee, dealing, mega, cert, port, (port + 10000) % 0x1_0000_0000);
    id := key.node;
  }

  method SeedNodes(n: int, salt: Salt, draw: Draw, ghost from: nat) returns (muts: seq<Mutation>, ids: seq<Id>)
    requires salt.value == 5 * from
    modifies salt
    ensures salt.value == 5 * (from + Count(n))
    ensures muts == NodesMutations(draw, from, Count(n))
    ensures ids == NodeIds(draw, from, Count(n))
  {
    hide NodeMutations;
    muts, ids := [], [];
    var i := 0;
    while i < n
      invariant 0 <= i <= Count(n)
      invariant salt.value == 5 * (from + i)
      invariant muts == NodesMutations(draw, from, i)
      invariant ids == NodeIds(draw, from, i)
    {
      var m, id := SeedNode(salt, draw, from + i);
      muts := muts + m;
      ids := ids + [id];
      i := i + 1;
    }
  }

  /** Elects every version in use that the mirror has not brought along. Map order is any order. */
  method SeedReplicaVersions(versions: set<string>, mirrored: seq<string>) returns (muts: seq<Mutation>)
    ensures Elects(versions, mirrored, muts)
  {
    hide KeySet, DistinctKeys;
    NoKeys();
    muts := [];
    var rest := versions;
    while rest != {}
      invariant rest <= versions && Elects(versions - rest, mirrored, muts)
    {
      var v :| v in rest;
      ghost var before := muts;
      if v !in mirrored {
        muts := muts + [Mutation(VersionKey(v), EmptyVersionValue)];
        KeysAppend(before, Mutation(VersionKey(v), EmptyVersionValue));
      }
      rest := rest - {v};
      assert versions - rest == (versions - (rest + {v})) + {v};
    }
  }

  /** Lists the seeded subnets, then the mirrored ones not listed yet. */
  method ListSubnets(seeded: seq<Id>, extra: seq<Id>) returns (ids: seq<Id>)
    ensures Lists(seeded, extra, ids)
  {
    var listed := set s | s in seeded;
    ids := seeded;
    for i := 0 to |extra|
      invariant forall s :: s in listed <==> s in ids
      invariant Lists(seeded, extra[..i], ids)
    {
      if extra[i] in listed {
        continue;
      }
      listed := listed + {extra[i]};
      ids := ids + [extra[i]];
    }
  }

  /** subnet_list names every seeded and every mirrored subnet, once. */
  ghost predicate Lists(seeded: seq<Id>, extra: seq<Id>, ids: seq<Id>) {
    (Distinct(seeded) ==> Distinct(ids)) && forall s :: s in ids <==> s in seeded || s in extra
  }

  /** One empty record per version in use that the mirror did not bring along. */
  ghost predicate Elects(versions: set<string>, mirrored: seq<string>, muts: seq<Mutation>) {
    && DistinctKeys(muts)
    && (forall k :: k in KeySet(muts) <==> k.VersionKey? && k.version in versions && k.version !in mirrored)
    && (forall m :: m in muts ==> m.value == EmptyVersionValue)
  }

  predicate NothingSeeded(seeds: seq<SubnetSeed>, extraSubnets: seq<Id>, extraVersions: seq<string>) {
    |seeds| == 0 && |extraSubnets| == 0 && |extraVersions| == 0
  }

  function ListPart(ids: seq<Id>, elected: seq<Mutation>): seq<Mutation> {
    [Mutation(SubnetListKey, SubnetListValue(ids))] + elected
  }

  /** What seedMutations writes: the subnets, the list that names them, the versions they run. */
  function SubnetPart(draw: Draw, point: Bytes, seeds: seq<SubnetSeed>, ids: seq<Id>, elected: seq<Mutation>): seq<Mutation> {
    SubnetsMutations(draw, point, seeds, |seeds|) + ListPart(ids, elected)
  }

  method SeedSubnet(draw: Draw, point: Bytes, seeds: seq<SubnetSeed>, k: nat, salt: Salt)
    returns (muts: seq<Mutation>, nodes: seq<Id>)
    requires k < |seeds| && salt.value == 5 * NodesBefore(seeds, k)
    modifies salt
    ensures salt.value == 5 * NodesBefore(seeds, k + 1)
    ensures muts == SubnetMutations(draw, point, seeds, k)
    ensures nodes == SeededMembers(draw, seeds, k)
  {
    var s := seeds[k];
    muts, nodes := SeedNodes(s.numNodes, salt, draw, NodesBefore(seeds, k));
    var record := Mutation(SubnetKey(s.subnet), SubnetValue(SubnetRecord(nodes, s.version, k == 0)));
    muts := muts + [record] + CryptoRecords(s.subnet, point);
  }

  method SeedSubnets(draw: Draw, point: Bytes, seeds: seq<SubnetSeed>)
    returns (muts: seq<Mutation>, members: map<Id, seq<Id>>, versions: set<string>)
    ensures muts == SubnetsMutations(draw, point, seeds, |seeds|)
    ensures members == MembersMap(draw, seeds, |seeds|)
    ensures versions == VersionsOf(seeds, |seeds|)
  {
    muts, members, versions := [], map[], {};
    var salt := new Salt();
    for k := 0 to |seeds|
      invariant fresh(salt) && salt.value == 5 * NodesBefore(seeds, k)
      invariant muts == SubnetsMutations(draw, point, seeds, k)
      invariant versions == VersionsOf(seeds, k)
      invariant members == MembersMap(draw, seeds, k)
    {
      var subnetMuts, nodes := SeedSubnet(draw, point, seeds, k, salt);
      muts := muts + subnetMuts;
      members := members[seeds[k].subnet := nodes];
      versions := versions + {seeds[k].version};
    }
  }

  method SeedMutations(draw: Draw, point: Bytes, seeds: seq<SubnetSeed>, extraSubnets: seq<Id>, extraVersions: seq<string>)
    returns (muts: seq<Mutation>, members: map<Id, seq<Id>>, ghost ids: seq<Id>, ghost elected: seq<Mutation>)
    ensures Lists(SeedIds(seeds), extraSubnets, ids)
    ensures Elects(VersionsOf(seeds, |seeds|), extraVersions, elected)
    ensures muts == if NothingSeeded(seeds, extraSubnets, extraVersions) then [] else SubnetPart(draw, point, seeds, ids, elected)
    ensures members == MembersMap(draw, seeds, |seeds|)
  {
    hide KeySet, DistinctKeys;
    NoKeys();
    if NothingSeeded(seeds, extraSubnets, extraVersions) {
      return [], map[], [], [];
    }
    var versions;
    muts, members, versions := SeedSubnets(draw, point, seeds);
    var list := ListSubnets(SeedIds(seeds), extraSubnets);
    var verMuts := SeedReplicaVersions(versions, extraVersions);
    ids, elected := list, verMuts;
    muts := muts + ([Mutation(SubnetListKey, SubnetListValue(list))] + verMuts);
    assert muts == SubnetPart(draw, point, seeds, ids, elected);
  }

  // Node operators and data centers.

  predicate ProvidersDecode(seeds: seq<ProviderSeed>, decodes: Id -> bool) {
    forall s :: s in seeds ==> decodes(s.provider) && decodes(s.operator)
  }

  function ProviderMutations(seeds: seq<ProviderSeed>, k: nat): seq<Mutation>
    requires k <= |seeds|
  {
    if k == 0 then []
    else
      var s := seeds[k - 1];
      ProviderMutations(seeds, k - 1)
      + [Mutation(OperatorKey(s.operator), OperatorValue(OperatorRecord(s.operator, s.provider, s.dc))),
         Mutation(DataCenterKey(s.dc), DataCenterValue(s.dc, s.region, ""))]
  }

  /** An operator record and its data center per seed; a principal that does not decode is an error. */
  method SeedProviderMutations(seeds: seq<ProviderSeed>, decodes: Id -> bool) returns (r: Result<seq<Mutation>, Id>)
    ensures r.Ok? <==> ProvidersDecode(seeds, decodes)
    ensures r.Ok? ==> r.value == ProviderMutations(seeds, |seeds|)
    ensures r.Err? ==> !decodes(r.error)
  {
    var muts := [];
    for k := 0 to |seeds|
      invariant forall i :: 0 <= i < k ==> decodes(seeds[i].provider) && decodes(seeds[i].operator)
      invariant muts == ProviderMutations(seeds, k)
    {
      var s := seeds[k];
      if !decodes(s.provider) {
        return Err(s.provider);
      }
      if !decodes(s.operator) {
        return Err(s.operator);
      }
      muts := muts + [Mutation(OperatorKey(s.operator), OperatorValue(OperatorRecord(s.operator, s.provider, s.dc))),
                      Mutation(DataCenterKey(s.dc), DataCenterValue(s.dc, s.region, ""))];
    }
    return Ok(muts);
  }

  function DcMutation(s: DataCenterSeed): Mutation {
    Mutation(DataCenterKey(s.id), DataCenterValue(s.id, s.region, s.owner))
  }

  /** One record per data center nobody wrote yet; of two seeds with one id the first is written. */
  ghost predicate DcBatch(seeds: seq<DataCenterSeed>, taken: set<Key>, muts: seq<Mutation>) {
    && DistinctKeys(muts)
    && (forall m :: m in muts ==> m.key !in taken && exists j :: 0 <= j < |seeds| && m == DcMutation(seeds[j]))
    && (forall j :: 0 <= j < |seeds| ==> DataCenterKey(seeds[j].id) in taken || DataCenterKey(seeds[j].id) in KeySet(muts))
    && (forall j :: 0 <= j < |seeds| && DataCenterKey(seeds[j].id) !in taken && FirstDc(seeds, j) ==> DcMutation(seeds[j]) in muts)
  }

  predicate FirstDc(seeds: seq<DataCenterSeed>, j: nat)
    requires j < |seeds|
  {
    forall i :: 0 <= i < j ==> seeds[i].id != seeds[j].id
  }

  method SeedDataCenterMutations(seeds: seq<DataCenterSeed>, taken: set<Key>) returns (muts: seq<Mutation>)
    ensures DcBatch(seeds, taken, muts)
  {
    hide KeySet, DistinctKeys;
    NoKeys();
    muts := [];
    var written := taken;
    for k := 0 to |seeds|
      invariant DcBatch(seeds[..k], taken, muts)
      invariant forall key :: key in written <==> key in taken || key in KeySet(muts)
    {
      var m := DcMutation(seeds[k]);
      assert seeds[..k + 1][k] == seeds[k];
      assert forall i :: 0 <= i < k ==> seeds[..k + 1][i] == seeds[..k][i];
      if m.key in written {
        DcKept(seeds, k, taken, muts);
        continue;
      }
      written := written + {m.key};
      KeysAppend(muts, m);
      DcAdded(seeds, k, taken, muts);
      muts := muts + [m];
    }
    assert seeds[..|seeds|] == seeds;
  }

  lemma FirstDcPrefix(seeds: seq<DataCenterSeed>, k: nat, j: nat)
    requires j < k < |seeds|
    ensures FirstDc(seeds[..k + 1], j) <==> FirstDc(seeds[..k], j)
  {
  }

  /** A seed whose data center is written already is not the first of its id. */
  lemma WrittenIsLater(seeds: seq<DataCenterSeed>, k: nat, taken: set<Key>, muts: seq<Mutation>)
    requires k < |seeds| && DcBatch(seeds[..k], taken, muts) && DataCenterKey(seeds[k].id) in KeySet(muts)
    ensures !FirstDc(seeds[..k + 1], k)
  {
    hide KeySet, DistinctKeys;
    var m := KeyOf(muts, DataCenterKey(seeds[k].id));
    var j :| 0 <= j < k && m == DcMutation(seeds[..k][j]);
    assert seeds[..k + 1][j].id == seeds[..k + 1][k].id;
  }

  lemma DcKept(seeds: seq<DataCenterSeed>, k: nat, taken: set<Key>, muts: seq<Mutation>)
    requires k < |seeds| && DcBatch(seeds[..k], taken, muts)
    requires DataCenterKey(seeds[k].id) in taken || DataCenterKey(seeds[k].id) in KeySet(muts)
    ensures DcBatch(seeds[..k + 1], taken, muts)
  {
    hide KeySet, DistinctKeys, FirstDc;
    var a, b := seeds[..k], seeds[..k + 1];
    assert b[k] == seeds[k] && forall i :: 0 <= i < k ==> b[i] == a[i];
    forall m | m in muts ensures exists j :: 0 <= j < |b| && m == DcMutation(b[j]) {
      var j :| 0 <= j < |a| && m == DcMutation(a[j]);
      assert m == DcMutation(b[j]);
    }
    forall j | 0 <= j < k { FirstDcPrefix(seeds, k, j); }
    if DataCenterKey(seeds[k].id) !in taken {
      WrittenIsLater(seeds, k, taken, muts);
    }
  }

  lemma DcAdded(seeds: seq<DataCenterSeed>, k: nat, taken: set<Key>, muts: seq<Mutation>)
    requires k < |seeds| && DcBatch(seeds[..k], taken, muts)
    requires DataCenterKey(seeds[k].id) !in taken && DataCenterKey(seeds[k].id) !in KeySet(muts)
    ensures DcBatch(seeds[..k + 1], taken, muts + [DcMutation(seeds[k])])
  {
    hide KeySet, DistinctKeys;
    var a, b := seeds[..k], seeds[..k + 1];
    assert b[k] == seeds[k] && forall i :: 0 <= i < k ==> b[i] == a[i];
    var m := DcMutation(seeds[k]);
    KeysAppend(muts, m);
    forall j | 0 <= j < k && FirstDc(b, j) ensures FirstDc(a, j) {
    }
    forall j | 0 <= j < |b| ensures DataCenterKey(b[j].id) in taken || DataCenterKey(b[j].id) in KeySet(muts + [m]) {
      if j < k {
        assert DataCenterKey(a[j].id) in taken || DataCenterKey(a[j].id) in KeySet(muts);
      }
    }
    forall x | x in muts + [m] ensures x.key !in taken && exists j :: 0 <= j < |b| && x == DcMutation(b[j]) {
      if x in muts {
        var j :| 0 <= j < |a| && x == DcMutation(a[j]);
        assert x == DcMutation(b[j]);
      } else {
        assert x == DcMutation(b[k]);
      }
    }
  }

  /** The node providers governance is told about: each once, and every one an operator seed names. */
  method GovernanceNodeProviders(seeds: seq<ProviderSeed>, decodes: Id -> bool) returns (r: Result<seq<Id>, Id>)
    ensures r.Ok? <==> forall s :: s in seeds && s.provider != "" ==> decodes(s.provider)
    ensures r.Ok? ==> Distinct(r.value) && forall p :: 
      p in r.value <==> p != "" && exists i :: 0 <= i < |seeds| && seeds[i].provider == p
  {
    var ids := [];
    var seen: set<Id> := {};
    for k := 0 to |seeds|
      invariant forall i :: 0 <= i < k && seeds[i].provider != "" ==> decodes(seeds[i].provider)
      invariant Distinct(ids) && forall p :: p in seen <==> p in ids
      invariant forall p :: p in ids <==> p != "" && exists i :: 0 <= i < k && seeds[i].provider == p
    {
      var p := seeds[k].provider;
      if p == "" || p in seen {
        continue;
      }
      seen := seen + {p};
      if !decodes(p) {
        return Err(p);
      }
      ids := ids + [p];
    }
    return Ok(ids);
  }

  // Endpoints and key material over the whole batch: one salt is shared by all nodes of all seeds.

  predicate HasEndpoints(m: Mutation) {
    m.value.NodeValue?
  }

  function EndpointRecord(draw: Draw, i: nat): Mutation {
    Mutation(NodeKey(draw(i).node), NodeValue(NodeRecord("", "", XnetPort(i), HttpPort(i))))
  }

  /** The three keys and the certificate filled from the salt. The signing key is a drawn one. */
  predicate IsFiller(m: Mutation) {
    m.key.TlsKey? || (m.key.CryptoKey? && m.key.purpose != NodeSigning)
  }

  function FillerRecords(draw: Draw, i: nat): seq<Mutation> {
    var n := draw(i).node;
    [Mutation(CryptoKey(n, CommitteeSigning), PublicKeyValue(UniqueKey(5 * i + 1))),
     Mutation(CryptoKey(n, DkgDealingEncryption), PublicKeyValue(UniqueKey(5 * i + 2))),
     Mutation(CryptoKey(n, IDkgMEGaEncryption), PublicKeyValue(UniqueKey(5 * i + 3))),
     Mutation(TlsKey(n), CertValue(UniqueKey(5 * i + 4)))]
  }

  /** What the batch has of a kind: these records of nodes 0, 1, 2 and on, in this order. */
  function OfNodes(records: nat -> seq<Mutation>, n: nat): seq<Mutation> {
    if n == 0 then [] else OfNodes(records, n - 1) + records(n - 1)
  }

  function SigningRecord(draw: Draw, i: nat): Mutation {
    Mutation(CryptoKey(draw(i).node, NodeSigning), PublicKeyValue(draw(i).raw))
  }

  lemma NodeParts(draw: Draw, i: nat)
    ensures NodeMutations(draw, i) == [SigningRecord(draw, i)] + FillerRecords(draw, i) + [EndpointRecord(draw, i)]
  {
    hide UniqueKey, XnetPort, HttpPort;
  }

  lemma KindsOf(draw: Draw, i: nat)
    ensures !HasEndpoints(SigningRecord(draw, i)) && !IsFiller(SigningRecord(draw, i))
    ensures HasEndpoints(EndpointRecord(draw, i)) && !IsFiller(EndpointRecord(draw, i))
    ensures forall j :: 0 <= j < |FillerRecords(draw, i)| ==>
              !HasEndpoints(FillerRecords(draw, i)[j]) && IsFiller(FillerRecords(draw, i)[j])
  {
    hide UniqueKey, XnetPort, HttpPort;
  }

  lemma NodeKinds(draw: Draw, i: nat)
    ensures Filter(NodeMutations(draw, i), HasEndpoints) == [EndpointRecord(draw, i)]
    ensures Filter(NodeMutations(draw, i), IsFiller) == FillerRecords(draw, i)
  {
    hide Filter, NodeMutations, SigningRecord, FillerRecords, EndpointRecord, HasEndpoints, IsFiller;
    var signing, fillers, node := SigningRecord(draw, i), FillerRecords(draw, i), EndpointRecord(draw, i);
    NodeParts(draw, i);
    KindsOf(draw, i);
    assert Filter(NodeMutations(draw, i), HasEndpoints) == [node] by {
      FilterParts([signing], fillers, [node], HasEndpoints);
      FilterOne(signing, HasEndpoints);
      FilterUniform(fillers, HasEndpoints);
      FilterOne(node, HasEndpoints);
      assert [] + [] + [node] == [node];
    }
    assert Filter(NodeMutations(draw, i), IsFiller) == fillers by {
      FilterParts([signing], fillers, [node], IsFiller);
      FilterOne(signing, IsFiller);
      FilterUniform(fillers, IsFiller);
      FilterOne(node, IsFiller);
      assert [] + fillers + [] == fillers;
    }
  }

  lemma FilterParts(a: seq<Mutation>, b: seq<Mutation>, c: seq<Mutation>, keep: Mutation -> bool)
    ensures Filter(a + b + c, keep) == Filter(a, keep) + Filter(b, keep) + Filter(c, keep)
  {
    hide Filter;
    FilterConcat(a, b, keep);
    FilterConcat(a + b, c, keep);
  }

  /** Of each node these records are of the kind, and of a subnet's own none. */
  ghost predicate PerNode(draw: Draw, kind: Mutation -> bool, records: nat -> seq<Mutation>) {
    && (forall i :: Filter(NodeMutations(draw, i), kind) == records(i))
    && (forall m :: OwnRecord(m) ==> !kind(m))
  }

  lemma {:induction false} NodesKind(draw: Draw, from: nat, n: nat, kind: Mutation -> bool, records: nat -> seq<Mutation>)
    requires PerNode(draw, kind, records)
    ensures OfNodes(records, from) + Filter(NodesMutations(draw, from, n), kind) == OfNodes(records, from + n)
  {
    hide Filter, NodeMutations;
    if n == 0 {
      FilterEmpty(kind);
    } else {
      NodesKind(draw, from, n - 1, kind, records);
      FilterConcat(NodesMutations(draw, from, n - 1), NodeMutations(draw, from + n - 1), kind);
    }
  }

  /** The subnet's own records are of no kind asked for here. */
  predicate OwnRecord(m: Mutation) {
    && (m.key.SubnetKey? || m.key.ThresholdKey? || m.key.CatchUpKey?)
    && (m.value.SubnetValue? || m.value.PublicKeyValue? || m.value.CupValue?)
  }

  lemma SubnetKind(draw: Draw, point: Bytes, seeds: seq<SubnetSeed>, j: nat, kind: Mutation -> bool,
                   records: nat -> seq<Mutation>)
    requires j < |seeds| && PerNode(draw, kind, records)
    ensures Filter(SubnetMutations(draw, point, seeds, j), kind)
         == Filter(NodesMutations(draw, NodesBefore(seeds, j), Count(seeds[j].numNodes)), kind)
  {
    hide Filter, NodesMutations, NodeMutations, SeededMembers;
    var nodes := NodesMutations(draw, NodesBefore(seeds, j), Count(seeds[j].numNodes));
    var s := seeds[j];
    var own := [Mutation(SubnetKey(s.subnet), SubnetValue(SubnetRecord(SeededMembers(draw, seeds, j), s.version, j == 0)))];
    var pair := CryptoRecords(s.subnet, point);
    FilterParts(nodes, own, pair, kind);
    assert OwnRecord(own[0]) && OwnRecord(pair[0]) && OwnRecord(pair[1]);
    FilterOne(own[0], kind);
    FilterUniform(pair, kind);
  }

  lemma {:induction false} BatchKind(
    draw: Draw, point: Bytes, seeds: seq<SubnetSeed>, k: nat, kind: Mutation -> bool, records: nat -> seq<Mutation>)
    requires k <= |seeds| && PerNode(draw, kind, records)
    ensures Filter(SubnetsMutations(draw, point, seeds, k), kind) == OfNodes(records, NodesBefore(seeds, k))
  {
    hide Filter, NodesMutations, SubnetMutations, OfNodes, PerNode;
    if k == 0 {
      FilterEmpty(kind);
      NoNodes(records);
    } else {
      var j := k - 1;
      BatchKind(draw, point, seeds, j, kind, records);
      SubnetKind(draw, point, seeds, j, kind, records);
      NodesKind(draw, NodesBefore(seeds, j), Count(seeds[j].numNodes), kind, records);
      FilterConcat(SubnetsMutations(draw, point, seeds, j), SubnetMutations(draw, point, seeds, j), kind);
    }
  }

  lemma NoNodes(records: nat -> seq<Mutation>)
    ensures OfNodes(records, 0) == []
  {
  }

  /** The node records of the batch are those of nodes 0 to the total, each with its own salt's ports. */
  lemma BatchEndpoints(draw: Draw, point: Bytes, seeds: seq<SubnetSeed>)
    ensures var nodes := Filter(SubnetsMutations(draw, point, seeds, |seeds|), HasEndpoints);
      |nodes| == NodesBefore(seeds, |seeds|) && forall i :: 0 <= i < |nodes| ==> nodes[i] == EndpointRecord(draw, i)
  {
    hide Filter, SubnetsMutations, NodeMutations;
    var records := (i: nat) => [EndpointRecord(draw, i)];
    forall i: nat ensures Filter(NodeMutations(draw, i), HasEndpoints) == records(i) {
      NodeKinds(draw, i);
    }
    BatchKind(draw, point, seeds, |seeds|, HasEndpoints, records);
    OneEach(draw, records, NodesBefore(seeds, |seeds|));
  }

  lemma {:induction false} OneEach(draw: Draw, records: nat -> seq<Mutation>, n: nat)
    requires forall i :: records(i) == [EndpointRecord(draw, i)]
    ensures |OfNodes(records, n)| == n && forall i :: 0 <= i < n ==> OfNodes(records, n)[i] == EndpointRecord(draw, i)
  {
    if n > 0 {
      OneEach(draw, records, n - 1);
    }
  }

  /** No endpoint of one record is an endpoint of another, nor are a record's two endpoints equal. */
  ghost predicate EndpointsDistinct(nodes: seq<Mutation>) {
    && (forall i :: 0 <= i < |nodes| ==>
          HasEndpoints(nodes[i]) && nodes[i].value.node.xnetPort != nodes[i].value.node.httpPort)
    && (forall i, j :: 0 <= i < j < |nodes| ==> Endpoints(nodes[i]) !! Endpoints(nodes[j]))
  }

  function Endpoints(m: Mutation): set<nat> {
    match m.value case NodeValue(n) => {n.xnetPort, n.httpPort} case _ => {}
  }

  lemma SmallPorts(i: nat)
    requires i <= 2000
    ensures XnetPort(i) == 4105 + 5 * i && HttpPort(i) == 14105 + 5 * i
  {
  }

  /** The exact bound on a batch: with one node more, node 2000's xnet port is node 0's http port. */
  lemma EndpointBound(draw: Draw, point: Bytes, seeds: seq<SubnetSeed>)
    ensures EndpointsDistinct(Filter(SubnetsMutations(draw, point, seeds, |seeds|), HasEndpoints))
       <==> NodesBefore(seeds, |seeds|) <= 2000
  {
    hide Filter, SubnetsMutations, XnetPort, HttpPort, NodesBefore;
    var nodes := Filter(SubnetsMutations(draw, point, seeds, |seeds|), HasEndpoints);
    BatchEndpoints(draw, point, seeds);
    if |nodes| > 2000 {
      SmallPorts(0);
      SmallPorts(2000);
      assert 14105 in Endpoints(nodes[0]) && 14105 in Endpoints(nodes[2000]);
    } else {
      forall i | 0 <= i < |nodes| ensures Endpoints(nodes[i]) == {4105 + 5 * i, 14105 + 5 * i} {
        SmallPorts(i);
      }
    }
  }

  /** The filler bytes of the batch, in order: slots 1 to 4 of node 0, of node 1 and on. */
  lemma BatchFillers(draw: Draw, point: Bytes, seeds: seq<SubnetSeed>)
    ensures var fillers := Filter(SubnetsMutations(draw, point, seeds, |seeds|), IsFiller);
      && |fillers| == 4 * NodesBefore(seeds, |seeds|)
      && forall p :: 0 <= p < |fillers| ==> FillerBytes(fillers[p]) == Some(UniqueKey(5 * (p / 4) + p % 4 + 1))
  {
    hide Filter, SubnetsMutations, NodeMutations, UniqueKey;
    var records := (i: nat) => FillerRecords(draw, i);
    forall i: nat ensures Filter(NodeMutations(draw, i), IsFiller) == records(i) {
      NodeKinds(draw, i);
    }
    BatchKind(draw, point, seeds, |seeds|, IsFiller, records);
    FourEach(draw, records, NodesBefore(seeds, |seeds|));
  }

  function FillerBytes(m: Mutation): Option<Bytes> {
    match m.value
    case PublicKeyValue(b) => Some(b)
    case CertValue(b) => Some(b)
    case _ => None
  }

  lemma {:induction false} FourEach(draw: Draw, records: nat -> seq<Mutation>, n: nat)
    requires forall i :: records(i) == FillerRecords(draw, i)
    ensures |OfNodes(records, n)| == 4 * n
    ensures forall p :: 0 <= p < 4 * n ==> FillerBytes(OfNodes(records, n)[p]) == Some(UniqueKey(5 * (p / 4) + p % 4 + 1))
  {
    hide UniqueKey;
    if n > 0 {
      FourEach(draw, records, n - 1);
      var all := OfNodes(records, n);
      forall p | 4 * (n - 1) <= p < 4 * n
        ensures FillerBytes(all[p]) == Some(UniqueKey(5 * (p / 4) + p % 4 + 1))
      {
        assert p / 4 == n - 1;
        assert all[p] == FillerRecords(draw, n - 1)[p % 4];
      }
    }
  }

  /** No two fabricated keys or certificates of a batch agree, as far as the 64-bit salt can count. */
  lemma FillersDistinct(draw: Draw, point: Bytes, seeds: seq<SubnetSeed>)
    requires IsInt64(5 * NodesBefore(seeds, |seeds|))
    ensures var fillers := Filter(SubnetsMutations(draw, point, seeds, |seeds|), IsFiller);
      forall p, q :: 0 <= p < q < |fillers| ==> FillerBytes(fillers[p]) != FillerBytes(fillers[q])
  {
    hide Filter, SubnetsMutations, UniqueKey, NodesBefore;
    var fillers := Filter(SubnetsMutations(draw, point, seeds, |seeds|), IsFiller);
    BatchFillers(draw, point, seeds);
    forall p, q | 0 <= p < q < |fillers| ensures FillerBytes(fillers[p]) != FillerBytes(fillers[q]) {
      DistinctSaltsDistinctKeys(5 * (p / 4) + p % 4 + 1, 5 * (q / 4) + q % 4 + 1);
    }
  }
}
