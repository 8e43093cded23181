/**
 The registry's init batch (nns/install.go): fabricated records, with a mirrored record taking
 the place of the fabricated one wherever both exist. The registry rejects two INSERTs on one key.
 */
module Install {
  import opened Wrappers
  import opened Sequences
  import opened Registry
  import opened Mirror
  import opened Seed
  import opened SeedKeys
  import opened SeedValues

  function NotIn(keys: set<Key>): Mutation -> bool {
    (m: Mutation) => m.key !in keys
  }

  /** Compacts the slice onto the mutations whose keys are not mirrored, keeping their order. */
  method MirrorPrecedence(seeded: array<Mutation>, mirrored: seq<Mutation>) returns (n: nat)
    modifies seeded
    ensures n <= seeded.Length
    ensures seeded[..n] == Filter(old(seeded[..]), NotIn(KeySet(mirrored)))
  {
    hide KeySet, DistinctKeys, Filter;
    ghost var before := seeded[..];
    FilterEmpty(NotIn(KeySet(mirrored)));
    assert before[..0] == [];
    var supplied := KeySet(mirrored);
    n := 0;
    for i := 0 to seeded.Length
      invariant n <= i
      invariant seeded[..n] == Filter(before[..i], NotIn(KeySet(mirrored)))
      invariant seeded[i..] == before[i..]
    {
      var m := seeded[i];
      assert m == before[i];
      FilterStep(before, i, NotIn(KeySet(mirrored)));
      ghost var kept, rest := seeded[..n], seeded[i..];
      if m.key !in supplied {
        seeded[n] := m;
        n := n + 1;
        assert seeded[..n] == kept + [m];
      }
      assert seeded[i + 1..] == rest[1..] == before[i + 1..];
    }
    assert before[..seeded.Length] == before;
  }

  function MirroredSubnets(mirror: Option<MirrorResult>): seq<Id> {
    match mirror case Some(m) => m.subnets case None => []
  }

  function MirroredVersions(mirror: Option<MirrorResult>): seq<string> {
    match mirror case Some(m) => m.versions case None => []
  }

  function MirroredMutations(mirror: Option<MirrorResult>): seq<Mutation> {
    match mirror case Some(m) => m.mutations case None => []
  }

  datatype Seeds = Seeds(subnets: seq<SubnetSeed>, providers: seq<ProviderSeed>, dcs: seq<DataCenterSeed>)

  function Fabricates(seeds: Seeds, mirror: Option<MirrorResult>): bool {
    !NothingSeeded(seeds.subnets, MirroredSubnets(mirror), MirroredVersions(mirror))
  }

  /** The pieces of the fabricated batch whose order Go leaves open: the list, the elections, the data centers. */
  datatype Pieces = Pieces(listed: seq<Id>, elected: seq<Mutation>, dcs: seq<Mutation>)

  function SubnetPiece(draw: Draw, point: Bytes, seeds: Seeds, mirror: Option<MirrorResult>, p: Pieces): seq<Mutation> {
    if Fabricates(seeds, mirror) then SubnetPart(draw, point, seeds.subnets, p.listed, p.elected) else []
  }

  function ProviderPiece(seeds: Seeds): seq<Mutation> {
    ProviderMutations(seeds.providers, |seeds.providers|)
  }

  /** Everything fabricated, before the mirror takes precedence. */
  function Seeded(draw: Draw, point: Bytes, seeds: Seeds, mirror: Option<MirrorResult>, p: Pieces): seq<Mutation> {
    SubnetPiece(draw, point, seeds, mirror, p) + ProviderPiece(seeds) + p.dcs
  }

  ghost predicate PiecesFit(draw: Draw, point: Bytes, seeds: Seeds, mirror: Option<MirrorResult>, p: Pieces) {
    && Lists(SeedIds(seeds.subnets), MirroredSubnets(mirror), p.listed)
    && Elects(VersionsOf(seeds.subnets, |seeds.subnets|), MirroredVersions(mirror), p.elected)
    && DcBatch(seeds.dcs, (KeySet(SubnetPiece(draw, point, seeds, mirror, p) + ProviderPiece(seeds))), p.dcs)
  }

  function Merge(seeded: seq<Mutation>, mirror: Option<MirrorResult>): seq<Mutation> {
    match mirror
    case None => seeded
    case Some(m) => Filter(seeded, NotIn(KeySet(m.mutations))) + m.mutations
  }

  function Batch(draw: Draw, point: Bytes, seeds: Seeds, mirror: Option<MirrorResult>, p: Pieces): seq<Mutation> {
    Merge(Seeded(draw, point, seeds, mirror, p), mirror)
  }

  method MinimalRegistryInit(draw: Draw, point: Bytes, seeds: Seeds, mirror: Option<MirrorResult>, decodes: Id -> bool)
    returns (r: Result<(seq<Mutation>, map<Id, seq<Id>>), Id>, ghost p: Pieces)
    ensures r.Ok? <==> ProvidersDecode(seeds.providers, decodes)
    ensures r.Ok? ==>
      && PiecesFit(draw, point, seeds, mirror, p)
      && r.value.0 == Batch(draw, point, seeds, mirror, p)
      && r.value.1 == MembersMap(draw, seeds.subnets, |seeds.subnets|)
      && forall m :: m in r.value.0 && Fabricated(m, mirror) ==> SaysSeeds(m, draw, point, seeds)
  {
    hide KeySet, DistinctKeys, SaysSeeds;
    ghost var ids, elected;
    var muts, members;
    muts, members, ids, elected := SeedMutations(draw, point, seeds.subnets, MirroredSubnets(mirror), MirroredVersions(mirror));
    p := Pieces(ids, elected, []);
    var provMuts := SeedProviderMutations(seeds.providers, decodes);
    if provMuts.Err? {
      return Err(provMuts.error), p;
    }
    muts := muts + provMuts.value;
    var dcMuts := SeedDataCenterMutations(seeds.dcs, KeySet(muts));
    p := Pieces(ids, elected, dcMuts);
    muts := muts + dcMuts;
    if mirror.Some? {
      var slice := new Mutation[|muts|](i requires 0 <= i < |muts| => muts[i]);
      assert slice[..] == muts;
      var n := MirrorPrecedence(slice, mirror.value.mutations);
      muts := slice[..n] + mirror.value.mutations;
    }
    forall m | m in Batch(draw, point, seeds, mirror, p) && Fabricated(m, mirror) ensures SaysSeeds(m, draw, point, seeds) {
      BatchSaysSeeds(draw, point, seeds, mirror, p, m);
    }
    return Ok((muts, members)), p;
  }

  // Seeds whose records cannot collide. Nothing checks this of them.

  ghost predicate FreshSeeds(draw: Draw, seeds: Seeds) {
    && Distinct(SeedIds(seeds.subnets))
    && DistinctProviders(seeds.providers)
    && FreshDraws(draw, 0, NodesBefore(seeds.subnets, |seeds.subnets|))
  }

  /** Seeds that collide, if at all, only in records the mirror replaces. */
  ghost predicate SeedsApart(draw: Draw, seeds: Seeds, mirrored: set<Key>) {
    && SubnetsApart(seeds.subnets, |seeds.subnets|, mirrored)
    && NodesApart(draw, 0, NodesBefore(seeds.subnets, |seeds.subnets|), mirrored)
    && ProvidersApart(seeds.providers, |seeds.providers|, mirrored)
  }

  ghost predicate SubnetPieceKey(draw: Draw, seeds: Seeds, mirror: Option<MirrorResult>, k: Key) {
    || SeededSubnetKey(draw, seeds.subnets, |seeds.subnets|, k)
    || (k == SubnetListKey && Fabricates(seeds, mirror))
    || (k.VersionKey? && k.version in VersionsOf(seeds.subnets, |seeds.subnets|) && k.version !in MirroredVersions(mirror))
  }

  /** The keys fabricated for these seeds, stated without the batch. */
  ghost predicate SeededKey(draw: Draw, seeds: Seeds, mirror: Option<MirrorResult>, k: Key) {
    || SubnetPieceKey(draw, seeds, mirror, k)
    || ProviderKey(seeds.providers, |seeds.providers|, k)
    || (k.DataCenterKey? && exists j :: 0 <= j < |seeds.dcs| && k.dc == seeds.dcs[j].id)
  }

  lemma SubnetPieceKeys(draw: Draw, point: Bytes, seeds: Seeds, mirror: Option<MirrorResult>, p: Pieces, k: Key)
    requires PiecesFit(draw, point, seeds, mirror, p)
    ensures k in KeySet(SubnetPiece(draw, point, seeds, mirror, p)) <==> SubnetPieceKey(draw, seeds, mirror, k)
  {
    hide KeySet, DistinctKeys;
    NoKeys();
    SubnetPartKeys(draw, point, seeds.subnets, p.listed, p.elected, k);
    assert Fabricates(seeds, mirror) || !SeededSubnetKey(draw, seeds.subnets, |seeds.subnets|, k);
  }

  lemma DcPieceKeys(draw: Draw, point: Bytes, seeds: Seeds, mirror: Option<MirrorResult>, p: Pieces, k: Key)
    requires PiecesFit(draw, point, seeds, mirror, p)
    ensures k in KeySet(p.dcs) ==> k.DataCenterKey? && exists j :: 0 <= j < |seeds.dcs| && k.dc == seeds.dcs[j].id
    ensures k in KeySet(p.dcs) ==> k !in KeySet(SubnetPiece(draw, point, seeds, mirror, p) + ProviderPiece(seeds))
  {
    hide KeySet, DistinctKeys;
    if k in KeySet(p.dcs) {
      var m := KeyOf(p.dcs, k);
    }
  }

  /** The fabricated batch writes exactly the seeded keys. */
  lemma SeededKeys(draw: Draw, point: Bytes, seeds: Seeds, mirror: Option<MirrorResult>, p: Pieces, k: Key)
    requires PiecesFit(draw, point, seeds, mirror, p)
    ensures k in KeySet(Seeded(draw, point, seeds, mirror, p)) <==> SeededKey(draw, seeds, mirror, k)
  {
    hide KeySet, DistinctKeys, SubnetPiece;
    var a, b := SubnetPiece(draw, point, seeds, mirror, p), ProviderPiece(seeds);
    KeysConcat(a, b);
    KeysConcat(a + b, p.dcs);
    SubnetPieceKeys(draw, point, seeds, mirror, p, k);
    ProviderKeys(seeds.providers, |seeds.providers|, k);
    DcPieceKeys(draw, point, seeds, mirror, p, k);
  }

  /** The fabricated batch repeats a key exactly where the seeds do. */
  lemma SeededDistinct(draw: Draw, point: Bytes, seeds: Seeds, mirror: Option<MirrorResult>, p: Pieces, keys: set<Key>)
    requires PiecesFit(draw, point, seeds, mirror, p)
    ensures DistinctBut(Seeded(draw, point, seeds, mirror, p), keys) <==> SeedsApart(draw, seeds, keys)
  {
    hide KeySet, DistinctKeys, SubnetPart, SubnetsApart, NodesApart, ProvidersApart;
    var a, b := SubnetPiece(draw, point, seeds, mirror, p), ProviderPiece(seeds);
    NoKeys();
    SubnetPartDistinct(draw, point, seeds.subnets, p.listed, p.elected, keys);
    if !Fabricates(seeds, mirror) {
      NoNodesApart(draw, 0, keys);
      NoSubnetsApart(seeds.subnets, keys);
    }
    ProvidersDistinct(seeds.providers, |seeds.providers|, keys);
    DistinctIsDistinctBut(p.dcs, keys);
    forall k | k in KeySet(a) ensures k !in KeySet(b) {
      SubnetPieceKeys(draw, point, seeds, mirror, p, k);
      ProviderKeys(seeds.providers, |seeds.providers|, k);
    }
    DistinctButConcat(a, b, keys);
    forall k | k in KeySet(a + b) ensures k !in KeySet(p.dcs) {
      DcPieceKeys(draw, point, seeds, mirror, p, k);
    }
    DistinctButConcat(a + b, p.dcs, keys);
  }

  lemma {:induction false} FilterKeys(seeded: seq<Mutation>, keys: set<Key>)
    ensures KeySet(Filter(seeded, NotIn(keys))) == KeySet(seeded) - keys
    ensures DistinctKeys(Filter(seeded, NotIn(keys))) <==> DistinctBut(seeded, keys)
  {
    hide KeySet, DistinctKeys;
    NoKeys();
    if seeded != [] {
      var front, last := seeded[..|seeded| - 1], seeded[|seeded| - 1];
      assert seeded == front + [last];
      var kept := Filter(front, NotIn(keys));
      FilterKeys(front, keys);
      KeysAppend(front, last);
      KeysAppend(kept, last);
      if last.key in keys {
        assert Filter(seeded, NotIn(keys)) == kept + [] == kept;
      } else {
        assert Filter(seeded, NotIn(keys)) == kept + [last];
      }
    }
  }

  /** Exactly the mirrored and the seeded keys are inserted... */
  lemma BatchKeys(draw: Draw, point: Bytes, seeds: Seeds, mirror: Option<MirrorResult>, p: Pieces, k: Key)
    requires PiecesFit(draw, point, seeds, mirror, p)
    ensures k in KeySet(Batch(draw, point, seeds, mirror, p)) <==>
      k in KeySet(MirroredMutations(mirror)) || SeededKey(draw, seeds, mirror, k)
  {
    hide KeySet, DistinctKeys, Seeded;
    NoKeys();
    SeededKeys(draw, point, seeds, mirror, p, k);
    if mirror.Some? {
      var copied, seeded := mirror.value.mutations, Seeded(draw, point, seeds, mirror, p);
      FilterKeys(seeded, KeySet(copied));
      KeysConcat(Filter(seeded, NotIn(KeySet(copied))), copied);
    }
  }

  /**
   ...and none of them twice, which the registry would reject, exactly when every subnet, node, operator
   or data center that the seeds repeat has its records mirrored.
   */
  lemma BatchDistinctIff(draw: Draw, point: Bytes, seeds: Seeds, mirror: Option<MirrorResult>, p: Pieces)
    requires PiecesFit(draw, point, seeds, mirror, p)
    requires mirror.Some? ==> WellFormed(mirror.value)
    ensures DistinctKeys(Batch(draw, point, seeds, mirror, p))
       <==> SeedsApart(draw, seeds, KeySet(MirroredMutations(mirror)))
  {
    hide KeySet, DistinctKeys, DistinctBut, Seeded, SeedsApart, PiecesFit;
    NoKeys();
    var copied, seeded := MirroredMutations(mirror), Seeded(draw, point, seeds, mirror, p);
    SeededDistinct(draw, point, seeds, mirror, p, KeySet(copied));
    if mirror.Some? {
      FilterKeys(seeded, KeySet(copied));
      KeysConcat(Filter(seeded, NotIn(KeySet(copied))), copied);
    } else {
      DistinctIsDistinctBut(seeded, {});
    }
  }

  /** Seeds that repeat nothing, and fresh node ids, are safe whatever is mirrored. */
  lemma BatchDistinct(draw: Draw, point: Bytes, seeds: Seeds, mirror: Option<MirrorResult>, p: Pieces)
    requires PiecesFit(draw, point, seeds, mirror, p) && FreshSeeds(draw, seeds)
    requires mirror.Some? ==> WellFormed(mirror.value)
    ensures DistinctKeys(Batch(draw, point, seeds, mirror, p))
  {
    hide KeySet, DistinctKeys, Batch, PiecesFit;
    assert forall i, j :: 0 <= i < j < |seeds.subnets| ==> SeedIds(seeds.subnets)[i] != SeedIds(seeds.subnets)[j];
    BatchDistinctIff(draw, point, seeds, mirror, p);
  }

  /** Two operators seeded in one data center, and nothing mirrored: its record is inserted twice. */
  lemma SharedDataCenter(draw: Draw, point: Bytes)
    ensures
      var seeds := Seeds([], [ProviderSeed("p", "a", "d", "r"), ProviderSeed("p", "b", "d", "r")], []);
      var p := Pieces([], [], []);
      PiecesFit(draw, point, seeds, None, p) && !DistinctKeys(Batch(draw, point, seeds, None, p))
  {
    hide KeySet, DistinctKeys;
    var one, two := ProviderSeed("p", "a", "d", "r"), ProviderSeed("p", "b", "d", "r");
    var seeds := Seeds([], [one, two], []);
    NoKeys();
    BatchDistinctIff(draw, point, seeds, None, Pieces([], [], []));
    assert seeds.providers[0].dc == seeds.providers[1].dc;
  }

  /** The real record wins; every other fabricated one survives the compaction. */
  lemma MirrorWins(seeded: seq<Mutation>, mirror: Option<MirrorResult>, m: Mutation)
    ensures m in Merge(seeded, mirror) <==>
      m in MirroredMutations(mirror) || (m in seeded && m.key !in KeySet(MirroredMutations(mirror)))
  {
  }

  // What the batch says, record by record, where the mirror does not.

  /** m is fabricated: its key is not among the mirrored ones. */
  ghost predicate Fabricated(m: Mutation, mirror: Option<MirrorResult>) {
    m.key !in KeySet(MirroredMutations(mirror))
  }

  /** What a fabricated record holds, by its key, read off the seeds. */
  ghost predicate SaysSeeds(m: Mutation, draw: Draw, point: Bytes, seeds: Seeds) {
    var subnets, providers, dcs := seeds.subnets, seeds.providers, seeds.dcs;
    match m.key
    case SubnetKey(_) => exists k :: 0 <= k < |subnets| && SubnetRecordOf(m, draw, subnets, k)
    case ThresholdKey(s) => s in SeedIds(subnets) && m.value == PublicKeyValue(point)
    case CatchUpKey(s) => s in SeedIds(subnets) && m.value == CupValue(point)
    case SubnetListKey => m.value.SubnetListValue?
    case NodeKey(_) => OfSomeNode(m, draw, 0, NodesBefore(subnets, |subnets|))
    case TlsKey(_) => OfSomeNode(m, draw, 0, NodesBefore(subnets, |subnets|))
    case CryptoKey(_, _) => OfSomeNode(m, draw, 0, NodesBefore(subnets, |subnets|))
    case VersionKey(v) => m.value == EmptyVersionValue && exists k :: 0 <= k < |subnets| && subnets[k].version == v
    case OperatorKey(_) => exists k :: 0 <= k < |providers| && OfProviderSeed(m, providers, k)
    case DataCenterKey(d) =>
      || (exists k :: 0 <= k < |providers| && OfProviderSeed(m, providers, k))
      || ((forall k :: 0 <= k < |providers| ==> providers[k].dc != d) && exists j :: 0 <= j < |dcs| && OfDcSeed(m, dcs, j))
    case HostosKey(_) => false
  }

  lemma SubnetsSaySeeds(draw: Draw, point: Bytes, seeds: Seeds, m: Mutation)
    requires m in SubnetsMutations(draw, point, seeds.subnets, |seeds.subnets|)
    ensures SaysSeeds(m, draw, point, seeds)
  {
    hide KeySet, SubnetsMutations;
    var subnets := seeds.subnets;
    SubnetsMean(draw, point, subnets, |subnets|, m);
    if j :| 0 <= j < |subnets| && OfSubnetSeed(m, draw, point, subnets, j) {
      assert SeedIds(subnets)[j] == subnets[j].subnet;
    }
  }

  lemma ElectedSaySeeds(draw: Draw, point: Bytes, seeds: Seeds, mirrored: seq<string>, elected: seq<Mutation>, m: Mutation)
    requires Elects(VersionsOf(seeds.subnets, |seeds.subnets|), mirrored, elected) && m in elected
    ensures SaysSeeds(m, draw, point, seeds)
  {
    hide KeySet, DistinctKeys;
    KeyIn(elected, m);
    VersionsOfMeans(seeds.subnets, |seeds.subnets|, m.key.version);
    var k :| 0 <= k < |seeds.subnets| && seeds.subnets[k].version == m.key.version;
    assert m.value == EmptyVersionValue;
  }

  lemma DcsSaySeeds(draw: Draw, point: Bytes, seeds: Seeds, mirror: Option<MirrorResult>, p: Pieces, m: Mutation)
    requires PiecesFit(draw, point, seeds, mirror, p) && m in p.dcs
    ensures SaysSeeds(m, draw, point, seeds)
  {
    hide KeySet, DistinctKeys, SubnetPiece;
    var a, b := SubnetPiece(draw, point, seeds, mirror, p), ProviderPiece(seeds);
    DcsMean(seeds.dcs, KeySet(a + b), p.dcs, m);
    KeysConcat(a, b);
    ProviderKeys(seeds.providers, |seeds.providers|, m.key);
  }

  /** Every fabricated record of the batch holds what the seeds say of it, and nothing else is fabricated. */
  lemma BatchSaysSeeds(draw: Draw, point: Bytes, seeds: Seeds, mirror: Option<MirrorResult>, p: Pieces, m: Mutation)
    requires PiecesFit(draw, point, seeds, mirror, p)
    requires m in Batch(draw, point, seeds, mirror, p) && Fabricated(m, mirror)
    ensures SaysSeeds(m, draw, point, seeds)
  {
    hide KeySet, DistinctKeys, SaysSeeds, SubnetsMutations;
    MirrorWins(Seeded(draw, point, seeds, mirror, p), mirror, m);
    if m in MirroredMutations(mirror) {
      KeyIn(MirroredMutations(mirror), m);
    } else if m in ProviderPiece(seeds) {
      ProvidersSaySeeds(draw, point, seeds, m);
    } else if m in p.dcs {
      DcsSaySeeds(draw, point, seeds, mirror, p, m);
    } else if m in SubnetsMutations(draw, point, seeds.subnets, |seeds.subnets|) {
      SubnetsSaySeeds(draw, point, seeds, m);
    } else if m in p.elected {
      ElectedSaySeeds(draw, point, seeds, MirroredVersions(mirror), p.elected, m);
    } else {
      ListSaysSeeds(draw, point, seeds, p.listed, m);
    }
  }

  lemma ListSaysSeeds(draw: Draw, point: Bytes, seeds: Seeds, listed: seq<Id>, m: Mutation)
    requires m == Mutation(SubnetListKey, SubnetListValue(listed))
    ensures SaysSeeds(m, draw, point, seeds)
  {
  }

  lemma ProvidersSaySeeds(draw: Draw, point: Bytes, seeds: Seeds, m: Mutation)
    requires m in ProviderPiece(seeds)
    ensures SaysSeeds(m, draw, point, seeds)
  {
    hide KeySet, ProviderMutations;
    ProvidersMean(seeds.providers, |seeds.providers|, m);
  }

  /**
   The record the batch has of a seeded subnet: as many members as the seed asks for, the ones the call
   reports, each with its own record beside it; the seed's version; and the first seed's is the system subnet.
   */
  lemma SeededSubnetRecord(draw: Draw, point: Bytes, seeds: Seeds, mirror: Option<MirrorResult>, p: Pieces, k: nat, m: Mutation)
    requires PiecesFit(draw, point, seeds, mirror, p) && Distinct(SeedIds(seeds.subnets)) && k < |seeds.subnets|
    requires m in Batch(draw, point, seeds, mirror, p) && Fabricated(m, mirror) && m.key == SubnetKey(seeds.subnets[k].subnet)
    ensures var s, members := seeds.subnets[k], MembersMap(draw, seeds.subnets, |seeds.subnets|);
      && m.value.SubnetValue?
      && s.subnet in members && m.value.subnet.members == members[s.subnet]
      && |m.value.subnet.members| == (if s.numNodes < 0 then 0 else s.numNodes)
      && (forall n :: n in m.value.subnet.members ==> NodeKey(n) in KeySet(Batch(draw, point, seeds, mirror, p)))
      && m.value.subnet.version == s.version
      && (m.value.subnet.system <==> k == 0)
  {
    hide KeySet, DistinctKeys, MembersMap, SubnetsMutations, Batch, PiecesFit, NodesBefore;
    var subnets, batch := seeds.subnets, Batch(draw, point, seeds, mirror, p);
    BatchSaysSeeds(draw, point, seeds, mirror, p, m);
    SubnetSaysSeed(m, draw, point, seeds, k);
    LatestMembers(draw, subnets, |subnets|, k);
    forall n | n in m.value.subnet.members ensures NodeKey(n) in KeySet(batch) {
      var i :| 0 <= i < |m.value.subnet.members| && m.value.subnet.members[i] == n;
      SeededNodeInBatch(draw, point, seeds, mirror, p, k, i);
    }
  }

  lemma SubnetSaysSeed(m: Mutation, draw: Draw, point: Bytes, seeds: Seeds, k: nat)
    requires SaysSeeds(m, draw, point, seeds) && Distinct(SeedIds(seeds.subnets))
    requires k < |seeds.subnets| && m.key == SubnetKey(seeds.subnets[k].subnet)
    ensures SubnetRecordOf(m, draw, seeds.subnets, k)
  {
    var j :| 0 <= j < |seeds.subnets| && SubnetRecordOf(m, draw, seeds.subnets, j);
    assert SeedIds(seeds.subnets)[j] == SeedIds(seeds.subnets)[k];
  }

  lemma SeededNodeInBatch(draw: Draw, point: Bytes, seeds: Seeds, mirror: Option<MirrorResult>, p: Pieces, k: nat, i: nat)
    requires PiecesFit(draw, point, seeds, mirror, p) && k < |seeds.subnets| && i < Count(seeds.subnets[k].numNodes)
    ensures NodeKey(draw(NodesBefore(seeds.subnets, k) + i).node) in KeySet(Batch(draw, point, seeds, mirror, p))
  {
    hide KeySet, DistinctKeys, PiecesFit, Batch;
    var subnets := seeds.subnets;
    var n := draw(NodesBefore(subnets, k) + i).node;
    NodesBeforeGrows(subnets, k + 1, |subnets|);
    assert OfNode(n, NodeKey(n));
    assert OfSeededNode(draw, 0, NodesBefore(subnets, |subnets|), NodeKey(n));
    BatchKeys(draw, point, seeds, mirror, p, NodeKey(n));
  }

  lemma {:induction false} NodesBeforeGrows(seeds: seq<SubnetSeed>, j: nat, k: nat)
    requires j <= k <= |seeds|
    ensures NodesBefore(seeds, j) <= NodesBefore(seeds, k)
  {
    if j < k {
      NodesBeforeGrows(seeds, j, k - 1);
    }
  }

  /** Unless its record is mirrored, the first seed's subnet is in the batch as a system subnet, and of the fabricated it is the only one. */
  lemma OneSystemSubnet(draw: Draw, point: Bytes, seeds: Seeds, mirror: Option<MirrorResult>, p: Pieces) returns (first: Mutation)
    requires PiecesFit(draw, point, seeds, mirror, p) && Distinct(SeedIds(seeds.subnets)) && seeds.subnets != []
    requires SubnetKey(seeds.subnets[0].subnet) !in KeySet(MirroredMutations(mirror))
    ensures first in Batch(draw, point, seeds, mirror, p) && first.key == SubnetKey(seeds.subnets[0].subnet)
    ensures forall m :: m in Batch(draw, point, seeds, mirror, p) && Fabricated(m, mirror) && m.key.SubnetKey? ==>
              m.value.SubnetValue? && (m.value.subnet.system <==> m.key == first.key)
  {
    hide KeySet, DistinctKeys, MembersMap, SubnetsMutations, Batch, PiecesFit;
    var subnets, batch := seeds.subnets, Batch(draw, point, seeds, mirror, p);
    assert OfSubnet(subnets[0].subnet, SubnetKey(subnets[0].subnet));
    BatchKeys(draw, point, seeds, mirror, p, SubnetKey(subnets[0].subnet));
    first := KeyOf(batch, SubnetKey(subnets[0].subnet));
    forall m | m in batch && Fabricated(m, mirror) && m.key.SubnetKey?
      ensures m.value.SubnetValue? && (m.value.subnet.system <==> m.key == first.key)
    {
      BatchSaysSeeds(draw, point, seeds, mirror, p, m);
      var k :| 0 <= k < |subnets| && SubnetRecordOf(m, draw, subnets, k);
      SeededSubnetRecord(draw, point, seeds, mirror, p, k, m);
      assert SeedIds(subnets)[k] == SeedIds(subnets)[0] ==> k == 0;
    }
  }

  /** The list is written exactly when there is a subnet or a version to speak of. */
  lemma ListWrittenIff(draw: Draw, point: Bytes, seeds: Seeds, mirror: Option<MirrorResult>, p: Pieces)
    requires PiecesFit(draw, point, seeds, mirror, p)
    requires mirror.Some? ==> WellFormed(mirror.value)
    ensures SubnetListKey in KeySet(Batch(draw, point, seeds, mirror, p)) <==>
      seeds.subnets != [] || (mirror.Some? && (mirror.value.subnets != [] || mirror.value.versions != []))
  {
    hide KeySet, DistinctKeys, Batch, PiecesFit;
    NoKeys();
    BatchKeys(draw, point, seeds, mirror, p, SubnetListKey);
  }

  /** A reference from the fabricated batch lands in it, or on what the mirror was told to bring. */
  ghost predicate Lands(seeded: seq<Mutation>, mirror: Option<MirrorResult>, target: Key) {
    || target in KeySet(seeded)
    || (target.VersionKey? && target.version in MirroredVersions(mirror))
    || (target.SubnetKey? && target.subnet in MirroredSubnets(mirror))
  }

  lemma SubnetPieceRefs(draw: Draw, point: Bytes, seeds: Seeds, mirror: Option<MirrorResult>, p: Pieces, m: Mutation, target: Key)
    requires PiecesFit(draw, point, seeds, mirror, p)
    requires m in SubnetPiece(draw, point, seeds, mirror, p) && RefersTo(m.key, m.value, target)
    ensures Lands(SubnetPiece(draw, point, seeds, mirror, p), mirror, target)
  {
    hide KeySet, DistinctKeys, SubnetsMutations;
    var s := seeds.subnets;
    SubnetPieceKeys(draw, point, seeds, mirror, p, target);
    if m in SubnetsMutations(draw, point, s, |s|) {
      SubnetsRefs(draw, point, s, |s|, m, target);
      SubnetsKeys(draw, point, s, |s|, target);
    } else if m !in p.elected && target.subnet in SeedIds(s) {
      var j :| 0 <= j < |s| && SeedIds(s)[j] == target.subnet;
      assert OfSubnet(s[j].subnet, target);
    }
  }

  lemma SeededRefs(draw: Draw, point: Bytes, seeds: Seeds, mirror: Option<MirrorResult>, p: Pieces, m: Mutation, target: Key)
    requires PiecesFit(draw, point, seeds, mirror, p)
    requires m in Seeded(draw, point, seeds, mirror, p) && RefersTo(m.key, m.value, target)
    ensures Lands(Seeded(draw, point, seeds, mirror, p), mirror, target)
  {
    hide KeySet, DistinctKeys, SubnetPiece;
    NoKeys();
    var a, b := SubnetPiece(draw, point, seeds, mirror, p), ProviderPiece(seeds);
    KeysConcat(a, b);
    KeysConcat(a + b, p.dcs);
    if m in a {
      SubnetPieceRefs(draw, point, seeds, mirror, p, m, target);
    } else if m in b {
      ProvidersRefs(seeds.providers, |seeds.providers|, m, target);
    }
  }

  /** Whole-batch referential integrity: every record named by a record is inserted with it. */
  lemma BatchRefsResolve(draw: Draw, point: Bytes, seeds: Seeds, mirror: Option<MirrorResult>, p: Pieces)
    requires PiecesFit(draw, point, seeds, mirror, p)
    requires mirror.Some? ==> WellFormed(mirror.value)
    ensures RefsResolve(Batch(draw, point, seeds, mirror, p))
  {
    hide KeySet, DistinctKeys, Seeded;
    NoKeys();
    var seeded, batch := Seeded(draw, point, seeds, mirror, p), Batch(draw, point, seeds, mirror, p);
    forall m, target | m in batch && RefersTo(m.key, m.value, target) ensures target in KeySet(batch) {
      MirrorWins(seeded, mirror, m);
      BatchKeys(draw, point, seeds, mirror, p, target);
      if m !in MirroredMutations(mirror) {
        SeededRefs(draw, point, seeds, mirror, p, m, target);
        SeededKeys(draw, point, seeds, mirror, p, target);
      }
    }
  }

  /** The only subnet_list in the batch is the seeded one. */
  lemma SubnetListMutation(draw: Draw, point: Bytes, seeds: Seeds, mirror: Option<MirrorResult>, p: Pieces, m: Mutation)
    requires PiecesFit(draw, point, seeds, mirror, p)
    requires mirror.Some? ==> WellFormed(mirror.value)
    requires m in Batch(draw, point, seeds, mirror, p) && m.key == SubnetListKey
    ensures m.value == SubnetListValue(p.listed)
  {
    hide KeySet, DistinctKeys;
    var a, b := SubnetPiece(draw, point, seeds, mirror, p), ProviderPiece(seeds);
    MirrorWins(Seeded(draw, point, seeds, mirror, p), mirror, m);
    if m in MirroredMutations(mirror) {
      KeyIn(MirroredMutations(mirror), m);
    } else if m in p.dcs {
      KeyIn(p.dcs, m);
      DcPieceKeys(draw, point, seeds, mirror, p, m.key);
    } else if m in b {
      KeyIn(b, m);
      ProviderKeys(seeds.providers, |seeds.providers|, m.key);
    } else {
      SubnetListInPart(draw, point, seeds.subnets, p.listed, p.elected, m);
    }
  }

  lemma SubnetListInPart(draw: Draw, point: Bytes, seeds: seq<SubnetSeed>, ids: seq<Id>, elected: seq<Mutation>, m: Mutation)
    requires m in SubnetPart(draw, point, seeds, ids, elected) && m.key == SubnetListKey
    requires forall k :: k in KeySet(elected) ==> k.VersionKey?
    ensures m.value == SubnetListValue(ids)
  {
    hide KeySet, DistinctKeys, SubnetsMutations;
    if m in SubnetsMutations(draw, point, seeds, |seeds|) {
      KeyIn(SubnetsMutations(draw, point, seeds, |seeds|), m);
      SubnetsKeysKind(draw, point, seeds, m.key);
    } else if m in elected {
      KeyIn(elected, m);
    }
  }

  lemma SubnetKeyIff(draw: Draw, point: Bytes, seeds: Seeds, mirror: Option<MirrorResult>, p: Pieces, s: Id)
    requires PiecesFit(draw, point, seeds, mirror, p)
    requires mirror.Some? ==> WellFormed(mirror.value)
    ensures SubnetKey(s) in KeySet(Batch(draw, point, seeds, mirror, p)) <==>
      s in SeedIds(seeds.subnets) || s in MirroredSubnets(mirror)
  {
    hide KeySet, DistinctKeys, Batch, PiecesFit;
    NoKeys();
    BatchKeys(draw, point, seeds, mirror, p, SubnetKey(s));
    if s in SeedIds(seeds.subnets) {
      var j :| 0 <= j < |seeds.subnets| && SeedIds(seeds.subnets)[j] == s;
      assert OfSubnet(seeds.subnets[j].subnet, SubnetKey(s));
    }
  }

  /** subnet_list names each subnet of the batch, seeded or mirrored, exactly once and nothing else. */
  lemma SubnetListExact(draw: Draw, point: Bytes, seeds: Seeds, mirror: Option<MirrorResult>, p: Pieces, m: Mutation)
    requires PiecesFit(draw, point, seeds, mirror, p) && FreshSeeds(draw, seeds)
    requires mirror.Some? ==> WellFormed(mirror.value)
    requires m in Batch(draw, point, seeds, mirror, p) && m.key == SubnetListKey
    ensures m.value.SubnetListValue? && Distinct(m.value.subnets)
    ensures forall s :: s in m.value.subnets <==> SubnetKey(s) in KeySet(Batch(draw, point, seeds, mirror, p))
  {
    hide KeySet, DistinctKeys, Batch;
    SubnetListMutation(draw, point, seeds, mirror, p, m);
    forall s ensures s in p.listed <==> SubnetKey(s) in KeySet(Batch(draw, point, seeds, mirror, p)) {
      SubnetKeyIff(draw, point, seeds, mirror, p, s);
    }
  }

  lemma SeededVersionKey(draw: Draw, seeds: Seeds, mirror: Option<MirrorResult>, v: string)
    ensures SeededKey(draw, seeds, mirror, VersionKey(v)) <==>
      v in VersionsOf(seeds.subnets, |seeds.subnets|) && v !in MirroredVersions(mirror)
  {
  }

  /** Every version in use has its record: seeded, or brought by the mirror, never both. */
  lemma VersionsElected(draw: Draw, point: Bytes, seeds: Seeds, mirror: Option<MirrorResult>, p: Pieces, v: string)
    requires PiecesFit(draw, point, seeds, mirror, p)
    requires mirror.Some? ==> WellFormed(mirror.value)
    ensures VersionKey(v) in KeySet(Batch(draw, point, seeds, mirror, p)) <==>
      (exists k :: 0 <= k < |seeds.subnets| && seeds.subnets[k].version == v) || v in MirroredVersions(mirror)
    ensures VersionKey(v) in KeySet(Seeded(draw, point, seeds, mirror, p)) ==> VersionKey(v) !in KeySet(MirroredMutations(mirror))
  {
    hide KeySet, DistinctKeys, Seeded, Batch, SeededKey;
    NoKeys();
    VersionsOfMeans(seeds.subnets, |seeds.subnets|, v);
    SeededVersionKey(draw, seeds, mirror, v);
    BatchKeys(draw, point, seeds, mirror, p, VersionKey(v));
    SeededKeys(draw, point, seeds, mirror, p, VersionKey(v));
  }

  /** A subnet's record, threshold key and CUP come together: all three mirrored, or all three fabricated. */
  lemma SubnetOneOrigin(draw: Draw, point: Bytes, seeds: Seeds, mirror: Option<MirrorResult>, p: Pieces, s: Id, k: Key)
    requires PiecesFit(draw, point, seeds, mirror, p)
    requires mirror.Some? ==> WellFormed(mirror.value)
    requires OfSubnet(s, k)
    ensures k in KeySet(MirroredMutations(mirror)) <==> s in MirroredSubnets(mirror)
    ensures k in KeySet(Batch(draw, point, seeds, mirror, p)) && s !in MirroredSubnets(mirror) ==>
      && Mutation(ThresholdKey(s), PublicKeyValue(point)) in Batch(draw, point, seeds, mirror, p)
      && Mutation(CatchUpKey(s), CupValue(point)) in Batch(draw, point, seeds, mirror, p)
  {
    hide KeySet, DistinctKeys, Seeded;
    NoKeys();
    BatchKeys(draw, point, seeds, mirror, p, k);
    if k in KeySet(Batch(draw, point, seeds, mirror, p)) && s !in MirroredSubnets(mirror) {
      SeededPair(draw, point, seeds, mirror, p, s, k);
      MirrorWins(Seeded(draw, point, seeds, mirror, p), mirror, Mutation(ThresholdKey(s), PublicKeyValue(point)));
      MirrorWins(Seeded(draw, point, seeds, mirror, p), mirror, Mutation(CatchUpKey(s), CupValue(point)));
    }
  }

  lemma SeededPair(draw: Draw, point: Bytes, seeds: Seeds, mirror: Option<MirrorResult>, p: Pieces, s: Id, k: Key)
    requires OfSubnet(s, k) && SeededKey(draw, seeds, mirror, k)
    ensures Mutation(ThresholdKey(s), PublicKeyValue(point)) in Seeded(draw, point, seeds, mirror, p)
    ensures Mutation(CatchUpKey(s), CupValue(point)) in Seeded(draw, point, seeds, mirror, p)
  {
    hide KeySet, DistinctKeys, SubnetsMutations;
    var ss := seeds.subnets;
    var j :| 0 <= j < |ss| && OfSubnet(ss[j].subnet, k);
    SubnetPair(draw, point, ss, |ss|, j);
  }

  lemma {:induction false} SubnetPair(draw: Draw, point: Bytes, ss: seq<SubnetSeed>, k: nat, j: nat)
    requires j < k <= |ss|
    ensures Mutation(ThresholdKey(ss[j].subnet), PublicKeyValue(point)) in SubnetsMutations(draw, point, ss, k)
    ensures Mutation(CatchUpKey(ss[j].subnet), CupValue(point)) in SubnetsMutations(draw, point, ss, k)
  {
    hide KeySet, DistinctKeys;
    if j == k - 1 {
      var pair := CryptoRecords(ss[j].subnet, point);
      assert pair[0] in pair && pair[1] in pair;
      assert forall m :: m in pair ==> m in SubnetMutations(draw, point, ss, j);
    } else {
      SubnetPair(draw, point, ss, k - 1, j);
    }
  }
}
