/** What the fabricated records say: of each mutation of the batch, whose it is and what it holds. */
module SeedValues {
  import Sequences
  import opened Registry
  import opened UniqueBytes
  import opened Seed

  /** A record of node i of the batch: its own ports, and under each key the material made for it. */
  ghost predicate FabricatedFor(m: Mutation, draw: Draw, i: nat) {
    var n := draw(i).node;
    match m.key
    case NodeKey(_) =>
      var xnet := (4105 + 5 * i) % 0x1_0000_0000;
      m == Mutation(NodeKey(n), NodeValue(NodeRecord("", "", xnet, (xnet + 10000) % 0x1_0000_0000)))
    case TlsKey(_) => m == Mutation(TlsKey(n), CertValue(UniqueKey(5 * i + 4)))
    case CryptoKey(_, NodeSigning) => m == Mutation(CryptoKey(n, NodeSigning), PublicKeyValue(draw(i).raw))
    case CryptoKey(_, CommitteeSigning) => m == Mutation(CryptoKey(n, CommitteeSigning), PublicKeyValue(UniqueKey(5 * i + 1)))
    case CryptoKey(_, DkgDealingEncryption) =>
      m == Mutation(CryptoKey(n, DkgDealingEncryption), PublicKeyValue(UniqueKey(5 * i + 2)))
    case CryptoKey(_, IDkgMEGaEncryption) =>
      m == Mutation(CryptoKey(n, IDkgMEGaEncryption), PublicKeyValue(UniqueKey(5 * i + 3)))
    case _ => false
  }

  ghost predicate OfSomeNode(m: Mutation, draw: Draw, from: nat, to: nat) {
    exists i :: from <= i < to && FabricatedFor(m, draw, i)
  }

  /** The record of the k-th seeded subnet: its own nodes, no more and no fewer, its version, and the first one's type. */
  ghost predicate SubnetRecordOf(m: Mutation, draw: Draw, seeds: seq<SubnetSeed>, k: nat)
    requires k < |seeds|
  {
    && m.key == SubnetKey(seeds[k].subnet) && m.value.SubnetValue?
    && m.value.subnet.version == seeds[k].version
    && (m.value.subnet.system <==> k == 0)
    && |m.value.subnet.members| == (if seeds[k].numNodes < 0 then 0 else seeds[k].numNodes)
    && forall i :: 0 <= i < |m.value.subnet.members| ==> m.value.subnet.members[i] == draw(NodesBefore(seeds, k) + i).node
  }

  /** A record of the k-th seeded subnet itself: its own, or one of its pair, which carry the same point. */
  ghost predicate OfSubnetSeed(m: Mutation, draw: Draw, point: Bytes, seeds: seq<SubnetSeed>, k: nat)
    requires k < |seeds|
  {
    || SubnetRecordOf(m, draw, seeds, k)
    || m == Mutation(ThresholdKey(seeds[k].subnet), PublicKeyValue(point))
    || m == Mutation(CatchUpKey(seeds[k].subnet), CupValue(point))
  }

  lemma NodeMeans(draw: Draw, i: nat, m: Mutation)
    requires m in NodeMutations(draw, i)
    ensures FabricatedFor(m, draw, i)
  {
    hide UniqueKey;
  }

  lemma {:induction false} NodesMean(draw: Draw, from: nat, n: nat, m: Mutation)
    requires m in NodesMutations(draw, from, n)
    ensures OfSomeNode(m, draw, from, from + n)
  {
    hide NodeMutations, FabricatedFor;
    if m in NodeMutations(draw, from + n - 1) {
      NodeMeans(draw, from + n - 1, m);
    } else {
      NodesMean(draw, from, n - 1, m);
    }
  }

  lemma SubnetMeans(draw: Draw, point: Bytes, seeds: seq<SubnetSeed>, k: nat, m: Mutation)
    requires k < |seeds| && m in SubnetMutations(draw, point, seeds, k)
    ensures OfSubnetSeed(m, draw, point, seeds, k) || OfSomeNode(m, draw, NodesBefore(seeds, k), NodesBefore(seeds, k + 1))
  {
    hide NodesMutations, FabricatedFor;
    if m in NodesMutations(draw, NodesBefore(seeds, k), Count(seeds[k].numNodes)) {
      NodesMean(draw, NodesBefore(seeds, k), Count(seeds[k].numNodes), m);
    }
  }

  /** Every record the subnet seeds fabricate is one of a node of theirs, or of a subnet of theirs. */
  lemma {:induction false} SubnetsMean(draw: Draw, point: Bytes, seeds: seq<SubnetSeed>, k: nat, m: Mutation)
    requires k <= |seeds| && m in SubnetsMutations(draw, point, seeds, k)
    ensures OfSomeNode(m, draw, 0, NodesBefore(seeds, k))
         || exists j :: 0 <= j < k && OfSubnetSeed(m, draw, point, seeds, j)
  {
    hide SubnetMutations, FabricatedFor, OfSubnetSeed;
    if m in SubnetMutations(draw, point, seeds, k - 1) {
      SubnetMeans(draw, point, seeds, k - 1, m);
    } else {
      SubnetsMean(draw, point, seeds, k - 1, m);
    }
  }

  /** With distinct seeds, a subnet's key has the record of its seed. */
  lemma SubnetRecordMeans(draw: Draw, point: Bytes, seeds: seq<SubnetSeed>, k: nat, m: Mutation)
    requires k < |seeds| && Sequences.Distinct(SeedIds(seeds))
    requires m in SubnetsMutations(draw, point, seeds, |seeds|) && m.key == SubnetKey(seeds[k].subnet)
    ensures SubnetRecordOf(m, draw, seeds, k)
  {
    SubnetsMean(draw, point, seeds, |seeds|, m);
    var j :| 0 <= j < |seeds| && OfSubnetSeed(m, draw, point, seeds, j);
    assert SeedIds(seeds)[j] == SeedIds(seeds)[k];
  }

  lemma {:induction false} LatestMembers(draw: Draw, seeds: seq<SubnetSeed>, n: nat, k: nat)
    requires k < n <= |seeds| && Sequences.Distinct(SeedIds(seeds))
    ensures seeds[k].subnet in MembersMap(draw, seeds, n)
    ensures MembersMap(draw, seeds, n)[seeds[k].subnet] == SeededMembers(draw, seeds, k)
  {
    if k < n - 1 {
      LatestMembers(draw, seeds, n - 1, k);
      assert SeedIds(seeds)[k] != SeedIds(seeds)[n - 1];
    }
  }

  /** With distinct seeds, each seeded subnet reports the nodes its own record lists. */
  lemma MembersMapAt(draw: Draw, point: Bytes, seeds: seq<SubnetSeed>, k: nat, m: Mutation)
    requires k < |seeds| && Sequences.Distinct(SeedIds(seeds))
    requires m in SubnetsMutations(draw, point, seeds, |seeds|) && m.key == SubnetKey(seeds[k].subnet)
    ensures var members := MembersMap(draw, seeds, |seeds|);
      seeds[k].subnet in members && m.value.SubnetValue? && m.value.subnet.members == members[seeds[k].subnet]
  {
    hide SubnetsMutations, MembersMap, Sequences.Distinct;
    SubnetRecordMeans(draw, point, seeds, k, m);
    LatestMembers(draw, seeds, |seeds|, k);
  }

  lemma {:induction false} MembersMapKeys(draw: Draw, seeds: seq<SubnetSeed>, n: nat, s: Id)
    requires n <= |seeds|
    ensures s in MembersMap(draw, seeds, n) <==> exists k :: 0 <= k < n && seeds[k].subnet == s
  {
    if n > 0 {
      MembersMapKeys(draw, seeds, n - 1, s);
    }
  }

  lemma {:induction false} VersionsOfMeans(seeds: seq<SubnetSeed>, n: nat, v: string)
    requires n <= |seeds|
    ensures v in VersionsOf(seeds, n) <==> exists k :: 0 <= k < n && seeds[k].version == v
  {
    if n > 0 {
      VersionsOfMeans(seeds, n - 1, v);
    }
  }

  // Operators and data centers.

  /** The two records of the k-th provider seed: the operator's names its provider, and both name the data center. */
  ghost predicate OfProviderSeed(m: Mutation, seeds: seq<ProviderSeed>, k: nat)
    requires k < |seeds|
  {
    var s := seeds[k];
    || (&& m.key == OperatorKey(s.operator) && m.value.OperatorValue?
        && m.value.operator.operator == s.operator && m.value.operator.provider == s.provider && m.value.operator.dc == s.dc)
    || (&& m.key == DataCenterKey(s.dc) && m.value.DataCenterValue?
        && m.value.id == s.dc && m.value.region == s.region && m.value.owner == "")
  }

  lemma {:induction false} ProvidersMean(seeds: seq<ProviderSeed>, n: nat, m: Mutation)
    requires n <= |seeds| && m in ProviderMutations(seeds, n)
    ensures exists k :: 0 <= k < n && OfProviderSeed(m, seeds, k)
  {
    if m in ProviderMutations(seeds, n - 1) {
      ProvidersMean(seeds, n - 1, m);
    } else {
      assert OfProviderSeed(m, seeds, n - 1);
    }
  }

  /** The record of the j-th data center seed, the first with its id. */
  ghost predicate OfDcSeed(m: Mutation, seeds: seq<DataCenterSeed>, j: nat)
    requires j < |seeds|
  {
    && m.key == DataCenterKey(seeds[j].id) && m.value.DataCenterValue?
    && m.value.id == seeds[j].id && m.value.region == seeds[j].region && m.value.owner == seeds[j].owner
    && forall i :: 0 <= i < j ==> seeds[i].id != seeds[j].id
  }

  lemma {:induction false} FirstOf(seeds: seq<DataCenterSeed>, j: nat) returns (i: nat)
    requires j < |seeds|
    ensures i <= j && seeds[i].id == seeds[j].id && FirstDc(seeds, i)
  {
    if k :| 0 <= k < j && seeds[k].id == seeds[j].id {
      i := FirstOf(seeds, k);
    } else {
      i := j;
    }
  }

  lemma DcsMean(seeds: seq<DataCenterSeed>, taken: set<Key>, muts: seq<Mutation>, m: Mutation)
    requires DcBatch(seeds, taken, muts) && m in muts
    ensures exists j :: 0 <= j < |seeds| && OfDcSeed(m, seeds, j)
  {
    hide DistinctKeys, KeySet;
    var j :| 0 <= j < |seeds| && m == DcMutation(seeds[j]);
    var i := FirstOf(seeds, j);
    var first := DcMutation(seeds[i]);
    assert first in muts;
    OneValue(muts, m, first);
    assert OfDcSeed(m, seeds, i);
  }

  lemma OneValue(muts: seq<Mutation>, m: Mutation, n: Mutation)
    requires DistinctKeys(muts) && m in muts && n in muts && m.key == n.key
    ensures m == n
  {
    DistinctKeysMeans(muts);
    var i :| 0 <= i < |muts| && muts[i] == m;
    var j :| 0 <= j < |muts| && muts[j] == n;
  }
}
