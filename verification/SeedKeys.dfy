/** Which keys the fabricated records occupy, that no two of them collide, and what they refer to. */
module SeedKeys {
  import Sequences
  import opened Registry
  import opened Seed

  /** A record belonging to node n. */
  predicate OfNode(n: Id, k: Key) {
    k == NodeKey(n) || NodeMaterial(n, k)
  }

  /** A record belonging to subnet s. */
  predicate OfSubnet(s: Id, k: Key) {
    k == SubnetKey(s) || k == ThresholdKey(s) || k == CatchUpKey(s)
  }

  /** The draws from .. to are all different nodes. */
  ghost predicate FreshDraws(draw: Draw, from: nat, to: nat) {
    forall i, j :: from <= i < j < to ==> draw(i).node != draw(j).node
  }

  /** Of these draws, one node is drawn twice only if all its records are among keys. */
  ghost predicate NodesApart(draw: Draw, from: nat, to: nat, keys: set<Key>) {
    forall i, j :: from <= i < j < to && draw(i).node == draw(j).node ==> forall k :: OfNode(draw(i).node, k) ==> k in keys
  }

  /** Of the first k seeds, two name one subnet only if all three of its records are among keys. */
  ghost predicate SubnetsApart(seeds: seq<SubnetSeed>, k: nat, keys: set<Key>)
    requires k <= |seeds|
  {
    forall i, j :: 0 <= i < j < k && seeds[i].subnet == seeds[j].subnet ==> forall key :: OfSubnet(seeds[i].subnet, key) ==> key in keys
  }

  /** Of the first k seeds, two share an operator, or a data center, only if its record is among keys. */
  ghost predicate ProvidersApart(seeds: seq<ProviderSeed>, k: nat, keys: set<Key>)
    requires k <= |seeds|
  {
    forall i, j :: 0 <= i < j < k ==>
      && (seeds[i].operator == seeds[j].operator ==> OperatorKey(seeds[i].operator) in keys)
      && (seeds[i].dc == seeds[j].dc ==> DataCenterKey(seeds[i].dc) in keys)
  }

  lemma NodeMutationsKeys(draw: Draw, i: nat)
    ensures DistinctKeys(NodeMutations(draw, i))
    ensures forall k :: k in KeySet(NodeMutations(draw, i)) <==> OfNode(draw(i).node, k)
  {
    hide KeySet, DistinctKeys;
    var n, m := draw(i).node, NodeMutations(draw, i);
    assert m == [m[0], m[1]] + ([m[2], m[3]] + [m[4], m[5]]);
    KeysOfTwo(m[0], m[1]);
    KeysOfTwo(m[2], m[3]);
    KeysOfTwo(m[4], m[5]);
    KeysConcat([m[2], m[3]], [m[4], m[5]]);
    KeysConcat([m[0], m[1]], [m[2], m[3]] + [m[4], m[5]]);
    forall k | OfNode(n, k) ensures k in KeySet(m) {
      if k.CryptoKey? {
        match k.purpose case NodeSigning => case CommitteeSigning => case DkgDealingEncryption => case IDkgMEGaEncryption =>
      }
    }
  }

  ghost predicate OfSeededNode(draw: Draw, from: nat, to: nat, key: Key) {
    exists i :: from <= i < to && OfNode(draw(i).node, key)
  }

  lemma OfSeededNodeSplit(draw: Draw, from: nat, mid: nat, to: nat, key: Key)
    requires from <= mid <= to
    ensures OfSeededNode(draw, from, to, key) <==> OfSeededNode(draw, from, mid, key) || OfSeededNode(draw, mid, to, key)
  {
  }

  lemma {:induction false} NodesKeys(draw: Draw, from: nat, n: nat, k: Key)
    ensures k in KeySet(NodesMutations(draw, from, n)) <==> OfSeededNode(draw, from, from + n, k)
  {
    hide KeySet, DistinctKeys, NodeMutations;
    NoKeys();
    if n > 0 {
      NodesKeys(draw, from, n - 1, k);
      NodeMutationsKeys(draw, from + n - 1);
      OfSeededNodeSplit(draw, from, from + n - 1, from + n, k);
      assert OfSeededNode(draw, from + n - 1, from + n, k) <==> OfNode(draw(from + n - 1).node, k);
      KeysConcat(NodesMutations(draw, from, n - 1), NodeMutations(draw, from + n - 1));
    }
  }

  /** The earlier draws share keys with one more exactly when they drew its node. */
  lemma OneMoreNode(draw: Draw, from: nat, n: nat, keys: set<Key>)
    ensures NodesApart(draw, from, from + n + 1, keys)
       <==> NodesApart(draw, from, from + n, keys)
            && forall k :: OfSeededNode(draw, from, from + n, k) && OfNode(draw(from + n).node, k) ==> k in keys
  {
    var last := draw(from + n).node;
    if forall k :: OfSeededNode(draw, from, from + n, k) && OfNode(last, k) ==> k in keys {
      forall i, k | from <= i < from + n && draw(i).node == last && OfNode(last, k) ensures k in keys {
        assert OfSeededNode(draw, from, from + n, k);
      }
    }
  }

  lemma {:induction false} NodesDistinct(draw: Draw, from: nat, n: nat, keys: set<Key>)
    ensures DistinctBut(NodesMutations(draw, from, n), keys) <==> NodesApart(draw, from, from + n, keys)
  {
    hide KeySet, DistinctKeys, NodeMutations, NodesApart, OfSeededNode, OfNode;
    if n == 0 {
      NoNodesApart(draw, from, keys);
    } else {
      var a, b := NodesMutations(draw, from, n - 1), NodeMutations(draw, from + n - 1);
      NodesDistinct(draw, from, n - 1, keys);
      NodeMutationsKeys(draw, from + n - 1);
      DistinctIsDistinctBut(b, keys);
      forall k ensures k in KeySet(a) <==> OfSeededNode(draw, from, from + n - 1, k) {
        NodesKeys(draw, from, n - 1, k);
      }
      OneMoreNode(draw, from, n - 1, keys);
      DistinctButConcat(a, b, keys);
    }
  }

  lemma NoNodesApart(draw: Draw, from: nat, keys: set<Key>)
    ensures NodesApart(draw, from, from, keys)
  {
  }

  ghost predicate OfSeededSubnet(seeds: seq<SubnetSeed>, k: nat, key: Key)
    requires k <= |seeds|
  {
    exists j :: 0 <= j < k && OfSubnet(seeds[j].subnet, key)
  }

  /** A key of the first k seeded subnets or of their nodes. */
  ghost predicate SeededSubnetKey(draw: Draw, seeds: seq<SubnetSeed>, k: nat, key: Key)
    requires k <= |seeds|
  {
    OfSeededSubnet(seeds, k, key) || OfSeededNode(draw, 0, NodesBefore(seeds, k), key)
  }

  lemma SubnetMutationsKeys(draw: Draw, point: Bytes, seeds: seq<SubnetSeed>, j: nat, key: Key)
    requires j < |seeds|
    ensures key in KeySet(SubnetMutations(draw, point, seeds, j)) <==>
      || OfSubnet(seeds[j].subnet, key)
      || OfSeededNode(draw, NodesBefore(seeds, j), NodesBefore(seeds, j + 1), key)
  {
    hide KeySet, DistinctKeys, NodesMutations;
    var s := seeds[j].subnet;
    var nodes := NodesMutations(draw, NodesBefore(seeds, j), Count(seeds[j].numNodes));
    var record := [Mutation(SubnetKey(s), SubnetValue(SubnetRecord(SeededMembers(draw, seeds, j), seeds[j].version, j == 0)))];
    KeysConcat(nodes, record);
    KeysConcat(nodes + record, CryptoRecords(s, point));
    KeysOfOne(record[0]);
    KeysOfTwo(CryptoRecords(s, point)[0], CryptoRecords(s, point)[1]);
    NodesKeys(draw, NodesBefore(seeds, j), Count(seeds[j].numNodes), key);
  }

  lemma {:induction false} SubnetsKeys(draw: Draw, point: Bytes, seeds: seq<SubnetSeed>, k: nat, key: Key)
    requires k <= |seeds|
    ensures key in KeySet(SubnetsMutations(draw, point, seeds, k)) <==> SeededSubnetKey(draw, seeds, k, key)
  {
    hide KeySet, DistinctKeys, SubnetMutations;
    NoKeys();
    if k > 0 {
      SubnetsKeys(draw, point, seeds, k - 1, key);
      SubnetMutationsKeys(draw, point, seeds, k - 1, key);
      OfSeededNodeSplit(draw, 0, NodesBefore(seeds, k - 1), NodesBefore(seeds, k), key);
      KeysConcat(SubnetsMutations(draw, point, seeds, k - 1), SubnetMutations(draw, point, seeds, k - 1));
    }
  }

  lemma SubnetDistinct(draw: Draw, point: Bytes, seeds: seq<SubnetSeed>, j: nat, keys: set<Key>)
    requires j < |seeds|
    ensures DistinctBut(SubnetMutations(draw, point, seeds, j), keys)
       <==> NodesApart(draw, NodesBefore(seeds, j), NodesBefore(seeds, j + 1), keys)
  {
    hide KeySet, DistinctKeys, NodesMutations, NodesApart, OfSeededNode;
    var s, from, n := seeds[j].subnet, NodesBefore(seeds, j), Count(seeds[j].numNodes);
    var nodes := NodesMutations(draw, from, n);
    var record := [Mutation(SubnetKey(s), SubnetValue(SubnetRecord(SeededMembers(draw, seeds, j), seeds[j].version, j == 0)))];
    var rest := record + CryptoRecords(s, point);
    assert SubnetMutations(draw, point, seeds, j) == nodes + rest;
    KeysOfOne(record[0]);
    KeysOfTwo(CryptoRecords(s, point)[0], CryptoRecords(s, point)[1]);
    KeysConcat(record, CryptoRecords(s, point));
    DistinctIsDistinctBut(rest, keys);
    NodesDistinct(draw, from, n, keys);
    DistinctButConcat(nodes, rest, keys);
    forall k | k in KeySet(nodes) ensures k !in KeySet(rest) {
      NodesKeys(draw, from, n, k);
      NodeKind(draw, from, from + n, k);
    }
  }

  lemma NodeKind(draw: Draw, from: nat, to: nat, k: Key)
    requires OfSeededNode(draw, from, to, k)
    ensures k.NodeKey? || k.TlsKey? || k.CryptoKey?
  {
  }

  /** Draws in two runs are apart when each run's are, and no node is drawn in both but those among keys. */
  lemma NodesApartSplit(draw: Draw, mid: nat, to: nat, keys: set<Key>)
    requires mid <= to
    ensures NodesApart(draw, 0, to, keys)
       <==> NodesApart(draw, 0, mid, keys) && NodesApart(draw, mid, to, keys)
            && forall k :: OfSeededNode(draw, 0, mid, k) && OfSeededNode(draw, mid, to, k) ==> k in keys
  {
    if forall k :: OfSeededNode(draw, 0, mid, k) && OfSeededNode(draw, mid, to, k) ==> k in keys {
      forall i, j, k | 0 <= i < mid <= j < to && draw(i).node == draw(j).node && OfNode(draw(i).node, k) ensures k in keys {
        assert OfSeededNode(draw, 0, mid, k) && OfSeededNode(draw, mid, to, k);
      }
    }
  }

  lemma OneMoreSubnet(seeds: seq<SubnetSeed>, k: nat, keys: set<Key>)
    requires k < |seeds|
    ensures SubnetsApart(seeds, k + 1, keys)
       <==> SubnetsApart(seeds, k, keys)
            && forall key :: OfSeededSubnet(seeds, k, key) && OfSubnet(seeds[k].subnet, key) ==> key in keys
  {
    if forall key :: OfSeededSubnet(seeds, k, key) && OfSubnet(seeds[k].subnet, key) ==> key in keys {
      forall i, key | 0 <= i < k && seeds[i].subnet == seeds[k].subnet && OfSubnet(seeds[i].subnet, key) ensures key in keys {
        assert OfSeededSubnet(seeds, k, key);
      }
    }
  }

  lemma SubnetKind(seeds: seq<SubnetSeed>, k: nat, key: Key)
    requires k <= |seeds| && OfSeededSubnet(seeds, k, key)
    ensures key.SubnetKey? || key.ThresholdKey? || key.CatchUpKey?
  {
  }

  /** What two stretches of the batch share: the records of a subnet seeded in both, or of a node drawn in both. */
  lemma SharedKeys(draw: Draw, point: Bytes, seeds: seq<SubnetSeed>, k: nat, key: Key)
    requires k < |seeds|
    ensures key in KeySet(SubnetsMutations(draw, point, seeds, k)) && key in KeySet(SubnetMutations(draw, point, seeds, k)) <==>
      || (OfSeededSubnet(seeds, k, key) && OfSubnet(seeds[k].subnet, key))
      || (&& OfSeededNode(draw, 0, NodesBefore(seeds, k), key)
          && OfSeededNode(draw, NodesBefore(seeds, k), NodesBefore(seeds, k + 1), key))
  {
    hide KeySet, DistinctKeys, SubnetsMutations, SubnetMutations, OfSeededNode, OfSeededSubnet;
    SubnetsKeys(draw, point, seeds, k, key);
    SubnetMutationsKeys(draw, point, seeds, k, key);
    if OfSeededSubnet(seeds, k, key) {
      SubnetKind(seeds, k, key);
    }
    if OfSeededNode(draw, 0, NodesBefore(seeds, k), key) {
      NodeKind(draw, 0, NodesBefore(seeds, k), key);
    }
    if OfSeededNode(draw, NodesBefore(seeds, k), NodesBefore(seeds, k + 1), key) {
      NodeKind(draw, NodesBefore(seeds, k), NodesBefore(seeds, k + 1), key);
    }
  }

  /** The fabricated subnets write a key twice exactly where seeds or draws repeat. */
  lemma {:induction false} SubnetsDistinct(draw: Draw, point: Bytes, seeds: seq<SubnetSeed>, k: nat, keys: set<Key>)
    requires k <= |seeds|
    ensures DistinctBut(SubnetsMutations(draw, point, seeds, k), keys)
       <==> SubnetsApart(seeds, k, keys) && NodesApart(draw, 0, NodesBefore(seeds, k), keys)
  {
    hide KeySet, DistinctKeys, SubnetMutations, NodesApart, SubnetsApart, OfSeededNode, OfSeededSubnet, OfSubnet;
    if k == 0 {
      NoNodesApart(draw, 0, keys);
      NoSubnetsApart(seeds, keys);
    } else {
      var a, b := SubnetsMutations(draw, point, seeds, k - 1), SubnetMutations(draw, point, seeds, k - 1);
      SubnetsDistinct(draw, point, seeds, k - 1, keys);
      SubnetDistinct(draw, point, seeds, k - 1, keys);
      DistinctButConcat(a, b, keys);
      OneMoreSubnet(seeds, k - 1, keys);
      NodesApartSplit(draw, NodesBefore(seeds, k - 1), NodesBefore(seeds, k), keys);
      forall key
        ensures key in KeySet(a) && key in KeySet(b) <==>
          || (OfSeededSubnet(seeds, k - 1, key) && OfSubnet(seeds[k - 1].subnet, key))
          || (&& OfSeededNode(draw, 0, NodesBefore(seeds, k - 1), key)
              && OfSeededNode(draw, NodesBefore(seeds, k - 1), NodesBefore(seeds, k), key))
      {
        SharedKeys(draw, point, seeds, k - 1, key);
      }
    }
  }

  lemma NoSubnetsApart(seeds: seq<SubnetSeed>, keys: set<Key>)
    ensures SubnetsApart(seeds, 0, keys)
  {
  }

  /** Every reference in a seeded subnet's records is to a node it brings, or to the version it runs. */
  lemma SubnetRefs(draw: Draw, point: Bytes, seeds: seq<SubnetSeed>, j: nat, m: Mutation, target: Key)
    requires j < |seeds|
    requires m in SubnetMutations(draw, point, seeds, j) && RefersTo(m.key, m.value, target)
    ensures target in KeySet(SubnetMutations(draw, point, seeds, j)) || target == VersionKey(seeds[j].version)
  {
    hide KeySet, DistinctKeys, NodesMutations;
    var from, n := NodesBefore(seeds, j), Count(seeds[j].numNodes);
    NodesRefer(draw, from, n, m, target);
    assert m.key == SubnetKey(seeds[j].subnet);
    if target.NodeKey? {
      var i :| 0 <= i < n && SeededMembers(draw, seeds, j)[i] == target.node;
      assert OfNode(draw(from + i).node, target);
      SubnetMutationsKeys(draw, point, seeds, j, target);
    }
  }

  lemma {:induction false} SubnetsRefs(draw: Draw, point: Bytes, seeds: seq<SubnetSeed>, k: nat, m: Mutation, target: Key)
    requires k <= |seeds|
    requires m in SubnetsMutations(draw, point, seeds, k) && RefersTo(m.key, m.value, target)
    ensures target in KeySet(SubnetsMutations(draw, point, seeds, k))
         || (target.VersionKey? && target.version in VersionsOf(seeds, k))
  {
    hide KeySet, DistinctKeys, SubnetMutations;
    var a, b := SubnetsMutations(draw, point, seeds, k - 1), SubnetMutations(draw, point, seeds, k - 1);
    KeysConcat(a, b);
    if m in a {
      SubnetsRefs(draw, point, seeds, k - 1, m, target);
    } else {
      SubnetRefs(draw, point, seeds, k - 1, m, target);
    }
  }

  /** A fabricated node names no operator and no HostOS version. */
  lemma {:induction false} NodesRefer(draw: Draw, from: nat, n: nat, m: Mutation, target: Key)
    ensures m in NodesMutations(draw, from, n) ==> !RefersTo(m.key, m.value, target)
  {
    hide KeySet, DistinctKeys;
    if n > 0 {
      NodesRefer(draw, from, n - 1, m, target);
    }
  }

  // Operators and data centers.

  ghost predicate DistinctProviders(seeds: seq<ProviderSeed>) {
    forall i, j :: 0 <= i < j < |seeds| ==> seeds[i].operator != seeds[j].operator && seeds[i].dc != seeds[j].dc
  }

  ghost predicate ProviderKey(seeds: seq<ProviderSeed>, k: nat, key: Key)
    requires k <= |seeds|
  {
    exists i :: 0 <= i < k && (key == OperatorKey(seeds[i].operator) || key == DataCenterKey(seeds[i].dc))
  }

  lemma {:induction false} ProviderKeys(seeds: seq<ProviderSeed>, k: nat, key: Key)
    requires k <= |seeds|
    ensures key in KeySet(ProviderMutations(seeds, k)) <==> ProviderKey(seeds, k, key)
  {
    hide KeySet, DistinctKeys;
    NoKeys();
    if k > 0 {
      ProviderKeys(seeds, k - 1, key);
      var s := seeds[k - 1];
      var last := [Mutation(OperatorKey(s.operator), OperatorValue(OperatorRecord(s.operator, s.provider, s.dc))),
                   Mutation(DataCenterKey(s.dc), DataCenterValue(s.dc, s.region, ""))];
      KeysConcat(ProviderMutations(seeds, k - 1), last);
      KeysOfTwo(last[0], last[1]);
    }
  }

  lemma OneMoreProvider(seeds: seq<ProviderSeed>, k: nat, keys: set<Key>)
    requires k < |seeds|
    ensures ProvidersApart(seeds, k + 1, keys)
       <==> ProvidersApart(seeds, k, keys)
            && (ProviderKey(seeds, k, OperatorKey(seeds[k].operator)) ==> OperatorKey(seeds[k].operator) in keys)
            && (ProviderKey(seeds, k, DataCenterKey(seeds[k].dc)) ==> DataCenterKey(seeds[k].dc) in keys)
  {
  }

  /** The two records of one more provider seed, which never collide with each other. */
  lemma ProviderPair(seeds: seq<ProviderSeed>, k: nat) returns (pair: seq<Mutation>)
    requires k < |seeds|
    ensures ProviderMutations(seeds, k + 1) == ProviderMutations(seeds, k) + pair
    ensures KeySet(pair) == {OperatorKey(seeds[k].operator), DataCenterKey(seeds[k].dc)} && DistinctKeys(pair)
  {
    hide KeySet, DistinctKeys;
    var s := seeds[k];
    pair := [Mutation(OperatorKey(s.operator), OperatorValue(OperatorRecord(s.operator, s.provider, s.dc))),
             Mutation(DataCenterKey(s.dc), DataCenterValue(s.dc, s.region, ""))];
    KeysOfTwo(pair[0], pair[1]);
  }

  lemma NoProvidersApart(seeds: seq<ProviderSeed>, keys: set<Key>)
    ensures DistinctBut(ProviderMutations(seeds, 0), keys) && ProvidersApart(seeds, 0, keys)
  {
  }

  lemma {:induction false} ProvidersDistinct(seeds: seq<ProviderSeed>, k: nat, keys: set<Key>)
    requires k <= |seeds|
    ensures DistinctBut(ProviderMutations(seeds, k), keys) <==> ProvidersApart(seeds, k, keys)
  {
    hide KeySet, DistinctKeys, ProviderKey, ProvidersApart, ProviderMutations, DistinctBut;
    if k == 0 {
      NoProvidersApart(seeds, keys);
    } else {
      ProvidersDistinct(seeds, k - 1, keys);
      var pair := ProviderPair(seeds, k - 1);
      DistinctIsDistinctBut(pair, keys);
      DistinctButConcat(ProviderMutations(seeds, k - 1), pair, keys);
      ProviderKeys(seeds, k - 1, OperatorKey(seeds[k - 1].operator));
      ProviderKeys(seeds, k - 1, DataCenterKey(seeds[k - 1].dc));
      OneMoreProvider(seeds, k - 1, keys);
    }
  }

  /** Every seeded operator comes with the data center it names. */
  lemma {:induction false} ProvidersRefs(seeds: seq<ProviderSeed>, k: nat, m: Mutation, target: Key)
    requires k <= |seeds|
    requires m in ProviderMutations(seeds, k) && RefersTo(m.key, m.value, target)
    ensures target in KeySet(ProviderMutations(seeds, k))
  {
    hide KeySet, DistinctKeys;
    ProviderKeys(seeds, k, target);
    if m in ProviderMutations(seeds, k - 1) {
      ProvidersRefs(seeds, k - 1, m, target);
      ProviderKeys(seeds, k - 1, target);
    }
  }

  // The list and the elections.

  lemma ListPartKeys(ids: seq<Id>, elected: seq<Mutation>)
    ensures KeySet(ListPart(ids, elected)) == {SubnetListKey} + KeySet(elected)
    ensures DistinctKeys(ListPart(ids, elected)) <==> DistinctKeys(elected) && SubnetListKey !in KeySet(elected)
  {
    hide KeySet, DistinctKeys;
    KeysOfOne(Mutation(SubnetListKey, SubnetListValue(ids)));
    KeysConcat([Mutation(SubnetListKey, SubnetListValue(ids))], elected);
  }

  lemma SubnetPartKeys(draw: Draw, point: Bytes, seeds: seq<SubnetSeed>, ids: seq<Id>, elected: seq<Mutation>, k: Key)
    ensures k in KeySet(SubnetPart(draw, point, seeds, ids, elected)) <==>
      SeededSubnetKey(draw, seeds, |seeds|, k) || k == SubnetListKey || k in KeySet(elected)
  {
    hide KeySet, DistinctKeys, SubnetsMutations, ListPart;
    KeysConcat(SubnetsMutations(draw, point, seeds, |seeds|), ListPart(ids, elected));
    ListPartKeys(ids, elected);
    SubnetsKeys(draw, point, seeds, |seeds|, k);
  }

  lemma SubnetsKeysKind(draw: Draw, point: Bytes, seeds: seq<SubnetSeed>, k: Key)
    requires k in KeySet(SubnetsMutations(draw, point, seeds, |seeds|))
    ensures k != SubnetListKey && !k.VersionKey?
  {
    hide KeySet, DistinctKeys, SubnetsMutations, ListPart;
    SubnetsKeys(draw, point, seeds, |seeds|, k);
  }

  lemma SubnetPartDistinct(
    draw: Draw, point: Bytes, seeds: seq<SubnetSeed>, ids: seq<Id>, elected: seq<Mutation>, keys: set<Key>)
    requires DistinctKeys(elected) && forall k :: k in KeySet(elected) ==> k.VersionKey?
    ensures DistinctBut(SubnetPart(draw, point, seeds, ids, elected), keys)
       <==> SubnetsApart(seeds, |seeds|, keys) && NodesApart(draw, 0, NodesBefore(seeds, |seeds|), keys)
  {
    hide KeySet, DistinctKeys, SubnetsMutations, ListPart, SubnetsApart, NodesApart;
    var body, tail := SubnetsMutations(draw, point, seeds, |seeds|), ListPart(ids, elected);
    ListPartKeys(ids, elected);
    DistinctIsDistinctBut(tail, keys);
    SubnetsDistinct(draw, point, seeds, |seeds|, keys);
    forall k | k in KeySet(body) ensures k !in KeySet(tail) {
      SubnetsKeysKind(draw, point, seeds, k);
    }
    DistinctButConcat(body, tail, keys);
  }
}
