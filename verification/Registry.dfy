/**
 The registry's key space and the records stored under it, already decoded. A principal is
 represented by its text; the empty text stands for the empty byte string, which the code
 tests with len(raw) == 0.
 */
module Registry {
  import opened Wrappers

  type Id = string
  type Byte = b: int | 0 <= b < 256
  type Bytes = seq<Byte>

  /** What the four crypto_record_ keys of a node are for. */
  datatype Purpose = NodeSigning | DkgDealingEncryption | CommitteeSigning | IDkgMEGaEncryption

  function PurposeDigit(p: Purpose): char {
    match p
    case NodeSigning => '1'
    case DkgDealingEncryption => '3'
    case CommitteeSigning => '4'
    case IDkgMEGaEncryption => '5'
  }

  datatype Key =
    | SubnetKey(subnet: Id)
    | ThresholdKey(subnet: Id)
    | CatchUpKey(subnet: Id)
    | SubnetListKey
    | NodeKey(node: Id)
    | TlsKey(node: Id)
    | CryptoKey(node: Id, purpose: Purpose)
    | HostosKey(version: string)
    | VersionKey(version: string)
    | OperatorKey(operator: Id)
    | DataCenterKey(dc: string)

  datatype SubnetRecord = SubnetRecord(members: seq<Id>, version: string, system: bool)
  datatype NodeRecord = NodeRecord(operator: Id, hostos: string, xnetPort: nat, httpPort: nat)
  datatype OperatorRecord = OperatorRecord(operator: Id, provider: Id, dc: string)

  /** The bytes stored under a key, as the record they decode to. NilBytes is Go's nil slice. */
  datatype Value =
    | NilBytes
    | SubnetValue(subnet: SubnetRecord)
    | NodeValue(node: NodeRecord)
    | OperatorValue(operator: OperatorRecord)
    | DataCenterValue(id: string, region: string, owner: string)
    | SubnetListValue(subnets: seq<Id>)
    | PublicKeyValue(key: Bytes)
    | CertValue(der: Bytes)
    | CupValue(coefficient: Bytes)
    | EmptyVersionValue
    | OpaqueValue(bytes: Bytes)

  /** Only INSERTs are ever written, so a mutation is a key and a value. */
  datatype Mutation = Mutation(key: Key, value: Value)

  // Nil bytes decode to the all-default record, as an empty protobuf message does.

  function DecodeSubnet(v: Value): Option<SubnetRecord> {
    match v
    case NilBytes => Some(SubnetRecord([], "", false))
    case SubnetValue(r) => Some(r)
    case _ => None
  }

  function DecodeNode(v: Value): Option<NodeRecord> {
    match v
    case NilBytes => Some(NodeRecord("", "", 0, 0))
    case NodeValue(r) => Some(r)
    case _ => None
  }

  function DecodeOperator(v: Value): Option<OperatorRecord> {
    match v
    case NilBytes => Some(OperatorRecord("", "", ""))
    case OperatorValue(r) => Some(r)
    case _ => None
  }

  /** The keys a batch writes. */
  function KeySet(muts: seq<Mutation>): set<Key> {
    if muts == [] then {} else KeySet(muts[..|muts| - 1]) + {muts[|muts| - 1].key}
  }

  /** No key is written twice. */
  predicate DistinctKeys(muts: seq<Mutation>) {
    muts == [] ||
    (DistinctKeys(muts[..|muts| - 1]) && muts[|muts| - 1].key !in KeySet(muts[..|muts| - 1]))
  }

  lemma NoKeys()
    ensures KeySet([]) == {} && DistinctKeys([])
  {
  }

  lemma {:induction false} KeyIn(muts: seq<Mutation>, m: Mutation)
    requires m in muts
    ensures m.key in KeySet(muts)
  {
    if m != muts[|muts| - 1] {
      KeyIn(muts[..|muts| - 1], m);
    }
  }

  lemma {:induction false} KeyOf(muts: seq<Mutation>, k: Key) returns (m: Mutation)
    requires k in KeySet(muts)
    ensures m in muts && m.key == k
  {
    if muts[|muts| - 1].key == k {
      m := muts[|muts| - 1];
    } else {
      m := KeyOf(muts[..|muts| - 1], k);
    }
  }

  /** What DistinctKeys means position by position. */
  lemma {:induction false} DistinctKeysMeans(muts: seq<Mutation>)
    ensures DistinctKeys(muts) <==> forall i, j :: 0 <= i < j < |muts| ==> muts[i].key != muts[j].key
  {
    if muts != [] {
      var front, last := muts[..|muts| - 1], muts[|muts| - 1];
      DistinctKeysMeans(front);
      assert forall i :: 0 <= i < |front| ==> front[i] == muts[i];
      if last.key in KeySet(front) {
        var m := KeyOf(front, last.key);
        var i :| 0 <= i < |front| && front[i] == m;
        assert muts[i].key == muts[|muts| - 1].key;
      } else {
        forall i | 0 <= i < |front| ensures muts[i].key != last.key {
          KeyIn(front, front[i]);
        }
      }
    }
  }

  lemma KeysAppend(a: seq<Mutation>, m: Mutation)
    ensures KeySet(a + [m]) == KeySet(a) + {m.key}
    ensures DistinctKeys(a + [m]) <==> DistinctKeys(a) && m.key !in KeySet(a)
  {
  }

  lemma KeysOfOne(m: Mutation)
    ensures KeySet([m]) == {m.key} && DistinctKeys([m])
  {
  }

  lemma KeysOfTwo(m: Mutation, n: Mutation)
    ensures KeySet([m, n]) == {m.key, n.key}
    ensures DistinctKeys([m, n]) <==> m.key != n.key
  {
    assert [m, n] == [m] + [n];
    KeysOfOne(m);
    KeysAppend([m], n);
  }

  lemma {:induction false} KeysConcat(a: seq<Mutation>, b: seq<Mutation>)
    ensures KeySet(a + b) == KeySet(a) + KeySet(b)
    ensures DistinctKeys(a + b) <==> DistinctKeys(a) && DistinctKeys(b) && KeySet(a) !! KeySet(b)
  {
    if b == [] {
      assert a + b == a;
    } else {
      var front, last := b[..|b| - 1], b[|b| - 1];
      assert a + b == (a + front) + [last];
      KeysConcat(a, front);
      KeysAppend(a + front, last);
    }
  }

  /** No key is written twice, except among keys. */
  predicate DistinctBut(muts: seq<Mutation>, keys: set<Key>) {
    muts == [] ||
    (DistinctBut(muts[..|muts| - 1], keys)
     && (muts[|muts| - 1].key in KeySet(muts[..|muts| - 1]) ==> muts[|muts| - 1].key in keys))
  }

  lemma {:induction false} DistinctIsDistinctBut(muts: seq<Mutation>, keys: set<Key>)
    ensures DistinctKeys(muts) ==> DistinctBut(muts, keys)
    ensures DistinctBut(muts, {}) <==> DistinctKeys(muts)
  {
    hide KeySet;
    if muts != [] {
      DistinctIsDistinctBut(muts[..|muts| - 1], keys);
    }
  }

  lemma {:induction false} DistinctButConcat(a: seq<Mutation>, b: seq<Mutation>, keys: set<Key>)
    ensures DistinctBut(a + b, keys)
       <==> DistinctBut(a, keys) && DistinctBut(b, keys) && forall k :: k in KeySet(a) && k in KeySet(b) ==> k in keys
  {
    hide KeySet;
    if b == [] {
      assert a + b == a;
      NoKeys();
    } else {
      var front, last := b[..|b| - 1], b[|b| - 1];
      assert (a + b)[..|a + b| - 1] == a + front && (a + b)[|a + b| - 1] == last;
      DistinctButConcat(a, front, keys);
      KeysConcat(a, front);
      KeysAppend(front, last);
      assert b == front + [last];
    }
  }

  /** The keys a stored record names, which the registry dereferences when it checks its invariants. */
  predicate RefersTo(k: Key, v: Value, target: Key) {
    match (k, v)
    case (SubnetKey(_), SubnetValue(r)) =>
      (target.NodeKey? && target.node in r.members) || (r.version != "" && target == VersionKey(r.version))
    case (NodeKey(_), NodeValue(r)) =>
      (r.operator != "" && target == OperatorKey(r.operator)) || (r.hostos != "" && target == HostosKey(r.hostos))
    case (OperatorKey(_), OperatorValue(r)) => r.dc != "" && target == DataCenterKey(r.dc)
    case (SubnetListKey, SubnetListValue(ids)) => target.SubnetKey? && target.subnet in ids
    case _ => false
  }

  /** Every reference lands on a record written by the same batch. */
  ghost predicate RefsResolve(muts: seq<Mutation>) {
    forall m, target :: m in muts && RefersTo(m.key, m.value, target) ==> target in KeySet(muts)
  }

  /** The TLS certificate and the four keys of a node. */
  predicate NodeMaterial(n: Id, k: Key) {
    k == TlsKey(n) || (k.CryptoKey? && k.node == n)
  }

  /** The text mirror.go and seed.go concatenate for a key. */
  function Text(k: Key): string {
    match k
    case SubnetKey(s) => "subnet_record_" + s
    case ThresholdKey(s) => "crypto_threshold_signing_public_key_" + s
    case CatchUpKey(s) => "catch_up_package_contents_" + s
    case SubnetListKey => "subnet_list"
    case NodeKey(n) => "node_record_" + n
    case TlsKey(n) => "crypto_tls_cert_" + n
    case CryptoKey(n, p) => "crypto_record_" + n + "_" + [PurposeDigit(p)]
    case HostosKey(v) => "hostos_version_" + v
    case VersionKey(v) => "replica_version_" + v
    case OperatorKey(o) => "node_operator_record_" + o
    case DataCenterKey(d) => "data_center_record_" + d
  }

  /** Which family a key text belongs to, read off the first characters that tell them apart. */
  function Family(t: string): nat
    requires |t| >= 11
  {
    match t[0]
    case 's' => if t[7] == 'r' then 0 else 1
    case 'n' => if t[5] == 'r' then 2 else 3
    case 'h' => 4
    case 'r' => 5
    case 'd' => 6
    case _ => if t[1] == 'a' then 7 else if t[7] == 'r' then 8 else if t[8] == 'l' then 9 else 10
  }

  function KeyFamily(k: Key): nat {
    match k
    case SubnetKey(_) => 0
    case SubnetListKey => 1
    case NodeKey(_) => 2
    case OperatorKey(_) => 3
    case HostosKey(_) => 4
    case VersionKey(_) => 5
    case DataCenterKey(_) => 6
    case CatchUpKey(_) => 7
    case CryptoKey(_, _) => 8
    case TlsKey(_) => 9
    case ThresholdKey(_) => 10
  }

  lemma TextFamily(k: Key)
    ensures |Text(k)| >= 11 && Family(Text(k)) == KeyFamily(k)
  {
  }

  lemma SameSuffix(p: string, a: string, b: string)
    requires p + a == p + b
    ensures a == b
  {
    assert (p + a)[|p|..] == a;
    assert (p + b)[|p|..] == b;
  }

  /** The Go maps are keyed by text: two keys have one text only when they are one key. */
  lemma TextInjective(k: Key, l: Key)
    requires Text(k) == Text(l)
    ensures k == l
  {
    TextFamily(k);
    TextFamily(l);
    match k
    case SubnetKey(s) => SameSuffix("subnet_record_", s, l.subnet);
    case ThresholdKey(s) => SameSuffix("crypto_threshold_signing_public_key_", s, l.subnet);
    case CatchUpKey(s) => SameSuffix("catch_up_package_contents_", s, l.subnet);
    case SubnetListKey =>
    case NodeKey(n) => SameSuffix("node_record_", n, l.node);
    case TlsKey(n) => SameSuffix("crypto_tls_cert_", n, l.node);
    case CryptoKey(n, p) =>
      var m, q := l.node, l.purpose;
      assert Text(k)[|Text(k)| - 1] == PurposeDigit(p);
      assert Text(l)[|Text(l)| - 1] == PurposeDigit(q);
      var a, b := "crypto_record_" + n, "crypto_record_" + m;
      assert a == Text(k)[..|Text(k)| - 2];
      assert b == Text(l)[..|Text(l)| - 2];
      SameSuffix("crypto_record_", n, m);
    case HostosKey(v) => SameSuffix("hostos_version_", v, l.version);
    case VersionKey(v) => SameSuffix("replica_version_", v, l.version);
    case OperatorKey(o) => SameSuffix("node_operator_record_", o, l.operator);
    case DataCenterKey(d) => SameSuffix("data_center_record_", d, l.dc);
  }
}
