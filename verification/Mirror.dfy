/**
 The registry mirror: a worklist walk that copies, out of a key/value store, the records a
 payload dereferences (nns/mirror.go).

 Closure says declaratively which keys the registry's invariants will look at. The walk is
 proved to copy exactly those keys, except where mirror.go departs from it (see NilNodeEscapes).
 */
module Mirror {
  import opened Wrappers
  import opened Sequences
  import opened Registry

  /** What one registry read answers: an error, key not present, or the stored bytes. */
  datatype Answer = ReadError | Absent | Present(value: Value)

  /** One pinned registry version: every read of a key gives the same answer. */
  type Source = Key -> Answer

  datatype Scope = Scope(subnets: seq<Id>, nodes: seq<Id>, operators: seq<Id>, versions: seq<string>)

  datatype MirrorResult = MirrorResult(mutations: seq<Mutation>, subnets: seq<Id>, versions: seq<string>)

  datatype Error = ReadFailed(key: Key) | NotInRegistry(key: Key) | Undecodable(key: Key)

  const NODE_KEY_PURPOSES: seq<Purpose> :=
    [NodeSigning, DkgDealingEncryption, CommitteeSigning, IDkgMEGaEncryption]

  // What the records reached by the walk name.

  function SubnetAt(src: Source, s: Id): Option<SubnetRecord> {
    match src(SubnetKey(s)) case Present(v) => DecodeSubnet(v) case _ => None
  }

  function MembersOf(src: Source, s: Id): seq<Id> {
    match SubnetAt(src, s) case Some(r) => r.members case None => []
  }

  function VersionOf(src: Source, s: Id): string {
    match SubnetAt(src, s) case Some(r) => r.version case None => ""
  }

  function NodeAt(src: Source, n: Id): Option<NodeRecord> {
    match src(NodeKey(n)) case Present(v) => DecodeNode(v) case _ => None
  }

  function HostosOf(src: Source, n: Id): string {
    match NodeAt(src, n) case Some(r) => r.hostos case None => ""
  }

  function OwnerOf(src: Source, n: Id): Id {
    match NodeAt(src, n) case Some(r) => r.operator case None => ""
  }

  function DcOf(src: Source, o: Id): string {
    match src(OperatorKey(o))
    case Present(v) => (match DecodeOperator(v) case Some(r) => r.dc case None => "")
    case _ => ""
  }

  // The closure of a scope.

  ghost predicate NodeReached(src: Source, scope: Scope, n: Id) {
    n in scope.nodes || exists s :: s in scope.subnets && n in MembersOf(src, s)
  }

  ghost predicate OperatorReached(src: Source, scope: Scope, o: Id) {
    o in scope.operators || (o != "" && exists n :: NodeReached(src, scope, n) && OwnerOf(src, n) == o)
  }

  ghost predicate VersionReached(src: Source, scope: Scope, v: string) {
    v in scope.versions || (v != "" && exists s :: s in scope.subnets && VersionOf(src, s) == v)
  }

  ghost predicate Closure(src: Source, scope: Scope, k: Key) {
    match k
    case SubnetKey(s) => s in scope.subnets
    case ThresholdKey(s) => s in scope.subnets
    case CatchUpKey(s) => s in scope.subnets
    case NodeKey(n) => NodeReached(src, scope, n)
    case TlsKey(n) => NodeReached(src, scope, n)
    case CryptoKey(n, _) => NodeReached(src, scope, n)
    case HostosKey(v) => v != "" && exists n :: NodeReached(src, scope, n) && HostosOf(src, n) == v
    case OperatorKey(o) => OperatorReached(src, scope, o)
    case DataCenterKey(d) => d != "" && exists o :: OperatorReached(src, scope, o) && DcOf(src, o) == d
    case VersionKey(v) => VersionReached(src, scope, v)
    case SubnetListKey => false
  }

  /** The registry has the key, and its record decodes where the walk has to read it. */
  predicate Served(src: Source, k: Key) {
    match src(k)
    case Present(v) =>
      (match k
       case SubnetKey(_) => DecodeSubnet(v).Some?
       case NodeKey(_) => DecodeNode(v).Some?
       case OperatorKey(_) => DecodeOperator(v).Some?
       case _ => true)
    case _ => false
  }

  /** The error is about a key that is not served, and says in which way. */
  predicate Blames(src: Source, e: Error) {
    match e
    case ReadFailed(k) => src(k) == ReadError
    case NotInRegistry(k) => src(k) == Absent
    case Undecodable(k) => src(k).Present? && !Served(src, k)
  }

  /** A key the registry has whose reply carries no value: its nil reads as "already mirrored" in copyNode. */
  predicate NilNode(src: Source, n: Id) {
    src(NodeKey(n)) == Present(NilBytes)
  }

  /** The keys the walk visits: the closure, less the key material of nil node records. */
  ghost predicate Walked(src: Source, scope: Scope, k: Key) {
    Closure(src, scope, k) && ((k.TlsKey? || k.CryptoKey?) ==> !NilNode(src, k.node))
  }

  // One visit's worth of keys.

  function SubnetKeys(s: Id): set<Key> {
    {SubnetKey(s), ThresholdKey(s), CatchUpKey(s)}
  }

  predicate NodeVisit(src: Source, n: Id, k: Key) {
    || k == NodeKey(n)
    || (!NilNode(src, n) && NodeMaterial(n, k))
    || (HostosOf(src, n) != "" && k == HostosKey(HostosOf(src, n)))
  }

  function OperatorKeys(src: Source, o: Id): set<Key> {
    {OperatorKey(o)} + (if DcOf(src, o) != "" then {DataCenterKey(DcOf(src, o))} else {})
  }

  /** The keys visited once these prefixes of the worklists are done. */
  ghost predicate Covers(src: Source, subnets: seq<Id>, nodes: seq<Id>, operators: seq<Id>, versions: seq<string>, k: Key) {
    match k
    case SubnetKey(s) => s in subnets
    case ThresholdKey(s) => s in subnets
    case CatchUpKey(s) => s in subnets
    case NodeKey(n) => n in nodes
    case TlsKey(n) => n in nodes && !NilNode(src, n)
    case CryptoKey(n, _) => n in nodes && !NilNode(src, n)
    case HostosKey(v) => v != "" && exists n :: n in nodes && HostosOf(src, n) == v
    case OperatorKey(o) => o in operators
    case DataCenterKey(d) => d != "" && exists o :: o in operators && DcOf(src, o) == d
    case VersionKey(v) => v in versions
    case SubnetListKey => false
  }

  lemma CoversSubnet(src: Source, subnets: seq<Id>, s: Id, k: Key)
    ensures Covers(src, subnets + [s], [], [], [], k) <==> Covers(src, subnets, [], [], [], k) || k in SubnetKeys(s)
  {
  }

  lemma CoversOperator(src: Source, subnets: seq<Id>, nodes: seq<Id>, operators: seq<Id>, o: Id, k: Key)
    ensures Covers(src, subnets, nodes, operators + [o], [], k)
       <==> Covers(src, subnets, nodes, operators, [], k) || k in OperatorKeys(src, o)
  {
  }

  /** Accumulates mutations, deduplicating by key. */
  class MirrorBuilder {
    const src: Source
    var seen: set<Key>
    var mutations: seq<Mutation>
    var subnets: seq<Id>
    var versions: seq<string>
    /** Every key read so far, in order. */
    ghost var asked: seq<Key>

    constructor (src: Source)
      ensures Valid() && ReadOnce()
      ensures this.src == src && seen == {} && subnets == [] && versions == []
    {
      this.src := src;
      seen, mutations, subnets, versions, asked := {}, [], [], [], [];
    }

    /** One mutation per seen key, with the bytes the registry gave for it. */
    ghost predicate Valid()
      reads this
    {
      && DistinctKeys(mutations)
      && (forall k :: k in seen <==> k in KeySet(mutations))
      && (forall m :: m in mutations ==> src(m.key) == Present(m.value))
      && (forall k :: k in seen ==> src(k).Present?)
    }

    ghost predicate ReadOnce()
      reads this
    {
      Distinct(asked) && forall k :: k in asked ==> k in seen
    }

    method CopyKey(key: Key, required: bool) returns (r: Result<Value, Error>)
      requires Valid()
      modifies this`seen, this`mutations, this`asked
      ensures Valid()
      ensures key in old(seen) ==> r == Ok(NilBytes) && unchanged(this)
      ensures key !in old(seen) && src(key).Present? ==>
        r == Ok(src(key).value) && seen == old(seen) + {key}
        && mutations == old(mutations) + [Mutation(key, src(key).value)]
      ensures key !in old(seen) && !src(key).Present? ==>
        (r.Ok? <==> src(key).Absent? && !required) && (r.Ok? ==> r.value == NilBytes) && (r.Err? ==> r.error.key == key && Blames(src, r.error))
        && seen == old(seen) && mutations == old(mutations)
      ensures old(ReadOnce()) && required && r.Ok? ==> ReadOnce()
      ensures old(ReadOnce()) ==> Distinct(asked)
    {
      hide KeySet, DistinctKeys;
      if key in seen {
        return Ok(NilBytes);
      }
      asked := asked + [key];
      match src(key)
      case ReadError => return Err(ReadFailed(key));
      case Absent =>
        if required {
          return Err(NotInRegistry(key));
        }
        return Ok(NilBytes);
      case Present(v) =>
        seen := seen + {key};
        mutations := mutations + [Mutation(key, v)];
        KeysAppend(old(mutations), Mutation(key, v));
        return Ok(v);
    }

    /** The TLS certificate and the four keys the node invariants require. */
    method CopyNodeMaterial(n: Id) returns (r: Result<(), Error>)
      requires Valid() && ReadOnce()
      modifies this`seen, this`mutations, this`asked
      ensures Valid() && Distinct(asked)
      ensures r.Err? ==> NodeMaterial(n, r.error.key) && Blames(src, r.error)
      ensures r.Ok? ==> ReadOnce() && forall k :: k in seen <==> k in old(seen) || NodeMaterial(n, k)
    {
      hide KeySet, DistinctKeys;
      AllPurposes();
      var _ :- CopyKey(TlsKey(n), true);
      for i := 0 to |NODE_KEY_PURPOSES|
        invariant Valid() && ReadOnce()
        invariant forall k :: k in seen <==>
          k in old(seen) || k == TlsKey(n) || (k.CryptoKey? && k.node == n && k.purpose in NODE_KEY_PURPOSES[..i])
      {
        var p := NODE_KEY_PURPOSES[i];
        assert NODE_KEY_PURPOSES[..i + 1] == NODE_KEY_PURPOSES[..i] + [p];
        var _ :- CopyKey(CryptoKey(n, p), true);
      }
      assert NODE_KEY_PURPOSES[..|NODE_KEY_PURPOSES|] == NODE_KEY_PURPOSES;
      return Ok(());
    }

    /** One node's records; the result is its operator, when the record names one and was not seen before. */
    method CopyNode(n: Id) returns (r: Result<Option<Id>, Error>)
      requires Valid() && ReadOnce()
      modifies this`seen, this`mutations, this`asked
      ensures Valid() && Distinct(asked)
      ensures r.Err? ==> NodeVisit(src, n, r.error.key) && Blames(src, r.error)
      ensures r.Ok? && NodeKey(n) in old(seen) ==> r.value == None && unchanged(this)
      ensures r.Ok? && NodeKey(n) !in old(seen) ==>
        && (forall k :: k in seen <==> k in old(seen) || NodeVisit(src, n, k))
        && Served(src, NodeKey(n))
        && r.value == (if OwnerOf(src, n) == "" then None else Some(OwnerOf(src, n)))
      ensures r.Ok? ==> ReadOnce()
    {
      hide KeySet, DistinctKeys;
      var blob :- CopyKey(NodeKey(n), true);
      if blob == NilBytes {
        return Ok(None);
      }
      var _ :- CopyNodeMaterial(n);
      match DecodeNode(blob)
      case None => return Err(Undecodable(NodeKey(n)));
      case Some(rec) =>
        if rec.hostos != "" {
          var _ :- CopyKey(HostosKey(rec.hostos), true);
        }
        return Ok(if rec.operator == "" then None else Some(rec.operator));
    }

    /** The operator's own record, and that of its data center when it has one. */
    method CopyOperator(o: Id) returns (r: Result<(), Error>)
      requires Valid() && ReadOnce()
      modifies this`seen, this`mutations, this`asked
      ensures Valid() && Distinct(asked)
      ensures r.Err? ==> r.error.key in OperatorKeys(src, o) && Blames(src, r.error)
      ensures r.Ok? && OperatorKey(o) in old(seen) ==> unchanged(this)
      ensures r.Ok? && OperatorKey(o) !in old(seen) ==>
        seen == old(seen) + OperatorKeys(src, o) && Served(src, OperatorKey(o))
      ensures r.Ok? ==> ReadOnce()
    {
      hide KeySet, DistinctKeys;
      assert OperatorKey(o) in OperatorKeys(src, o);
      var blob :- CopyKey(OperatorKey(o), true);
      if blob == NilBytes {
        return Ok(());
      }
      match DecodeOperator(blob)
      case None => return Err(Undecodable(OperatorKey(o)));
      case Some(rec) =>
        if rec.dc != "" {
          var _ :- CopyKey(DataCenterKey(rec.dc), true);
        }
        return Ok(());
    }

    /** One subnet the scope names, walked once however often it is named. */
    method CopySubnet(s: Id) returns (r: Result<SubnetRecord, Error>)
      requires Valid() && ReadOnce()
      requires SubnetKey(s) !in seen && ThresholdKey(s) !in seen && CatchUpKey(s) !in seen
      modifies this`seen, this`mutations, this`asked
      ensures Valid() && Distinct(asked)
      ensures r.Err? ==> r.error.key in SubnetKeys(s) && Blames(src, r.error)
      ensures r.Ok? ==>
        && ReadOnce() && seen == old(seen) + SubnetKeys(s) && SubnetAt(src, s) == Some(r.value)
        && forall k :: k in SubnetKeys(s) ==> Served(src, k)
    {
      hide KeySet, DistinctKeys;
      assert SubnetKey(s) in SubnetKeys(s);
      var blob :- CopyKey(SubnetKey(s), true);
      var _ :- CopyKey(ThresholdKey(s), true);
      var _ :- CopyKey(CatchUpKey(s), true);
      match DecodeSubnet(blob)
      case None => return Err(Undecodable(SubnetKey(s)));
      case Some(rec) => return Ok(rec);
    }

    // The four loops of buildMirror, in order. Each grows the worklists the next ones drain.

    method WalkSubnets(scope: Scope) returns (r: Result<(seq<Id>, seq<string>), Error>)
      requires Valid() && ReadOnce() && seen == {} && subnets == []
      modifies this`seen, this`mutations, this`asked, this`subnets
      ensures Distinct(asked)
      ensures r.Err? ==> Walked(src, scope, r.error.key) && Blames(src, r.error)
      ensures r.Ok? ==>
        && Valid() && ReadOnce()
        && (forall k :: k in seen <==> Covers(src, scope.subnets, [], [], [], k))
        && (forall k :: k in seen ==> Served(src, k))
        && (forall n :: n in r.value.0 <==> NodeReached(src, scope, n))
        && (forall v :: v in r.value.1 <==> VersionReached(src, scope, v))
        && Distinct(subnets) && (forall s :: s in subnets <==> s in scope.subnets)
    {
      hide KeySet, DistinctKeys, Distinct, SubnetsDone, SubnetKeys, Served, Walked;
      var nodes, queue := scope.nodes, scope.versions;
      DistinctEmpty<Id>();
      NoSubnetsDone(src, scope);
      assert scope.subnets[..0] == [];
      for i := 0 to |scope.subnets|
        invariant Valid() && ReadOnce()
        invariant SubnetsDone(src, scope, scope.subnets[..i], seen, nodes, queue)
        invariant Distinct(subnets) && forall s :: s in subnets <==> s in scope.subnets[..i]
      {
        var s := scope.subnets[i];
        ghost var done := scope.subnets[..i];
        assert scope.subnets[..i + 1] == done + [s];
        SubnetSeen(src, scope, done, seen, nodes, queue, s);
        if SubnetKey(s) in seen {
          continue;
        }
        SubnetKeysWalked(src, scope, s);
        ghost var before := seen;
        var rec :- CopySubnet(s);
        SubnetAdded(src, scope, done, before, nodes, queue, s, rec);
        nodes := nodes + rec.members;
        if rec.version != "" {
          queue := queue + [rec.version];
        }
        DistinctAppend(subnets, s);
        subnets := subnets + [s];
      }
      assert scope.subnets[..|scope.subnets|] == scope.subnets;
      AllSubnetsDone(src, scope, seen, nodes, queue);
      return Ok((nodes, queue));
    }

    method WalkNodes(scope: Scope, nodes: seq<Id>) returns (r: Result<seq<Id>, Error>)
      requires Valid() && ReadOnce()
      requires forall k :: k in seen <==> Covers(src, scope.subnets, [], [], [], k)
      requires forall k :: k in seen ==> Served(src, k)
      requires forall n :: n in nodes <==> NodeReached(src, scope, n)
      modifies this`seen, this`mutations, this`asked
      ensures Distinct(asked)
      ensures r.Err? ==> Walked(src, scope, r.error.key) && Blames(src, r.error)
      ensures r.Ok? ==>
        && Valid() && ReadOnce()
        && (forall k :: k in seen <==> Covers(src, scope.subnets, nodes, [], [], k))
        && (forall k :: k in seen ==> Served(src, k))
        && (forall o :: o in r.value <==> OperatorReached(src, scope, o))
    {
      hide KeySet, DistinctKeys;
      var operators := scope.operators;
      for i := 0 to |nodes|
        invariant Valid() && ReadOnce()
        invariant forall k :: k in seen <==> Covers(src, scope.subnets, nodes[..i], [], [], k)
        invariant forall k :: k in seen ==> Served(src, k)
        invariant forall o :: o in operators <==> OperatorQueued(src, scope, nodes[..i], o)
      {
        var n := nodes[i];
        ghost var done := nodes[..i];
        assert nodes[..i + 1] == done + [n];
        ghost var before := seen;
        NodeKeysWalked(src, scope, n);
        var owner :- CopyNode(n);
        CoversAfterNode(src, scope.subnets, done, n, before, seen);
        forall o { OperatorQueuedStep(src, scope, done, n, o); }
        if owner.Some? {
          operators := operators + [owner.value];
        }
      }
      assert nodes[..|nodes|] == nodes;
      return Ok(operators);
    }

    method WalkOperators(scope: Scope, nodes: seq<Id>, operators: seq<Id>) returns (r: Result<(), Error>)
      requires Valid() && ReadOnce()
      requires forall k :: k in seen <==> Covers(src, scope.subnets, nodes, [], [], k)
      requires forall k :: k in seen ==> Served(src, k)
      requires forall o :: o in operators <==> OperatorReached(src, scope, o)
      modifies this`seen, this`mutations, this`asked
      ensures Distinct(asked)
      ensures r.Err? ==> Walked(src, scope, r.error.key) && Blames(src, r.error)
      ensures r.Ok? ==>
        && Valid() && ReadOnce()
        && (forall k :: k in seen <==> Covers(src, scope.subnets, nodes, operators, [], k))
        && (forall k :: k in seen ==> Served(src, k))
    {
      hide KeySet, DistinctKeys;
      for i := 0 to |operators|
        invariant Valid() && ReadOnce()
        invariant forall k :: k in seen <==> Covers(src, scope.subnets, nodes, operators[..i], [], k)
        invariant forall k :: k in seen ==> Served(src, k)
      {
        var o := operators[i];
        ghost var done := operators[..i];
        assert operators[..i + 1] == done + [o];
        forall k { CoversOperator(src, scope.subnets, nodes, done, o, k); }
        OperatorKeysWalked(src, scope, o);
        var _ :- CopyOperator(o);
      }
      assert operators[..|operators|] == operators;
      return Ok(());
    }

    method WalkVersions(scope: Scope, nodes: seq<Id>, operators: seq<Id>, queue: seq<string>) returns (r: Result<(), Error>)
      requires Valid() && ReadOnce() && versions == []
      requires forall k :: k in seen <==> Covers(src, scope.subnets, nodes, operators, [], k)
      requires forall k :: k in seen ==> Served(src, k)
      requires forall v :: v in queue <==> VersionReached(src, scope, v)
      modifies this`seen, this`mutations, this`asked, this`versions
      ensures Distinct(asked)
      ensures r.Err? ==> Walked(src, scope, r.error.key) && Blames(src, r.error)
      ensures r.Ok? ==>
        && Valid() && ReadOnce()
        && (forall k :: k in seen <==> Covers(src, scope.subnets, nodes, operators, queue, k))
        && (forall k :: k in seen ==> Served(src, k))
        && Distinct(versions) && (forall v :: v in versions <==> v in queue)
    {
      hide KeySet, DistinctKeys;
      for i := 0 to |queue|
        invariant Valid() && ReadOnce()
        invariant forall k :: k in seen <==> Covers(src, scope.subnets, nodes, operators, queue[..i], k)
        invariant forall k :: k in seen ==> Served(src, k)
        invariant Distinct(versions) && forall v :: v in versions <==> v in queue[..i]
      {
        var v := queue[i];
        assert queue[..i + 1] == queue[..i] + [v];
        if VersionKey(v) in seen {
          continue;
        }
        assert Walked(src, scope, VersionKey(v));
        var _ :- CopyKey(VersionKey(v), true);
        versions := versions + [v];
      }
      assert queue[..|queue|] == queue;
      return Ok(());
    }
  }

  lemma AllPurposes()
    ensures forall p: Purpose :: p in NODE_KEY_PURPOSES
  {
    forall p: Purpose ensures p in NODE_KEY_PURPOSES {
      match p
      case NodeSigning => assert NODE_KEY_PURPOSES[0] == p;
      case DkgDealingEncryption => assert NODE_KEY_PURPOSES[1] == p;
      case CommitteeSigning => assert NODE_KEY_PURPOSES[2] == p;
      case IDkgMEGaEncryption => assert NODE_KEY_PURPOSES[3] == p;
    }
  }

  /** One node visit, seen from the walk: either its keys are added, or they were there already. */
  lemma CoversAfterNode(src: Source, subnets: seq<Id>, nodes: seq<Id>, n: Id, before: set<Key>, after: set<Key>)
    requires forall k :: k in before <==> Covers(src, subnets, nodes, [], [], k)
    requires forall k :: k in after <==> k in before || (NodeKey(n) !in before && NodeVisit(src, n, k))
    ensures forall k :: k in after <==> Covers(src, subnets, nodes + [n], [], [], k)
  {
  }

  // What a finished mirror offers the batch it is merged into.

  ghost predicate WellFormed(m: MirrorResult) {
    && DistinctKeys(m.mutations)
    && Distinct(m.subnets) && Distinct(m.versions)
    && SubnetListKey !in KeySet(m.mutations)
    && RefsResolve(m.mutations)
    && (forall s :: s in m.subnets <==> SubnetKey(s) in KeySet(m.mutations))
    && (forall s :: s in m.subnets <==> ThresholdKey(s) in KeySet(m.mutations))
    && (forall s :: s in m.subnets <==> CatchUpKey(s) in KeySet(m.mutations))
    && (forall v :: v in m.versions <==> VersionKey(v) in KeySet(m.mutations))
  }

  /** The nodes the walk will visit once these subnets are read. */
  ghost predicate NodeQueued(src: Source, scope: Scope, done: seq<Id>, n: Id) {
    n in scope.nodes || exists s :: s in done && n in MembersOf(src, s)
  }

  ghost predicate VersionQueued(src: Source, scope: Scope, done: seq<Id>, v: string) {
    v in scope.versions || (v != "" && exists s :: s in done && VersionOf(src, s) == v)
  }

  ghost predicate OperatorQueued(src: Source, scope: Scope, done: seq<Id>, o: Id) {
    o in scope.operators || (o != "" && exists n :: n in done && OwnerOf(src, n) == o)
  }

  /** The walk of these subnets: their keys are seen, all are served, and what they name is queued. */
  ghost predicate SubnetsDone(src: Source, scope: Scope, done: seq<Id>, seen: set<Key>, nodes: seq<Id>, queue: seq<string>) {
    && (forall k :: k in seen <==> Covers(src, done, [], [], [], k))
    && (forall k :: k in seen ==> Served(src, k))
    && (forall n :: n in nodes <==> NodeQueued(src, scope, done, n))
    && (forall v :: v in queue <==> VersionQueued(src, scope, done, v))
  }

  lemma NoSubnetsDone(src: Source, scope: Scope)
    ensures SubnetsDone(src, scope, [], {}, scope.nodes, scope.versions)
  {
  }

  lemma AllSubnetsDone(src: Source, scope: Scope, seen: set<Key>, nodes: seq<Id>, queue: seq<string>)
    requires SubnetsDone(src, scope, scope.subnets, seen, nodes, queue)
    ensures forall k :: k in seen <==> Covers(src, scope.subnets, [], [], [], k)
    ensures forall k :: k in seen ==> Served(src, k)
    ensures forall n :: n in nodes <==> NodeReached(src, scope, n)
    ensures forall v :: v in queue <==> VersionReached(src, scope, v)
  {
  }

  /** A subnet named again adds nothing; one not named before has none of its keys seen. */
  lemma SubnetSeen(src: Source, scope: Scope, done: seq<Id>, seen: set<Key>, nodes: seq<Id>, queue: seq<string>, s: Id)
    requires SubnetsDone(src, scope, done, seen, nodes, queue)
    ensures SubnetKey(s) in seen ==> s in done && SubnetsDone(src, scope, done + [s], seen, nodes, queue)
    ensures SubnetKey(s) !in seen ==> s !in done && ThresholdKey(s) !in seen && CatchUpKey(s) !in seen
  {
    assert SubnetKey(s) in seen <==> Covers(src, done, [], [], [], SubnetKey(s));
    if s in done {
      assert forall t :: t in done + [s] <==> t in done;
    }
  }

  lemma SubnetAdded(src: Source, scope: Scope, done: seq<Id>, seen: set<Key>, nodes: seq<Id>, queue: seq<string>,
                    s: Id, rec: SubnetRecord)
    requires SubnetsDone(src, scope, done, seen, nodes, queue)
    requires SubnetAt(src, s) == Some(rec) && forall k :: k in SubnetKeys(s) ==> Served(src, k)
    ensures SubnetsDone(src, scope, done + [s], seen + SubnetKeys(s), nodes + rec.members,
                        if rec.version != "" then queue + [rec.version] else queue)
  {
    forall k { CoversSubnet(src, done, s, k); }
    assert forall t :: t in done + [s] <==> t in done || t == s;
  }

  lemma SubnetKeysWalked(src: Source, scope: Scope, s: Id)
    requires s in scope.subnets
    ensures forall k :: k in SubnetKeys(s) ==> Walked(src, scope, k)
  {
  }

  lemma OperatorQueuedStep(src: Source, scope: Scope, done: seq<Id>, n: Id, o: Id)
    ensures OperatorQueued(src, scope, done + [n], o)
       <==> OperatorQueued(src, scope, done, o) || (o != "" && OwnerOf(src, n) == o)
  {
  }

  /** With the worklists complete, the keys covered are the keys the walk owes. */
  lemma CoversWalked(src: Source, scope: Scope, nodes: seq<Id>, operators: seq<Id>, versions: seq<string>, k: Key)
    requires forall n :: n in nodes <==> NodeReached(src, scope, n)
    requires forall o :: o in operators <==> OperatorReached(src, scope, o)
    requires forall v :: v in versions <==> VersionReached(src, scope, v)
    ensures Covers(src, scope.subnets, nodes, operators, versions, k) <==> Walked(src, scope, k)
  {
  }

  /** The whole walk, from the scope's roots; it stops at the first key that is not served. */
  method BuildMirror(src: Source, scope: Scope) returns (r: Result<MirrorResult, Error>, ghost asked: seq<Key>)
    ensures r.Ok? <==> forall k :: Walked(src, scope, k) ==> Served(src, k)
    ensures r.Err? ==> Walked(src, scope, r.error.key) && Blames(src, r.error)
    ensures r.Ok? ==>
      && WellFormed(r.value)
      && (forall k :: k in KeySet(r.value.mutations) <==> Walked(src, scope, k))
      && (forall m :: m in r.value.mutations ==> src(m.key) == Present(m.value))
      && (forall s :: s in r.value.subnets <==> s in scope.subnets)
    ensures Distinct(asked)
    ensures r.Ok? ==> forall k :: k in asked ==> Walked(src, scope, k)
  {
    hide KeySet, DistinctKeys;
    var b := new MirrorBuilder(src);
    var queued := b.WalkSubnets(scope);
    if queued.Err? {
      return Err(queued.error), b.asked;
    }
    var (nodes, versions) := queued.value;
    var owners := b.WalkNodes(scope, nodes);
    if owners.Err? {
      return Err(owners.error), b.asked;
    }
    var operators := owners.value;
    var done := b.WalkOperators(scope, nodes, operators);
    if done.Err? {
      return Err(done.error), b.asked;
    }
    done := b.WalkVersions(scope, nodes, operators, versions);
    if done.Err? {
      return Err(done.error), b.asked;
    }
    forall k { CoversWalked(src, scope, nodes, operators, versions, k); }
    MirrorRefsResolve(src, scope, b.mutations);
    return Ok(MirrorResult(b.mutations, b.subnets, b.versions)), b.asked;
  }

  lemma NodeKeysWalked(src: Source, scope: Scope, n: Id)
    requires NodeReached(src, scope, n)
    ensures forall k :: NodeVisit(src, n, k) ==> Walked(src, scope, k)
  {
  }

  lemma OperatorKeysWalked(src: Source, scope: Scope, o: Id)
    requires OperatorReached(src, scope, o)
    ensures forall k :: k in OperatorKeys(src, o) ==> Walked(src, scope, k)
  {
  }

  /** What is mirrored is self-contained: no copied record names one left behind. */
  lemma MirrorRefsResolve(src: Source, scope: Scope, muts: seq<Mutation>)
    requires forall k :: k in KeySet(muts) <==> Walked(src, scope, k)
    requires forall m :: m in muts ==> src(m.key) == Present(m.value)
    ensures RefsResolve(muts)
  {
    hide KeySet, DistinctKeys;
    forall m, target | m in muts && RefersTo(m.key, m.value, target) ensures target in KeySet(muts) {
      KeyIn(muts, m);
      assert Walked(src, scope, m.key);
      match m.key
      case SubnetKey(s) =>
      case NodeKey(n) => assert NodeReached(src, scope, n);
      case OperatorKey(o) => assert OperatorReached(src, scope, o);
      case _ =>
    }
  }

  // The closure against its independent definition, and where the walk departs from it.

  predicate Root(scope: Scope, k: Key) {
    match k
    case SubnetKey(s) => s in scope.subnets
    case NodeKey(n) => n in scope.nodes
    case OperatorKey(o) => o in scope.operators
    case VersionKey(v) => v in scope.versions
    case _ => false
  }

  /** What the registry's invariants look up once they see the record under k. */
  predicate Needs(src: Source, k: Key, target: Key) {
    match k
    case SubnetKey(s) =>
      || target == ThresholdKey(s) || target == CatchUpKey(s)
      || (target.NodeKey? && target.node in MembersOf(src, s))
      || (VersionOf(src, s) != "" && target == VersionKey(VersionOf(src, s)))
    case NodeKey(n) =>
      || NodeMaterial(n, target)
      || (HostosOf(src, n) != "" && target == HostosKey(HostosOf(src, n)))
      || (OwnerOf(src, n) != "" && target == OperatorKey(OwnerOf(src, n)))
    case OperatorKey(o) => DcOf(src, o) != "" && target == DataCenterKey(DcOf(src, o))
    case _ => false
  }

  ghost predicate Closed(src: Source, scope: Scope, keys: iset<Key>) {
    && (forall k :: Root(scope, k) ==> k in keys)
    && (forall k, target :: k in keys && Needs(src, k, target) ==> target in keys)
  }

  /** Served, in the raw: the key is there, and a subnet, node or operator key has its own kind of record or no bytes. */
  lemma ServedMeans(src: Source, k: Key)
    ensures Served(src, k) <==>
      && src(k).Present?
      && (k.SubnetKey? ==> src(k).value.SubnetValue? || src(k).value == NilBytes)
      && (k.NodeKey? ==> src(k).value.NodeValue? || src(k).value == NilBytes)
      && (k.OperatorKey? ==> src(k).value.OperatorValue? || src(k).value == NilBytes)
  {
  }

  /** What the records name, in the raw: what their fields say, and nothing from no bytes. */
  lemma NamedMeans(src: Source, id: Id)
    ensures src(SubnetKey(id)).Present? && src(SubnetKey(id)).value.SubnetValue? ==>
      var r := src(SubnetKey(id)).value.subnet; MembersOf(src, id) == r.members && VersionOf(src, id) == r.version
    ensures src(NodeKey(id)).Present? && src(NodeKey(id)).value.NodeValue? ==>
      var r := src(NodeKey(id)).value.node; HostosOf(src, id) == r.hostos && OwnerOf(src, id) == r.operator
    ensures src(OperatorKey(id)).Present? && src(OperatorKey(id)).value.OperatorValue? ==>
      DcOf(src, id) == src(OperatorKey(id)).value.operator.dc
    ensures src(SubnetKey(id)) == Present(NilBytes) ==> MembersOf(src, id) == [] && VersionOf(src, id) == ""
    ensures src(NodeKey(id)) == Present(NilBytes) ==> HostosOf(src, id) == "" && OwnerOf(src, id) == ""
    ensures src(OperatorKey(id)) == Present(NilBytes) ==> DcOf(src, id) == ""
  {
  }

  /** Closure is the least record set the invariants accept: it is inside every closed set... */
  lemma ClosureInsideClosed(src: Source, scope: Scope, keys: iset<Key>, k: Key)
    requires Closed(src, scope, keys)
    requires Closure(src, scope, k)
    ensures k in keys
  {
    match k
    case SubnetListKey =>
    case SubnetKey(s) => assert Root(scope, k);
    case ThresholdKey(s) => assert Root(scope, SubnetKey(s)) && Needs(src, SubnetKey(s), k);
    case CatchUpKey(s) => assert Root(scope, SubnetKey(s)) && Needs(src, SubnetKey(s), k);
    case NodeKey(n) => NodeInsideClosed(src, scope, keys, n);
    case TlsKey(n) => NodeInsideClosed(src, scope, keys, n);
      assert Needs(src, NodeKey(n), k);
    case CryptoKey(n, _) => NodeInsideClosed(src, scope, keys, n);
      assert Needs(src, NodeKey(n), k);
    case HostosKey(v) =>
      var n :| NodeReached(src, scope, n) && HostosOf(src, n) == v;
      NodeInsideClosed(src, scope, keys, n);
      assert Needs(src, NodeKey(n), k);
    case OperatorKey(o) => OperatorInsideClosed(src, scope, keys, o);
    case DataCenterKey(d) =>
      var o :| OperatorReached(src, scope, o) && DcOf(src, o) == d;
      OperatorInsideClosed(src, scope, keys, o);
      assert Needs(src, OperatorKey(o), k);
    case VersionKey(v) =>
      if v in scope.versions {
        assert Root(scope, k);
      } else {
        var s :| s in scope.subnets && VersionOf(src, s) == v;
        assert Root(scope, SubnetKey(s)) && Needs(src, SubnetKey(s), k);
      }
  }

  lemma NodeInsideClosed(src: Source, scope: Scope, keys: iset<Key>, n: Id)
    requires Closed(src, scope, keys) && NodeReached(src, scope, n)
    ensures NodeKey(n) in keys
  {
    if n in scope.nodes {
      assert Root(scope, NodeKey(n));
    } else {
      var s :| s in scope.subnets && n in MembersOf(src, s);
      assert Root(scope, SubnetKey(s)) && Needs(src, SubnetKey(s), NodeKey(n));
    }
  }

  lemma OperatorInsideClosed(src: Source, scope: Scope, keys: iset<Key>, o: Id)
    requires Closed(src, scope, keys) && OperatorReached(src, scope, o)
    ensures OperatorKey(o) in keys
  {
    if o in scope.operators {
      assert Root(scope, OperatorKey(o));
    } else {
      var n :| NodeReached(src, scope, n) && OwnerOf(src, n) == o;
      NodeInsideClosed(src, scope, keys, n);
      assert Needs(src, NodeKey(n), OperatorKey(o));
    }
  }

  /** ...and it is closed itself. */
  lemma ClosureIsClosed(src: Source, scope: Scope)
    ensures Closed(src, scope, iset k | Closure(src, scope, k))
  {
  }

  /** The mirror is the closure exactly when no reached node record is nil. */
  lemma NilNodeEscapes(src: Source, scope: Scope)
    ensures (forall k :: Walked(src, scope, k) <==> Closure(src, scope, k))
       <==> (forall n :: NodeReached(src, scope, n) ==> !NilNode(src, n))
  {
    forall n | NodeReached(src, scope, n)
      ensures Closure(src, scope, TlsKey(n)) && (Walked(src, scope, TlsKey(n)) <==> !NilNode(src, n))
    {
    }
  }

  /** Without nil node records, buildMirror succeeds iff the registry serves the whole closure. */
  lemma SucceedsIffClosureServed(src: Source, scope: Scope)
    requires forall n :: NodeReached(src, scope, n) ==> !NilNode(src, n)
    ensures (forall k :: Walked(src, scope, k) ==> Served(src, k))
       <==> (forall k :: Closure(src, scope, k) ==> Served(src, k))
  {
  }

  /** With one, it succeeds although the node's TLS certificate is missing from the registry. */
  lemma NilNodeExample()
    ensures exists src: Source, scope: Scope ::
      && (forall k :: Walked(src, scope, k) ==> Served(src, k))
      && Closure(src, scope, TlsKey("n")) && !Served(src, TlsKey("n"))
  {
    var src: Source := k => if k == NodeKey("n") then Present(NilBytes) else Absent;
    var scope := Scope([], ["n"], [], []);
    assert NodeReached(src, scope, "n");
    forall k | Walked(src, scope, k) ensures Served(src, k) {
      assert forall n :: NodeReached(src, scope, n) <==> n == "n";
    }
    assert Closure(src, scope, TlsKey("n")) && !Served(src, TlsKey("n"));
  }
}
