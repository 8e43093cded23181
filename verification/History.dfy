/**
 Current registry state read off a key's record history (nns/noderecord.go, nns/release.go). The
 registry is a log of versioned writes and deletions; the explorer serves one key's part of it, in
 no promised order.
 */
module History {
  import opened Wrappers
  import Sequences

  /** One versioned entry of a key: what was written, or None where the key was deleted. */
  datatype Record<V> = Record(version: nat, value: Option<V>)

  // The registry's own view: replay the log.

  datatype Write<V> = Write(key: string, entry: Record<V>)

  function Store<V>(log: seq<Write<V>>): map<string, V> {
    if log == [] then map[]
    else
      var before, w := Store(log[..|log| - 1]), log[|log| - 1];
      match w.entry.value
      case Some(v) => before[w.key := v]
      case None => before - {w.key}
  }

  /** One key's entries, in log order. */
  function HistoryOf<V>(log: seq<Write<V>>, key: string): seq<Record<V>> {
    if log == [] then []
    else
      var w := log[|log| - 1];
      HistoryOf(log[..|log| - 1], key) + if w.key == key then [w.entry] else []
  }

  function Lookup<V>(store: map<string, V>, key: string): Option<V> {
    if key in store then Some(store[key]) else None
  }

  ghost predicate Chronological<V>(log: seq<Write<V>>) {
    forall i, j :: 0 <= i < j < |log| ==> log[i].entry.version < log[j].entry.version
  }

  // The reduction's view: the entry of the highest version, the first listed of several.

  function Newest<V>(records: seq<Record<V>>): Option<Record<V>> {
    if records == [] then None
    else
      var best, r := Newest(records[..|records| - 1]), records[|records| - 1];
      if best == None || r.version > best.value.version then Some(r) else best
  }

  /** The value a history ends on. */
  function Current<V>(records: seq<Record<V>>): Option<V> {
    match Newest(records)
    case None => None
    case Some(r) => r.value
  }

  lemma {:induction false} NewestIsMaximum<V>(records: seq<Record<V>>)
    ensures Newest(records) == None <==> records == []
    ensures records != [] ==>
      && Newest(records).value in records
      && forall r :: r in records ==> r.version <= Newest(records).value.version
  {
    if records != [] {
      var front := records[..|records| - 1];
      assert records == front + [records[|records| - 1]];
      NewestIsMaximum(front);
    }
  }

  /** Of several entries of that version, the first listed. */
  lemma {:induction false} NewestIsFirst<V>(records: seq<Record<V>>) returns (i: nat)
    requires records != []
    ensures i < |records| && Newest(records) == Some(records[i])
    ensures forall j :: 0 <= j < i ==> records[j].version < records[i].version
  {
    var front, last := records[..|records| - 1], records[|records| - 1];
    assert records == front + [last];
    i := |front|;
    if front != [] {
      NewestIsMaximum(front);
      if last.version <= Newest(front).value.version {
        i := NewestIsFirst(front);
      }
    }
  }

  ghost predicate DistinctVersions<V>(records: seq<Record<V>>) {
    forall i, j :: 0 <= i < j < |records| ==> records[i].version != records[j].version
  }

  /** With distinct versions the reduction does not see the order. */
  lemma NewestPermutes<V(!new)>(records: seq<Record<V>>, others: seq<Record<V>>)
    requires multiset(records) == multiset(others) && DistinctVersions(records)
    ensures Newest(records) == Newest(others)
  {
    Sequences.PermutationSameElements(records, others);
    NewestIsMaximum(records);
    NewestIsMaximum(others);
    if records != [] {
      var a, b := Newest(records).value, Newest(others).value;
      assert a in others && b in records;
      var i :| 0 <= i < |records| && records[i] == a;
      var j :| 0 <= j < |records| && records[j] == b;
      assert i == j;
    }
  }

  /** The log's last version bounds every version in a key's history, and no two of those are equal. */
  lemma {:induction false} HistoryBelow<V>(log: seq<Write<V>>, key: string)
    requires Chronological(log)
    ensures DistinctVersions(HistoryOf(log, key))
    ensures forall r :: r in HistoryOf(log, key) ==> log != [] && r.version <= log[|log| - 1].entry.version
  {
    if log != [] {
      var front, w := log[..|log| - 1], log[|log| - 1];
      HistoryBelow(front, key);
      var h := HistoryOf(front, key);
      assert HistoryOf(log, key) == h + if w.key == key then [w.entry] else [];
      assert front != [] ==> front[|front| - 1] == log[|log| - 2];
      assert forall r :: r in h ==> r.version < w.entry.version;
    }
  }

  lemma NewerIsNewest<V>(records: seq<Record<V>>, r: Record<V>)
    requires forall q :: q in records ==> q.version < r.version
    ensures Newest(records + [r]) == Some(r)
  {
    NewestIsMaximum(records);
    assert (records + [r])[..|records|] == records;
  }

  /** In a chronological log a key's history ends on what the store holds for it. */
  lemma {:induction false} HistoryEndsOnStore<V>(log: seq<Write<V>>, key: string)
    requires Chronological(log)
    ensures Current(HistoryOf(log, key)) == Lookup(Store(log), key)
  {
    if log != [] {
      hide Newest;
      var front, w := log[..|log| - 1], log[|log| - 1];
      HistoryEndsOnStore(front, key);
      HistoryBelow(front, key);
      var h := HistoryOf(front, key);
      if w.key == key {
        assert front != [] ==> front[|front| - 1] == log[|log| - 2];
        NewerIsNewest(h, w.entry);
      } else {
        assert HistoryOf(log, key) == h;
      }
    }
  }

  /** The reduction recovers the registry's state: whatever order the explorer serves a key's history in. */
  lemma CurrentIsStore<V(!new)>(log: seq<Write<V>>, key: string, served: seq<Record<V>>)
    requires Chronological(log) && multiset(served) == multiset(HistoryOf(log, key))
    ensures Current(served) == Lookup(Store(log), key)
  {
    HistoryEndsOnStore(log, key);
    HistoryBelow(log, key);
    NewestPermutes(HistoryOf(log, key), served);
  }

  // Node records.

  datatype Endpoint = Endpoint(ip: string, port: nat)

  datatype NodeValue = NodeValue(operatorId: string, chipId: string, http: Option<Endpoint>)

  datatype NodeStatus = NodeStatus(registered: bool, operatorId: string, httpIp: string, httpPort: nat, chipId: string)

  const UNREGISTERED := NodeStatus(false, "", "", 0, "")

  /** What is reported of a node whose record holds value. */
  ghost predicate Describes(st: NodeStatus, value: Option<NodeValue>) {
    match value
    case None => st == UNREGISTERED
    case Some(v) =>
      && st.registered && st.operatorId == v.operatorId && st.chipId == v.chipId
      && (st.httpIp, st.httpPort) == match v.http case Some(h) => (h.ip, h.port) case None => ("", 0)
  }

  method NodeRegistration(records: seq<Record<NodeValue>>) returns (st: NodeStatus, ok: bool)
    ensures ok <==> Current(records).Some?
    ensures Describes(st, Current(records))
  {
    var latest: Option<Record<NodeValue>> := None;
    for i := 0 to |records|
      invariant latest == Newest(records[..i])
    {
      assert records[..i + 1][..i] == records[..i];
      if latest == None || records[i].version > latest.value.version {
        latest := Some(records[i]);
      }
    }
    assert records[..|records|] == records;
    if latest == None || latest.value.value == None {
      return UNREGISTERED, false;
    }
    var v := latest.value.value.value;
    st := UNREGISTERED.(registered := true, operatorId := v.operatorId, chipId := v.chipId);
    if v.http.Some? {
      st := st.(httpIp := v.http.value.ip, httpPort := v.http.value.port);
    }
    ok := true;
  }

  // Replica version records.

  /** A record's value: base64 of a protobuf, and what it decodes to when it does. */
  datatype VersionValue = VersionValue(measured: Option<bool>)

  datatype VersionRecord = VersionRecord(elected: bool, measured: bool, measuredKnown: bool)

  ghost predicate DescribesVersion(rec: VersionRecord, value: Option<VersionValue>) {
    && (rec.elected <==> value.Some?)
    && (rec.measuredKnown <==> value.Some? && value.value.measured.Some?)
    && if rec.measuredKnown then value.value.measured == Some(rec.measured) else !rec.measured
  }

  method ParseVersionRecord(records: seq<Record<VersionValue>>) returns (rec: VersionRecord)
    ensures DescribesVersion(rec, Current(records))
  {
    var latest: Option<Record<VersionValue>> := None;
    for i := 0 to |records|
      invariant latest == Newest(records[..i])
    {
      assert records[..i + 1][..i] == records[..i];
      if latest == None || records[i].version > latest.value.version {
        latest := Some(records[i]);
      }
    }
    assert records[..|records|] == records;
    rec := VersionRecord(false, false, false);
    if latest == None || latest.value.value == None {
      return;
    }
    rec := rec.(elected := true);
    var decoded := latest.value.value.value.measured;
    if decoded == None {
      return;
    }
    rec := rec.(measured := decoded.value, measuredKnown := true);
  }

  /** A version reads as elected iff the registry holds a record for it, and its measurement is that record's. */
  lemma ElectionIsRegistrys(log: seq<Write<VersionValue>>, key: string, served: seq<Record<VersionValue>>, rec: VersionRecord)
    requires Chronological(log) && multiset(served) == multiset(HistoryOf(log, key))
    requires DescribesVersion(rec, Current(served))
    ensures rec.elected <==> key in Store(log)
    ensures rec.measuredKnown ==> key in Store(log) && Store(log)[key].measured == Some(rec.measured)
  {
    hide Current, Store, HistoryOf, Chronological;
    CurrentIsStore(log, key, served);
  }

  /** A node reads as registered iff the registry holds its record, and its owner and chip are that record's. */
  lemma RegistrationIsRegistrys(log: seq<Write<NodeValue>>, key: string, served: seq<Record<NodeValue>>, st: NodeStatus)
    requires Chronological(log) && multiset(served) == multiset(HistoryOf(log, key))
    requires Describes(st, Current(served))
    ensures st.registered <==> key in Store(log)
    ensures st.registered ==> st.operatorId == Store(log)[key].operatorId && st.chipId == Store(log)[key].chipId
    ensures st.registered && Store(log)[key].http.Some? ==>
      st.httpIp == Store(log)[key].http.value.ip && st.httpPort == Store(log)[key].http.value.port
    ensures !st.registered || Store(log)[key].http == None ==> st.httpIp == "" && st.httpPort == 0
  {
    hide Current, Store, HistoryOf, Chronological;
    CurrentIsStore(log, key, served);
  }

  // An operator's nodes, and the elected set.

  /** The explorer's two answers: the bare array it used to serve, and the object it serves now. */
  datatype Body = Bare(ids: seq<string>) | Indexed(nodeIds: seq<string>, removed: seq<string>) | Undecodable

  method DecodeOperatorNodes(body: Body, operatorId: string) returns (r: Result<seq<string>, string>)
    ensures r == match body
                 case Bare(ids) => Ok(ids)
                 case Indexed(nodeIds, removed) => Ok(Sequences.Filter(nodeIds, id => id !in removed))
                 case Undecodable => Err(operatorId)
  {
    if body.Bare? {
      return Ok(body.ids);
    }
    if body.Undecodable? {
      return Err(operatorId);
    }
    var removed: set<string> := {};
    for i := 0 to |body.removed|
      invariant removed == Sequences.ToSet(body.removed[..i])
    {
      removed := removed + {body.removed[i]};
    }
    assert body.removed[..|body.removed|] == body.removed;
    ghost var keep := id => id !in body.removed;
    var live := [];
    for i := 0 to |body.nodeIds|
      invariant live == Sequences.Filter(body.nodeIds[..i], keep)
    {
      Sequences.FilterStep(body.nodeIds, i, keep);
      if body.nodeIds[i] !in removed {
        live := live + [body.nodeIds[i]];
      }
    }
    assert body.nodeIds[..|body.nodeIds|] == body.nodeIds;
    return Ok(live);
  }

  datatype ElectedVersions = ElectedVersions(ids: map<string, bool>, measured: map<string, bool>) {
    predicate Elected(v: string) {
      v in ids && ids[v]
    }

    predicate Known() {
      |ids| > 0
    }
  }

  /** All or nothing: an error names a version that could not be read, and success answers for every one asked. */
  method FetchElectedVersions(versions: seq<string>, fetch: string -> Result<VersionRecord, string>)
    returns (r: Result<ElectedVersions, string>)
    ensures r.Ok? <==> forall v :: v in versions && v != "" ==> fetch(v).Ok?
    ensures r.Err? ==> exists v :: v in versions && v != "" && fetch(v) == Err(r.error)
    ensures r.Ok? ==> forall v :: r.value.Elected(v) <==> v in versions && v != "" && fetch(v).value.elected
    ensures r.Ok? ==> forall v :: (v in r.value.measured <==> v in versions && v != "" && fetch(v).value.measuredKnown)
                               && (v in r.value.measured ==> r.value.measured[v] == fetch(v).value.measured)
    ensures r.Ok? ==> (r.value.Known() <==> exists v :: v in versions && v != "")
  {
    var ids: map<string, bool>, measured: map<string, bool> := map[], map[];
    for i := 0 to |versions|
      invariant forall v :: v in versions[..i] && v != "" ==> fetch(v).Ok?
      invariant forall v :: v in ids <==> v in versions[..i] && v != ""
      invariant forall v :: v in ids ==> ids[v] == fetch(v).value.elected
      invariant forall v :: v in measured <==> v in ids && fetch(v).value.measuredKnown
      invariant forall v :: v in measured ==> measured[v] == fetch(v).value.measured
    {
      var v := versions[i];
      assert versions[..i + 1] == versions[..i] + [v];
      if v == "" || (v in ids && ids[v]) {
        continue;
      }
      var rec := fetch(v);
      if rec.Err? {
        return Err(rec.error);
      }
      ids := ids[v := rec.value.elected];
      if rec.value.measuredKnown {
        measured := measured[v := rec.value.measured];
      }
    }
    assert versions[..|versions|] == versions;
    if |ids| == 0 {
      assert forall v :: v !in ids;
      return Ok(ElectedVersions(map[], map[]));
    }
    assert ids.Keys != {};
    return Ok(ElectedVersions(ids, measured));
  }
}
