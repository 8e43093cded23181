/**
 The elected GuestOS versions, replayed from a feed of election proposals (nns/guestos.go). The
 feed is a window onto the history, in any order.
 */
module Elections {
  import opened Wrappers
  import Sequences
  import opened Sorting

  /** elect "" elects nothing; name is the release name read out of the summary. */
  datatype Proposal = Proposal(id: nat, name: string, elect: string, unelect: seq<string>)

  datatype Release = Release(version: string, name: string, proposal: nat)

  function Id(p: Proposal): int {
    p.id
  }

  function ElectedBy(r: Release): int {
    r.proposal
  }

  /** One proposal: it may elect one version, and then unelects others. */
  function Play(elected: map<string, Release>, p: Proposal): map<string, Release> {
    (if p.elect == "" then elected else elected[p.elect := Release(p.elect, p.name, p.id)])
    - Sequences.ToSet(p.unelect)
  }

  function Replay(ps: seq<Proposal>): map<string, Release> {
    if ps == [] then map[] else Play(Replay(ps[..|ps| - 1]), ps[|ps| - 1])
  }

  /** p has something to say about version v. */
  predicate Touches(p: Proposal, v: string) {
    (p.elect == v && v != "") || v in p.unelect
  }

  /** p leaves v elected: it elects it and does not unelect it in the same breath. */
  predicate LeavesElected(p: Proposal, v: string) {
    p.elect == v && v != "" && v !in p.unelect
  }

  /** i is the chronologically last event about v. */
  ghost predicate LastEvent(ps: seq<Proposal>, v: string, i: int) {
    0 <= i < |ps| && Touches(ps[i], v) && forall j :: 0 <= j < |ps| && ps[j].id > ps[i].id ==> !Touches(ps[j], v)
  }

  /** Declaratively: v is elected by the last event about it, which is an election. */
  ghost predicate ElectedIn(ps: seq<Proposal>, v: string, r: Release) {
    exists i: int :: LastEvent(ps, v, i) && LeavesElected(ps[i], v) && r == Release(v, ps[i].name, ps[i].id)
  }

  ghost predicate Chronological(ps: seq<Proposal>) {
    forall i, j :: 0 <= i < j < |ps| ==> ps[i].id < ps[j].id
  }

  /** The newest proposal decides every version it touches... */
  lemma NewestDecides(ps: seq<Proposal>, v: string, r: Release)
    requires Chronological(ps) && ps != [] && Touches(ps[|ps| - 1], v)
    ensures ElectedIn(ps, v, r) <==>
      LeavesElected(ps[|ps| - 1], v) && r == Release(v, ps[|ps| - 1].name, ps[|ps| - 1].id)
  {
    assert LastEvent(ps, v, |ps| - 1);
    forall i: int | LastEvent(ps, v, i) ensures i == |ps| - 1 {
    }
  }

  /** ...and leaves the others to the earlier ones. */
  lemma NewestIrrelevant(ps: seq<Proposal>, v: string, r: Release)
    requires Chronological(ps) && ps != [] && !Touches(ps[|ps| - 1], v)
    ensures ElectedIn(ps, v, r) <==> ElectedIn(ps[..|ps| - 1], v, r)
  {
    var front := ps[..|ps| - 1];
    assert forall i :: 0 <= i < |front| ==> front[i] == ps[i];
    forall i: int | LastEvent(ps, v, i) ensures LastEvent(front, v, i) {
      assert front[i] == ps[i];
    }
    forall i: int | LastEvent(front, v, i) ensures LastEvent(ps, v, i) {
      assert front[i] == ps[i];
      forall j | 0 <= j < |ps| && ps[j].id > ps[i].id ensures !Touches(ps[j], v) {
        if j < |front| {
          assert front[j] == ps[j];
        }
      }
    }
  }

  /** Replaying a chronological list finds exactly the versions whose last event elects them. */
  lemma {:induction false} ReplayIsLastEvent(ps: seq<Proposal>, v: string, r: Release)
    requires Chronological(ps)
    ensures ElectedIn(ps, v, r) <==> v in Replay(ps) && Replay(ps)[v] == r
  {
    if ps != [] {
      hide ElectedIn;
      ReplayIsLastEvent(ps[..|ps| - 1], v, r);
      if Touches(ps[|ps| - 1], v) {
        NewestDecides(ps, v, r);
      } else {
        NewestIrrelevant(ps, v, r);
      }
    }
  }

  /** One more proposal: what it unelects is gone, even what it elects; what it elects carries its own name and id. */
  lemma PlayMeans(ps: seq<Proposal>, p: Proposal, v: string)
    ensures var before, after := Replay(ps), Replay(ps + [p]);
      && (v in after <==> v !in p.unelect && ((v == p.elect && v != "") || v in before))
      && (v in after ==>
            if v == p.elect && v != "" then after[v].version == v && after[v].name == p.name && after[v].proposal == p.id
            else after[v] == before[v])
  {
    assert (ps + [p])[..|ps|] == ps;
  }

  /** The same question on any order of the same proposals. */
  lemma ElectedInPermutes(ps: seq<Proposal>, qs: seq<Proposal>, v: string, r: Release)
    requires multiset(ps) == multiset(qs)
    ensures ElectedIn(ps, v, r) ==> ElectedIn(qs, v, r)
  {
    Sequences.PermutationSameElements(ps, qs);
    if ElectedIn(ps, v, r) {
      var i :| LastEvent(ps, v, i) && LeavesElected(ps[i], v) && r == Release(v, ps[i].name, ps[i].id);
      assert ps[i] in qs;
      var k :| 0 <= k < |qs| && qs[k] == ps[i];
      forall j | 0 <= j < |qs| && qs[j].id > qs[k].id ensures !Touches(qs[j], v) {
        assert qs[j] in ps;
        var l :| 0 <= l < |ps| && ps[l] == qs[j];
      }
      assert LastEvent(qs, v, k);
    }
  }

  /** The list a feed parses to: the releases ElectedIn it, by ascending election, each version once. */
  ghost predicate Catalogue(feed: seq<Proposal>, out: seq<Release>) {
    && SortedBy(out, ElectedBy) && DistinctBy(out, ElectedBy)
    && (forall r :: r in out <==> ElectedIn(feed, r.version, r))
    && (forall i, j :: 0 <= i < j < |out| ==> out[i].version != out[j].version)
  }

  lemma {:induction false} ReplayKeyed(ps: seq<Proposal>)
    ensures forall v :: v in Replay(ps) ==> Replay(ps)[v].version == v
  {
    if ps != [] {
      ReplayKeyed(ps[..|ps| - 1]);
    }
  }

  /** The proposal that elected a release, by its position. */
  lemma Elector(ps: seq<Proposal>, v: string, r: Release) returns (i: int)
    requires ElectedIn(ps, v, r)
    ensures 0 <= i < |ps| && ps[i].id == r.proposal && ps[i].elect == v == r.version && v != ""
  {
    i :| LastEvent(ps, v, i) && LeavesElected(ps[i], v) && r == Release(v, ps[i].name, ps[i].id);
  }

  /** Each proposal elects at most one version, so releases of different versions differ in proposal. */
  lemma ElectorsDiffer(ps: seq<Proposal>, r: Release, q: Release)
    requires DistinctBy(ps, Id) && ElectedIn(ps, r.version, r) && ElectedIn(ps, q.version, q)
    requires r.version != q.version
    ensures r.proposal != q.proposal
  {
  }

  lemma CatalogueHolds(feed: seq<Proposal>, props: seq<Proposal>, unordered: seq<Release>, out: seq<Release>)
    requires multiset(props) == multiset(feed) && SortedBy(props, Id) && DistinctBy(props, Id)
    requires forall r :: r in unordered <==> r.version in Replay(props) && Replay(props)[r.version] == r
    requires forall i, j :: 0 <= i < j < |unordered| ==> unordered[i].version != unordered[j].version
    requires multiset(out) == multiset(unordered) && SortedBy(out, ElectedBy)
    ensures Catalogue(feed, out)
  {
    Sequences.PermutationSameElements(out, unordered);
    forall i, j | 0 <= i < j < |props| ensures props[i].id < props[j].id {
      assert Id(props[i]) <= Id(props[j]) && Id(props[i]) != Id(props[j]);
    }
    forall r ensures r in out <==> ElectedIn(feed, r.version, r) {
      ReplayIsLastEvent(props, r.version, r);
      ElectedInPermutes(props, feed, r.version, r);
      ElectedInPermutes(feed, props, r.version, r);
    }
    forall i, j | 0 <= i < j < |unordered| ensures ElectedBy(unordered[i]) != ElectedBy(unordered[j]) {
      ReplayIsLastEvent(props, unordered[i].version, unordered[i]);
      ReplayIsLastEvent(props, unordered[j].version, unordered[j]);
      assert unordered[i] in unordered && unordered[j] in unordered;
      ElectorsDiffer(props, unordered[i], unordered[j]);
    }
    DistinctByPermutes(unordered, out, ElectedBy);
    forall i, j | 0 <= i < j < |out| ensures out[i].version != out[j].version {
      assert out[i] in unordered && out[j] in unordered;
      assert ElectedBy(out[i]) != ElectedBy(out[j]);
    }
  }

  method ParseElectedReleases(feed: seq<Proposal>) returns (out: seq<Release>)
    ensures DistinctBy(feed, Id) ==> Catalogue(feed, out)
  {
    var props := SortBy(feed, Id);
    var elected: map<string, Release> := map[];
    for i := 0 to |props|
      invariant elected == Replay(props[..i])
    {
      var p := props[i];
      assert props[..i + 1][..i] == props[..i] && props[..i + 1][i] == p;
      if p.elect != "" {
        elected := elected[p.elect := Release(p.elect, p.name, p.id)];
      }
      ghost var before := elected;
      for j := 0 to |p.unelect|
        invariant elected == before - Sequences.ToSet(p.unelect[..j])
      {
        assert p.unelect[..j + 1] == p.unelect[..j] + [p.unelect[j]];
        elected := elected - {p.unelect[j]};
      }
      assert p.unelect[..|p.unelect|] == p.unelect;
    }
    assert props[..|props|] == props;
    ReplayKeyed(props);
    var unordered := Values(elected);
    out := SortBy(unordered, ElectedBy);
    if DistinctBy(feed, Id) {
      DistinctByPermutes(feed, props, Id);
      CatalogueHolds(feed, props, unordered, out);
    }
  }

  /** Ranges over the map in whatever order Go picks. */
  method Values(m: map<string, Release>) returns (vs: seq<Release>)
    requires forall k :: k in m ==> m[k].version == k
    ensures forall r :: r in vs <==> r.version in m && m[r.version] == r
    ensures forall i, j :: 0 <= i < j < |vs| ==> vs[i].version != vs[j].version
  {
    vs := [];
    var rest := m.Keys;
    while rest != {}
      invariant rest <= m.Keys
      invariant forall r :: r in vs <==> r.version in m.Keys - rest && m[r.version] == r
      invariant forall i, j :: 0 <= i < j < |vs| ==> vs[i].version != vs[j].version
    {
      var k :| k in rest;
      vs := vs + [m[k]];
      rest := rest - {k};
    }
  }

  /** The feed's order never shows: two feeds of the same proposals parse to the same list. */
  lemma FeedOrderIrrelevant(feed: seq<Proposal>, other: seq<Proposal>, out: seq<Release>, out': seq<Release>)
    requires multiset(feed) == multiset(other)
    requires Catalogue(feed, out) && Catalogue(other, out')
    ensures out == out'
  {
    forall r ensures r in out <==> r in out' {
      ElectedInPermutes(feed, other, r.version, r);
      ElectedInPermutes(other, feed, r.version, r);
    }
    forall i, j | 0 <= i < j < |out| ensures out[i] != out[j] {
      assert out[i].version != out[j].version;
    }
    forall i, j | 0 <= i < j < |out'| ensures out'[i] != out'[j] {
      assert out'[i].version != out'[j].version;
    }
    Sequences.DistinctSameElements(out, out');
    SortUnique(out, out', ElectedBy);
  }

  /** window holds exactly the proposals of all from id cut on. */
  ghost predicate Window(all: seq<Proposal>, window: seq<Proposal>, cut: nat) {
    forall p :: p in window <==> p in all && p.id >= cut
  }

  /**
   The capped scan is sound, and exact about what it misses: it elects what the full history
   elects, with the same record, except the versions last elected before the window.
   */
  lemma WindowSound(all: seq<Proposal>, window: seq<Proposal>, cut: nat, v: string, r: Release)
    requires Window(all, window, cut)
    ensures ElectedIn(window, v, r) <==> ElectedIn(all, v, r) && r.proposal >= cut
  {
  }

  /** Where a list in ascending order passes the cut. */
  lemma {:induction false} CutAt(out: seq<Release>, cut: nat) returns (n: nat)
    requires SortedBy(out, ElectedBy)
    ensures n <= |out| && forall i :: 0 <= i < |out| ==> (i < n <==> out[i].proposal < cut)
  {
    if out == [] || out[|out| - 1].proposal < cut {
      n := |out|;
      forall i | 0 <= i < |out| - 1 ensures out[i].proposal < cut {
        assert ElectedBy(out[i]) <= ElectedBy(out[|out| - 1]);
      }
    } else {
      n := CutAt(out[..|out| - 1], cut);
    }
  }

  lemma TailOf(out: seq<Release>, n: nat)
    requires n <= |out| && SortedBy(out, ElectedBy) && DistinctBy(out, ElectedBy)
    ensures SortedBy(out[n..], ElectedBy) && DistinctBy(out[n..], ElectedBy) && Sequences.Distinct(out[n..])
    ensures forall r :: r in out[n..] <==> exists i :: n <= i < |out| && out[i] == r
  {
    forall i, j | n <= i < j < |out| ensures out[i] != out[j] {
      assert ElectedBy(out[i]) != ElectedBy(out[j]);
    }
    forall i | n <= i < |out| ensures out[i] in out[n..] {
      assert out[n..][i - n] == out[i];
    }
  }

  /** On what the scan returns: the window's catalogue is the tail of the full one, from the cut on. */
  lemma WindowIsTail(all: seq<Proposal>, window: seq<Proposal>, cut: nat, out: seq<Release>, out': seq<Release>)
    returns (n: nat)
    requires Window(all, window, cut) && Catalogue(all, out) && Catalogue(window, out')
    ensures n <= |out| && out' == out[n..]
    ensures forall i :: 0 <= i < |out| ==> (i < n <==> out[i].proposal < cut)
  {
    hide Window, ElectedIn, SortedBy, DistinctBy, Sequences.Distinct;
    n := CutAt(out, cut);
    TailOf(out, n);
    TailOf(out', 0);
    assert out'[0..] == out';
    forall r ensures r in out' <==> r in out[n..] {
      WindowSound(all, window, cut, r.version, r);
      assert r in out <==> exists i :: 0 <= i < |out| && out[i] == r;
    }
    Sequences.DistinctSameElements(out', out[n..]);
    SortUnique(out', out[n..], ElectedBy);
  }

  // The newest release of a variant.

  predicate HasSuffix(s: string, suffix: string) {
    |suffix| <= |s| && s[|s| - |suffix|..] == suffix
  }

  predicate Matches(r: Release, variant: string) {
    HasSuffix(r.name, "-" + variant)
  }

  /** A release matches a variant when its name is some base name, a hyphen and the variant. */
  lemma MatchesMeans(r: Release, variant: string)
    ensures Matches(r, variant) <==> exists base: string :: r.name == base + "-" + variant
  {
    var suffix := "-" + variant;
    if Matches(r, variant) {
      var base := r.name[..|r.name| - |suffix|];
      assert r.name == base + suffix == base + "-" + variant;
    }
    if base: string :| r.name == base + "-" + variant {
      assert r.name == base + suffix;
      assert r.name[|r.name| - |suffix|..] == suffix;
    }
  }

  /** k is a match of the highest proposal, and of several the last one listed. */
  ghost predicate Newest(rs: seq<Release>, variant: string, k: int) {
    && 0 <= k < |rs| && Matches(rs[k], variant)
    && (forall j :: 0 <= j < |rs| && Matches(rs[j], variant) ==> rs[j].proposal <= rs[k].proposal)
    && (forall j :: k < j < |rs| && Matches(rs[j], variant) ==> rs[j].proposal < rs[k].proposal)
  }

  /** Over any list: the newest match, or an error when there is none or it carries no version. */
  method LatestRelease(rs: seq<Release>, variant: string) returns (r: Result<Release, string>)
    ensures r.Ok? ==> r.value.version != "" && exists k: int :: Newest(rs, variant, k) && rs[k] == r.value
    ensures r.Err? ==>
      || (forall m :: m in rs ==> !Matches(m, variant))
      || (exists k: int :: Newest(rs, variant, k) && rs[k].version == "")
  {
    var best := Release("", "", 0);
    ghost var at := -1;
    for i := 0 to |rs|
      invariant -1 <= at < i
      invariant at == -1 ==> best == Release("", "", 0) && forall j :: 0 <= j < i ==> !Matches(rs[j], variant)
      invariant at >= 0 ==> best == rs[at] && Newest(rs[..i], variant, at)
    {
      assert rs[..i + 1] == rs[..i] + [rs[i]];
      if Matches(rs[i], variant) && rs[i].proposal >= best.proposal {
        best := rs[i];
        at := i;
      }
    }
    assert rs[..|rs|] == rs;
    if best.version == "" {
      return Err(variant);
    }
    return Ok(best);
  }

  /** On a parsed feed the answer is the maximal match, and an error means there is no match at all. */
  method LatestOfFeed(feed: seq<Proposal>, variant: string) returns (r: Result<Release, string>)
    requires DistinctBy(feed, Id)
    ensures r.Ok? <==> exists m: Release :: ElectedIn(feed, m.version, m) && Matches(m, variant)
    ensures r.Ok? ==>
      && ElectedIn(feed, r.value.version, r.value) && Matches(r.value, variant)
      && forall m: Release :: ElectedIn(feed, m.version, m) && Matches(m, variant) ==> m.proposal <= r.value.proposal
  {
    var rs := ParseElectedReleases(feed);
    r := LatestRelease(rs, variant);
    if r.Err? {
      forall m | m in rs ensures m.version != "" {
        var _ := Elector(feed, m.version, m);
      }
    }
  }
}
