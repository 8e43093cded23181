/**
 The default GuestOS version and what nodes inherit from it (nns/resources.go:150-165, 353-439). The
 check means to admit at most one default block; what it admits is settled here exactly.
 */
module DefaultVersion {
  import opened Wrappers
  import opened Sequences
  import Resources

  datatype Version = Version(name: string, id: string, isDefault: bool)

  predicate IsDefault(v: Version) {
    v.isDefault
  }

  function Defaults(vs: seq<Version>): seq<Version> {
    Filter(vs, IsDefault)
  }

  /** What the check lets through: every default but the last has an empty name. */
  predicate OnlyLastNamed(ds: seq<Version>) {
    forall i :: 0 <= i < |ds| - 1 ==> ds[i].name == ""
  }

  /** The name of the default seen last stands for "a default was seen", so an unnamed one is forgotten. */
  method CheckOneDefaultVersion(vs: seq<Version>) returns (r: Result<(), (string, string)>)
    ensures r.Ok? <==> OnlyLastNamed(Defaults(vs))
    ensures r.Err? ==>
      exists i: int, j: int :: TwoDefaults(vs, i, j) && vs[i].name != "" && r.error == (vs[i].name, vs[j].name)
  {
    hide Filter;
    var first := "";
    ghost var at := -1;
    FilterEmpty(IsDefault);
    assert vs[..0] == [];
    for i := 0 to |vs|
      invariant OnlyLastNamed(Defaults(vs[..i]))
      invariant first == if Defaults(vs[..i]) == [] then "" else Last(Defaults(vs[..i])).name
      invariant Defaults(vs[..i]) != [] ==> 0 <= at < i && vs[at] == Last(Defaults(vs[..i]))
    {
      var v := vs[i];
      FilterStep(vs, i, IsDefault);
      if !v.isDefault {
        continue;
      }
      if first != "" {
        DefaultsPrefix(vs, i + 1);
        assert !OnlyLastNamed(Defaults(vs)) by {
          var k := |Defaults(vs[..i])| - 1;
          assert Defaults(vs)[k] == Defaults(vs[..i + 1])[k] == Last(Defaults(vs[..i]));
        }
        assert Last(Defaults(vs[..i])) in Defaults(vs[..i]);
        assert TwoDefaults(vs, at, i);
        return Err((first, v.name));
      }
      first := v.name;
      at := i;
    }
    assert vs[..|vs|] == vs;
    return Ok(());
  }

  predicate TwoDefaults(vs: seq<Version>, i: int, j: int) {
    0 <= i < j < |vs| && vs[i].isDefault && vs[j].isDefault
  }

  function Last(ds: seq<Version>): Version
    requires ds != []
  {
    ds[|ds| - 1]
  }

  lemma DefaultsPrefix(vs: seq<Version>, i: nat)
    requires i <= |vs|
    ensures Defaults(vs[..i]) <= Defaults(vs)
  {
    assert vs == vs[..i] + vs[i..];
    FilterConcat(vs[..i], vs[i..], IsDefault);
  }

  /** The check means "at most one default" for every file whose default blocks all have names. */
  lemma OneDefaultIff(vs: seq<Version>)
    requires forall v :: v in vs && v.isDefault ==> v.name != ""
    ensures OnlyLastNamed(Defaults(vs)) <==> |Defaults(vs)| <= 1
  {
    hide Filter;
    var ds := Defaults(vs);
    if |ds| > 1 {
      assert ds[0] in ds;
      assert ds[0].name != "";
    }
  }

  /** Two defaults get through when the first has an empty name, and do not in the other order. */
  lemma UnnamedDefaultEscapes()
    ensures
      var unnamed, named := Version("", "aa", true), Version("x", "bb", true);
      && OnlyLastNamed(Defaults([unnamed] + [named])) && |Defaults([unnamed] + [named])| == 2
      && !OnlyLastNamed(Defaults([named] + [unnamed]))
  {
    hide Filter;
    var unnamed, named := Version("", "aa", true), Version("x", "bb", true);
    FilterOne(unnamed, IsDefault);
    FilterOne(named, IsDefault);
    FilterConcat([unnamed], [named], IsDefault);
    FilterConcat([named], [unnamed], IsDefault);
    assert Defaults([named] + [unnamed])[0] == named;
  }

  predicate IsNamedDefault(v: Version) {
    v.isDefault && v.name != ""
  }

  predicate IsUnnamedDefault(v: Version) {
    v.isDefault && v.name == ""
  }

  predicate IsOther(v: Version) {
    !IsNamedDefault(v)
  }

  ghost predicate OrderMatters(vs: seq<Version>) {
    exists ws :: multiset(ws) == multiset(vs) && OnlyLastNamed(Defaults(ws)) != OnlyLastNamed(Defaults(vs))
  }

  lemma {:induction false} DefaultsCount(vs: seq<Version>)
    ensures |Defaults(vs)| == |Filter(vs, IsNamedDefault)| + |Filter(vs, IsUnnamedDefault)|
  {
    if vs != [] {
      DefaultsCount(vs[..|vs| - 1]);
    }
  }

  /** Of the named defaults, the check tolerates one. */
  lemma {:induction false} AtMostOneNamed(vs: seq<Version>)
    requires OnlyLastNamed(Defaults(vs))
    ensures |Filter(vs, IsNamedDefault)| <= 1
  {
    if vs != [] {
      var front, v := vs[..|vs| - 1], vs[|vs| - 1];
      assert vs == front + [v];
      DefaultsPrefix(vs, |vs| - 1);
      assert OnlyLastNamed(Defaults(front)) by {
        assert forall i :: 0 <= i < |Defaults(front)| ==> Defaults(vs)[i] == Defaults(front)[i];
      }
      AtMostOneNamed(front);
      if v.isDefault {
        forall d | d in Defaults(front) ensures d.name == "" {
          var i :| 0 <= i < |Defaults(front)| && Defaults(front)[i] == d;
          assert Defaults(vs)[i] == d;
        }
        SomeMember(Filter(front, IsNamedDefault));
      }
    }
  }

  lemma SomeMember(ds: seq<Version>)
    ensures ds == [] || exists d :: d in ds
  {
    if ds != [] {
      assert ds[0] in ds;
    }
  }

  /** Decided by the counts alone, except when one named default stands beside unnamed ones. */
  lemma VerdictByCounts(vs: seq<Version>)
    ensures |Filter(vs, IsNamedDefault)| == 0 ==> OnlyLastNamed(Defaults(vs))
    ensures |Filter(vs, IsNamedDefault)| > 1 ==> !OnlyLastNamed(Defaults(vs))
    ensures |Filter(vs, IsUnnamedDefault)| == 0 && |Filter(vs, IsNamedDefault)| == 1 ==> OnlyLastNamed(Defaults(vs))
  {
    hide Filter;
    var ds := Defaults(vs);
    DefaultsCount(vs);
    if |Filter(vs, IsNamedDefault)| == 0 {
      forall i | 0 <= i < |ds| - 1 ensures ds[i].name == "" {
        assert ds[i] in ds && ds[i] !in Filter(vs, IsNamedDefault);
      }
    }
    if OnlyLastNamed(ds) {
      AtMostOneNamed(vs);
    }
  }

  lemma NamedFirstAndLast(named: seq<Version>, others: seq<Version>)
    requires |named| == 1 && IsNamedDefault(named[0])
    requires forall v :: v in others ==> IsOther(v)
    requires exists v :: v in others && v.isDefault
    ensures OnlyLastNamed(Defaults(others + named)) && !OnlyLastNamed(Defaults(named + others))
  {
    hide Filter;
    FilterConcat(others, named, IsDefault);
    FilterConcat(named, others, IsDefault);
    assert named == [named[0]];
    FilterOne(named[0], IsDefault);
    var ds := Defaults(others);
    forall i | 0 <= i < |ds| ensures ds[i].name == "" {
      assert ds[i] in ds;
    }
    assert ds != [];
    assert Defaults(named + others)[0] == named[0];
  }

  /** Block order decides the verdict exactly when one named default stands beside unnamed ones. */
  lemma OrderMattersIff(vs: seq<Version>)
    ensures OrderMatters(vs) <==> |Filter(vs, IsNamedDefault)| == 1 && |Filter(vs, IsUnnamedDefault)| >= 1
  {
    hide OnlyLastNamed, Filter, Defaults;
    if OrderMatters(vs) {
      var ws :| multiset(ws) == multiset(vs) && OnlyLastNamed(Defaults(ws)) != OnlyLastNamed(Defaults(vs));
      FilterPermutes(vs, ws, IsNamedDefault);
      FilterPermutes(vs, ws, IsUnnamedDefault);
      VerdictByCounts(vs);
      VerdictByCounts(ws);
    }
    if |Filter(vs, IsNamedDefault)| == 1 && |Filter(vs, IsUnnamedDefault)| >= 1 {
      var named, others := Filter(vs, IsNamedDefault), Filter(vs, IsOther);
      FilterPartition(vs, IsNamedDefault, IsOther);
      var d, u := named[0], Filter(vs, IsUnnamedDefault)[0];
      assert d in named && u in Filter(vs, IsUnnamedDefault);
      assert u in others && u.isDefault;
      NamedFirstAndLast(named, others);
      assert multiset(others + named) == multiset(vs) && multiset(named + others) == multiset(vs);
    }
  }

  // The version a node is expected to run.

  const NONE := "none"

  datatype VersionSource = FromNode | FromDefault

  datatype VersionExpectation = VersionExpectation(version: string, source: VersionSource)

  function FirstDefault(vs: seq<Version>): Option<Version> {
    if Defaults(vs) == [] then None else Some(Defaults(vs)[0])
  }

  method FindDefault(vs: seq<Version>) returns (d: Option<Version>)
    ensures d == FirstDefault(vs)
  {
    for i := 0 to |vs|
      invariant Defaults(vs[..i]) == []
    {
      FilterStep(vs, i, IsDefault);
      if vs[i].isDefault {
        DefaultsPrefix(vs, i + 1);
        return Some(vs[i]);
      }
    }
    assert vs[..|vs|] == vs;
    return None;
  }

  function Expectation(vs: seq<Version>, n: Resources.NodeRes): Option<VersionExpectation> {
    if n.decommissioned || n.guestosVersion == NONE then None
    else if n.guestosVersion != "" then Some(VersionExpectation(n.guestosVersion, FromNode))
    else
      match FirstDefault(vs)
      case Some(d) => Some(VersionExpectation(d.id, FromDefault))
      case None => None
  }

  /**
   What a node is expected to run, read off the file: its own version always wins; otherwise the id of
   a default block with no default before it; and nothing iff the node is out of the check, or has no
   version of its own and no block is a default.
   */
  lemma ExpectationMeans(vs: seq<Version>, n: Resources.NodeRes)
    ensures var e, out := Expectation(vs, n), n.decommissioned || n.guestosVersion == NONE;
      && (e == None <==> out || (n.guestosVersion == "" && forall v :: v in vs ==> !v.isDefault))
      && (e.Some? && e.value.source == FromNode <==> !out && n.guestosVersion != "")
      && (e.Some? && e.value.source == FromNode ==> e.value.version == n.guestosVersion)
      && (e.Some? && e.value.source == FromDefault ==> exists i: int :: IsFirstDefault(vs, i) && vs[i].id == e.value.version)
  {
    hide Filter;
    FirstDefaultMeans(vs);
  }

  predicate IsFirstDefault(vs: seq<Version>, i: int) {
    0 <= i < |vs| && vs[i].isDefault && forall j :: 0 <= j < i ==> !vs[j].isDefault
  }

  lemma {:induction false} FirstDefaultMeans(vs: seq<Version>)
    ensures FirstDefault(vs) == None <==> forall v :: v in vs ==> !v.isDefault
    ensures FirstDefault(vs).Some? ==> exists i: int :: IsFirstDefault(vs, i) && FirstDefault(vs) == Some(vs[i])
  {
    if vs != [] {
      var front, last := vs[..|vs| - 1], vs[|vs| - 1];
      assert vs == front + [last];
      FirstDefaultMeans(front);
      if Defaults(front) == [] {
        assert forall i :: 0 <= i < |front| ==> front[i] in front && vs[i] == front[i];
        assert last.isDefault ==> IsFirstDefault(vs, |vs| - 1);
      } else {
        var i: int :| IsFirstDefault(front, i) && FirstDefault(front) == Some(front[i]);
        assert IsFirstDefault(vs, i) && vs[i] == front[i] && vs[i] in vs;
      }
    }
  }

  method ExpectedVersion(vs: seq<Version>, n: Resources.NodeRes) returns (e: Option<VersionExpectation>)
    ensures e == Expectation(vs, n)
  {
    if n.decommissioned || n.guestosVersion == NONE {
      return None;
    }
    if n.guestosVersion != "" {
      return Some(VersionExpectation(n.guestosVersion, FromNode));
    }
    var d := FindDefault(vs);
    if d.Some? {
      return Some(VersionExpectation(d.value.id, FromDefault));
    }
    return None;
  }

  /** Two slices in step: the checked nodes in file order, and each one's expectation. */
  method VersionCheckedNodes(vs: seq<Version>, all: seq<Resources.NodeRes>)
    returns (nodes: seq<Resources.NodeRes>, want: seq<VersionExpectation>)
    ensures nodes == Filter(all, n => Expectation(vs, n).Some?)
    ensures |want| == |nodes|
    ensures forall i :: 0 <= i < |nodes| ==> Expectation(vs, nodes[i]) == Some(want[i])
  {
    ghost var checked := n => Expectation(vs, n).Some?;
    nodes, want := [], [];
    for i := 0 to |all|
      invariant nodes == Filter(all[..i], checked)
      invariant |want| == |nodes|
      invariant forall j :: 0 <= j < |nodes| ==> Expectation(vs, nodes[j]) == Some(want[j])
    {
      FilterStep(all, i, checked);
      var e := ExpectedVersion(vs, all[i]);
      if e.Some? {
        nodes := nodes + [all[i]];
        want := want + [e.value];
      }
    }
    assert all[..|all|] == all;
  }

  ghost predicate UniqueNames(vs: seq<Version>) {
    forall i, j :: 0 <= i < j < |vs| ==> vs[i].name != vs[j].name
  }

  /**
   When both orders of the version blocks pass both checks, every node is expected to run the same
   version in both: the default a node inherits never comes down to block order.
   */
  lemma ExpectationPermutes(vs: seq<Version>, ws: seq<Version>, n: Resources.NodeRes)
    requires multiset(vs) == multiset(ws) && UniqueNames(vs)
    requires OnlyLastNamed(Defaults(vs)) && OnlyLastNamed(Defaults(ws))
    ensures FirstDefault(vs) == FirstDefault(ws)
    ensures Expectation(vs, n) == Expectation(ws, n)
  {
    hide Filter;
    var ds, es := Defaults(vs), Defaults(ws);
    FilterPermutes(vs, ws, IsDefault);
    PermutationSameElements(ds, es);
    if ds != [] {
      assert es[0] in ds && ds[0] in ds;
      if |ds| > 1 {
        assert ds[0].name == "" && es[0].name == "";
        assert ds[0] in vs && es[0] in vs;
      } else {
        assert ds == [ds[0]];
      }
    }
  }
}
