/**
 The subnet membership planner against what executing the proposal does (nns/plan.go). Node ids are
 principals in their text form.
 */
module Membership {
  import opened Preflights
  import opened Sequences

  type NodeId = string

  datatype Kind = Add | Remove

  datatype Reason = NoReason | AlreadyMember | NotMember

  datatype Op = Op(kind: Kind, nodeId: NodeId, warn: bool, reason: Reason)

  datatype Proposal = Proposal(adds: seq<NodeId>, removes: seq<NodeId>)

  function AddOp(id: NodeId, members: set<NodeId>): Op {
    if id in members then Op(Add, id, true, AlreadyMember) else Op(Add, id, false, NoReason)
  }

  function RemoveOp(id: NodeId, members: set<NodeId>): Op {
    if id !in members then Op(Remove, id, true, NotMember) else Op(Remove, id, false, NoReason)
  }

  /** The plan is one op per listed id, additions first, each checked against the members. */
  ghost predicate IsPlan(ops: seq<Op>, p: Proposal, members: set<NodeId>) {
    && |ops| == |p.adds| + |p.removes|
    && (forall i :: 0 <= i < |p.adds| ==> ops[i] == AddOp(p.adds[i], members))
    && (forall i :: 0 <= i < |p.removes| ==> ops[|p.adds| + i] == RemoveOp(p.removes[i], members))
  }

  /** What an op says: the direction and the id listed, and of one that would do nothing, why. */
  ghost predicate SaysAdd(op: Op, id: NodeId, members: set<NodeId>) {
    && op.kind == Add && op.nodeId == id && (op.warn <==> id in members)
    && op.reason == if id in members then AlreadyMember else NoReason
  }

  ghost predicate SaysRemove(op: Op, id: NodeId, members: set<NodeId>) {
    && op.kind == Remove && op.nodeId == id && (op.warn <==> id !in members)
    && op.reason == if id in members then NoReason else NotMember
  }

  /** Op by op: the additions as they are listed, then the removals. */
  lemma PlanMeans(ops: seq<Op>, p: Proposal, members: set<NodeId>)
    requires IsPlan(ops, p, members)
    ensures |ops| == |p.adds| + |p.removes|
    ensures forall i :: 0 <= i < |ops| ==>
              if i < |p.adds| then SaysAdd(ops[i], p.adds[i], members) else SaysRemove(ops[i], p.removes[i - |p.adds|], members)
  {
    forall i | |p.adds| <= i < |ops| ensures SaysRemove(ops[i], p.removes[i - |p.adds|], members) {
      assert ops[|p.adds| + (i - |p.adds|)] == RemoveOp(p.removes[i - |p.adds|], members);
    }
  }

  method PlanMembership(p: Proposal, current: seq<NodeId>) returns (ops: seq<Op>)
    ensures IsPlan(ops, p, ToSet(current))
  {
    var member: set<NodeId> := {};
    for i := 0 to |current|
      invariant member == ToSet(current[..i])
    {
      member := member + {current[i]};
    }
    assert current[..|current|] == current;
    ops := [];
    for i := 0 to |p.adds|
      invariant |ops| == i
      invariant forall j :: 0 <= j < i ==> ops[j] == AddOp(p.adds[j], member)
    {
      var op := Op(Add, p.adds[i], false, NoReason);
      if p.adds[i] in member {
        op := op.(warn := true, reason := AlreadyMember);
      }
      ops := ops + [op];
    }
    for i := 0 to |p.removes|
      invariant |ops| == |p.adds| + i
      invariant forall j :: 0 <= j < |p.adds| ==> ops[j] == AddOp(p.adds[j], member)
      invariant forall j :: 0 <= j < i ==> ops[|p.adds| + j] == RemoveOp(p.removes[j], member)
    {
      var op := Op(Remove, p.removes[i], false, NoReason);
      if p.removes[i] !in member {
        op := op.(warn := true, reason := NotMember);
      }
      ops := ops + [op];
    }
  }

  ghost predicate SomeWarning(ops: seq<Op>) {
    exists i :: 0 <= i < |ops| && ops[i].warn
  }

  ghost predicate OnlyWarnings(ops: seq<Op>) {
    ops != [] && forall i :: 0 <= i < |ops| ==> ops[i].warn
  }

  method HasWarnings(ops: seq<Op>) returns (b: bool)
    ensures b <==> SomeWarning(ops)
  {
    for i := 0 to |ops|
      invariant forall j :: 0 <= j < i ==> !ops[j].warn
    {
      if ops[i].warn {
        return true;
      }
    }
    return false;
  }

  method AllNoOp(ops: seq<Op>) returns (b: bool)
    ensures b <==> OnlyWarnings(ops)
  {
    if |ops| == 0 {
      return false;
    }
    for i := 0 to |ops|
      invariant forall j :: 0 <= j < i ==> ops[j].warn
    {
      if !ops[i].warn {
        return false;
      }
    }
    return true;
  }

  ghost function Grade(ops: seq<Op>): Level {
    if !SomeWarning(ops) then Clean else if OnlyWarnings(ops) then NoOp else Warn
  }

  method MembershipPreflight(ops: seq<Op>) returns (level: Level)
    ensures level == Grade(ops)
  {
    var warned := HasWarnings(ops);
    if !warned {
      return Clean;
    }
    level := Warn;
    var allNoOp := AllNoOp(ops);
    if allNoOp {
      level := NoOp;
    }
  }

  // What executing the proposal does to the member set.

  /** Additions and removals as set operations, in either order. */
  ghost function Execute(members: set<NodeId>, p: Proposal, addsFirst: bool): set<NodeId> {
    if addsFirst then members + ToSet(p.adds) - ToSet(p.removes)
    else members - ToSet(p.removes) + ToSet(p.adds)
  }

  ghost predicate Disjoint(p: Proposal) {
    ToSet(p.adds) !! ToSet(p.removes)
  }

  /** The warnings read back as set inclusions. */
  lemma WarningsMean(ops: seq<Op>, p: Proposal, members: set<NodeId>)
    requires IsPlan(ops, p, members)
    ensures (forall i :: 0 <= i < |ops| ==> ops[i].warn) <==> ToSet(p.adds) <= members && ToSet(p.removes) !! members
    ensures !SomeWarning(ops) <==> ToSet(p.adds) !! members && ToSet(p.removes) <= members
  {
    var n := |p.adds|;
    assert forall i :: 0 <= i < n ==> (ops[i].warn <==> p.adds[i] in members);
    assert forall i :: 0 <= i < |p.removes| ==> (ops[n + i].warn <==> p.removes[i] !in members);
    if forall i :: 0 <= i < |ops| ==> ops[i].warn {
      forall i | 0 <= i < |p.removes| ensures p.removes[i] !in members {
        assert ops[n + i].warn;
      }
    } else {
      var i :| 0 <= i < |ops| && !ops[i].warn;
      if i < n {
        assert p.adds[i] in ToSet(p.adds);
      } else {
        assert ops[n + (i - n)] == RemoveOp(p.removes[i - n], members);
        assert p.removes[i - n] in ToSet(p.removes) && p.removes[i - n] in members;
      }
    }
    if SomeWarning(ops) {
      var i :| 0 <= i < |ops| && ops[i].warn;
      if i < n {
        assert p.adds[i] in ToSet(p.adds) && p.adds[i] in members;
      } else {
        assert ops[n + (i - n)] == RemoveOp(p.removes[i - n], members);
        assert p.removes[i - n] in ToSet(p.removes);
      }
    } else {
      forall i | 0 <= i < |p.removes| ensures p.removes[i] in members {
        assert !ops[n + i].warn;
      }
    }
  }

  /**
   The no-op grade, exactly: the plan is non-empty, executing it in either order leaves the members as
   they are, and no id is both added and removed.
   */
  lemma NoOpIff(ops: seq<Op>, p: Proposal, members: set<NodeId>, addsFirst: bool)
    requires IsPlan(ops, p, members)
    ensures OnlyWarnings(ops) <==> ops != [] && Execute(members, p, addsFirst) == members && Disjoint(p)
    ensures Grade(ops) == NoOp <==> ops != [] && Execute(members, p, addsFirst) == members && Disjoint(p)
  {
    WarningsMean(ops, p, members);
    if Execute(members, p, addsFirst) == members && Disjoint(p) {
      UnchangedIsIncluded(p, members, addsFirst);
    }
    if ToSet(p.adds) <= members && ToSet(p.removes) !! members {
      IncludedIsUnchanged(p, members, addsFirst);
    }
    if OnlyWarnings(ops) {
      assert ops[0].warn;
    }
  }

  lemma UnchangedIsIncluded(p: Proposal, members: set<NodeId>, addsFirst: bool)
    requires Execute(members, p, addsFirst) == members && Disjoint(p)
    ensures ToSet(p.adds) <= members && ToSet(p.removes) !! members
  {
  }

  lemma IncludedIsUnchanged(p: Proposal, members: set<NodeId>, addsFirst: bool)
    requires ToSet(p.adds) <= members && ToSet(p.removes) !! members
    ensures Execute(members, p, addsFirst) == members && Disjoint(p)
  {
  }

  /** Without disjointness the grade can miss a plan that changes nothing. */
  lemma OverlapEscapes()
    ensures
      var p := Proposal(["a"], ["a"]);
      var ops := [AddOp("a", {}), RemoveOp("a", {})];
      && IsPlan(ops, p, {}) && Execute({}, p, true) == {}
      && !OnlyWarnings(ops) && Grade(ops) == Warn
  {
  }

  /** Adding newcomers and removing members comes to the same in either order, and to these sizes. */
  lemma SwapSize(members: set<NodeId>, adds: set<NodeId>, removes: set<NodeId>)
    requires adds !! members && removes <= members
    ensures adds !! removes
    ensures members + adds - removes == members - removes + adds
    ensures |members - removes + adds| == |members| + |adds| - |removes|
  {
    var kept := members - removes;
    assert kept !! adds;
    assert kept + removes == members;
  }

  /** Clean exactly when only newcomers are added and only members removed; otherwise, unless all of it is idle, a warning. */
  lemma GradeMeans(ops: seq<Op>, p: Proposal, members: set<NodeId>)
    requires IsPlan(ops, p, members)
    ensures Grade(ops) == Clean <==> ToSet(p.adds) !! members && ToSet(p.removes) <= members
    ensures Grade(ops) == NoOp <==> ops != [] && ToSet(p.adds) <= members && ToSet(p.removes) !! members
  {
    hide IsPlan, ToSet;
    WarningsMean(ops, p, members);
    if ops != [] {
      assert ops[0].warn || !ops[0].warn;
    }
  }

  /** Clean plans take effect in full: the size moves by exactly the distinct ids added less those removed. */
  lemma CleanPlanSize(ops: seq<Op>, p: Proposal, members: set<NodeId>, addsFirst: bool)
    requires IsPlan(ops, p, members) && Grade(ops) == Clean
    ensures Disjoint(p)
    ensures |Execute(members, p, addsFirst)| == |members| + |ToSet(p.adds)| - |ToSet(p.removes)|
  {
    hide IsPlan, SomeWarning, OnlyWarnings, ToSet;
    WarningsMean(ops, p, members);
    SwapSize(members, ToSet(p.adds), ToSet(p.removes));
  }

  /** A clean swap, one removal for every addition, keeps the subnet's size. */
  lemma SwapKeepsSize(ops: seq<Op>, p: Proposal, members: set<NodeId>, addsFirst: bool)
    requires IsPlan(ops, p, members) && Grade(ops) == Clean
    requires Distinct(p.adds) && Distinct(p.removes)
    ensures |Execute(members, p, addsFirst)| == |members| + |p.adds| - |p.removes|
    ensures |p.adds| == |p.removes| ==> |Execute(members, p, addsFirst)| == |members|
  {
    CleanPlanSize(ops, p, members, addsFirst);
    DistinctLength(p.adds);
    DistinctLength(p.removes);
  }

  /** A proposal that has been executed plans as a no-op, whether or not it was clean, iff it does not contradict itself. */
  lemma ReplanIsNoOp(ops: seq<Op>, p: Proposal, members: set<NodeId>, addsFirst: bool)
    requires IsPlan(ops, p, Execute(members, p, addsFirst)) && ops != []
    ensures Grade(ops) == NoOp <==> Disjoint(p)
  {
    var after := Execute(members, p, addsFirst);
    NoOpIff(ops, p, after, addsFirst);
    if Disjoint(p) {
      assert Execute(after, p, addsFirst) == after;
    }
  }
}
