/**
 The committed record of what was submitted (nns/state.go, nns/lifecycle.go, nns/status.go):
 one entry per proposal name, the resubmission guard over it, and the settled result that
 lets later runs answer without a query.

 Every update is a function on the proposals map, and the methods of State are proved to
 perform it; the laws are about the functions.
 */
module State {
  import opened Wrappers

  /** The persisted lifecycle text; "" means never observed. */
  type ProposalState = string

  const EXECUTED := "executed"
  const REJECTED := "rejected"
  const FAILED := "failed"

  /** A terminal proposal can no longer change on-chain. */
  predicate Terminal(s: ProposalState) {
    s == EXECUTED || s == REJECTED || s == FAILED
  }

  datatype DataSource = Governance | Dashboard

  datatype Outcome = Outcome(statusLabel: string, source: DataSource, yes: nat, no: nat, total: nat, failure: string)

  datatype Entry = Entry(
    kind: string, proposalId: nat, hash: string, submittedBy: string, neuron: nat, host: string,
    submittedAt: string, status: ProposalState, resolvedAt: string, outcome: Option<Outcome>)

  /** One answer about a proposal's life on-chain, from governance or the dashboard. */
  datatype ProposalStatus = ProposalStatus(
    source: DataSource, statusLabel: string, state: ProposalState, resolvedAt: string, submittedAt: string,
    yes: nat, no: nat, total: nat, failure: string)
  {
    function ToOutcome(): Outcome {
      Outcome(statusLabel, source, yes, no, total, failure)
    }
  }

  type Proposals = map<string, Entry>

  /** What a submission or an import writes about itself. */
  datatype RecordArgs = RecordArgs(
    name: string, kind: string, hash: string, submittedBy: string, neuron: nat, host: string, at: string)

  function NewEntry(a: RecordArgs, pid: nat): Entry {
    Entry(a.kind, pid, a.hash, a.submittedBy, a.neuron, a.host, a.at, "", "", None)
  }

  // The updates.

  datatype ImportError = ZeroProposalId | AlreadyRecorded

  function Imported(p: Proposals, a: RecordArgs, pid: nat): Result<Proposals, ImportError> {
    if pid == 0 then Err(ZeroProposalId)
    else if a.name in p then Err(AlreadyRecorded)
    else Ok(p[a.name := NewEntry(a, pid)])
  }

  datatype Verdict =
    | Proceed(prev: Option<Entry>)
    | NothingToDo(prior: Entry)
    | RefuseTerminal(prior: Entry)
    | RefuseDrift(prior: Entry)

  /** The resubmission guard: a terminal prior is refused outright, force included. */
  function ApplyDecision(p: Proposals, name: string, hash: string, force: bool): Verdict {
    if name !in p || p[name].proposalId == 0 then Proceed(None)
    else if Terminal(p[name].status) then RefuseTerminal(p[name])
    else if force then Proceed(Some(p[name]))
    else if p[name].hash == hash then NothingToDo(p[name])
    else RefuseDrift(p[name])
  }

  function WithState(p: Proposals, name: string, st: ProposalState, resolvedAt: string): Proposals {
    if name !in p || st == "" || p[name].status == st || Terminal(p[name].status) then p
    else p[name := p[name].(status := st, resolvedAt := if Terminal(st) then resolvedAt else p[name].resolvedAt)]
  }

  function WithOutcome(p: Proposals, name: string, st: ProposalState, o: Outcome): Proposals {
    if name !in p || !Terminal(st) || p[name].outcome != None then p
    else p[name := p[name].(outcome := Some(o))]
  }

  function WithSubmittedAt(p: Proposals, name: string, at: string): Proposals {
    if name !in p || at == "" || p[name].submittedAt == at then p
    else p[name := p[name].(submittedAt := at)]
  }

  /** What status records from one answer, in its order. */
  function Observed(p: Proposals, name: string, ps: ProposalStatus): Proposals {
    WithOutcome(
      WithSubmittedAt(WithState(p, name, ps.state, ps.resolvedAt), name, ps.submittedAt),
      name, ps.state, ps.ToOutcome())
  }

  /** A terminal entry's cached result, shaped like a fetched status. */
  function SettledStatus(e: Entry): Option<ProposalStatus> {
    if !Terminal(e.status) || e.outcome == None then None
    else
      var o := e.outcome.value;
      Some(ProposalStatus(o.source, o.statusLabel, e.status, e.resolvedAt, "", o.yes, o.no, o.total, o.failure))
  }

  // The status line, as the data it prints.

  datatype Shares = OfTotal(yes: nat, no: nat, didNotVote: nat, total: nat) | OfCast(yes: nat, no: nat, cast: nat) | NoShares

  datatype Line =
    | NotSubmittedLine(name: string)
    | QueryFailedLine(name: string, proposalId: nat)
    | UnknownLine(name: string, proposalId: nat)
    | StatusLine(name: string, proposalId: nat, statusLabel: string, yes: nat, no: nat, shares: Shares, failure: string, viaDashboard: bool)

  /** uint64 arithmetic: sums wrap. */
  function Wrap(x: int): nat {
    x % 0x1_0000_0000_0000_0000
  }

  function LineOf(name: string, e: Entry, ps: Option<ProposalStatus>): Line {
    match ps
    case None => UnknownLine(name, e.proposalId)
    case Some(s) =>
      var cast := Wrap(s.yes + s.no);
      var shares :=
        if s.total >= cast && s.total > 0 then OfTotal(s.yes, s.no, Wrap(s.total - s.yes - s.no), s.total)
        else if cast > 0 then OfCast(s.yes, s.no, cast)
        else NoShares;
      StatusLine(name, e.proposalId, s.statusLabel, s.yes, s.no, shares, s.failure, s.source == Dashboard)
  }

  /** The in-memory state a command loads, edits and saves. */
  class State {
    var proposals: Proposals

    constructor (p: Proposals)
      ensures proposals == p
    {
      proposals := p;
    }

    method Import(a: RecordArgs, pid: nat) returns (r: Result<(), ImportError>)
      modifies this
      ensures r.Ok? <==> pid != 0 && a.name !in old(proposals)
      ensures r.Err? ==> proposals == old(proposals) && (r.error == ZeroProposalId <==> pid == 0)
      ensures r.Ok? ==>
        && proposals.Keys == old(proposals).Keys + {a.name}
        && (forall n :: n in old(proposals) ==> proposals[n] == old(proposals)[n])
        && proposals[a.name] == NewEntry(a, pid)
    {
      if pid == 0 {
        return Err(ZeroProposalId);
      }
      if a.name in proposals {
        return Err(AlreadyRecorded);
      }
      proposals := proposals[a.name := Entry(a.kind, pid, a.hash, a.submittedBy, a.neuron, a.host, a.at, "", "", None)];
      return Ok(());
    }

    method RecordState(name: string, st: ProposalState, resolvedAt: string) returns (changed: bool)
      modifies this
      ensures proposals == WithState(old(proposals), name, st, resolvedAt)
      ensures changed <==> proposals != old(proposals)
    {
      if name !in proposals || st == "" || proposals[name].status == st || Terminal(proposals[name].status) {
        return false;
      }
      var e := proposals[name].(status := st);
      if Terminal(st) {
        e := e.(resolvedAt := resolvedAt);
      }
      proposals := proposals[name := e];
      assert proposals[name].status != old(proposals)[name].status;
      return true;
    }

    method RecordOutcome(name: string, st: ProposalState, o: Outcome) returns (changed: bool)
      modifies this
      ensures proposals == WithOutcome(old(proposals), name, st, o)
      ensures changed <==> proposals != old(proposals)
    {
      if name !in proposals || !Terminal(st) || proposals[name].outcome != None {
        return false;
      }
      proposals := proposals[name := proposals[name].(outcome := Some(o))];
      assert proposals[name].outcome != old(proposals)[name].outcome;
      return true;
    }

    method RecordSubmittedAt(name: string, at: string) returns (changed: bool)
      modifies this
      ensures proposals == WithSubmittedAt(old(proposals), name, at)
      ensures changed <==> proposals != old(proposals)
    {
      if name !in proposals || at == "" || proposals[name].submittedAt == at {
        return false;
      }
      proposals := proposals[name := proposals[name].(submittedAt := at)];
      assert proposals[name].submittedAt != old(proposals)[name].submittedAt;
      return true;
    }
  }

  // What the updates and the line mean, read off field by field.

  lemma TerminalMeans(st: ProposalState)
    ensures Terminal(st) <==> st in {"executed", "rejected", "failed"}
  {
  }

  /** The entry is the submission's own: what it was given, and nothing observed yet. */
  ghost predicate EntryOf(e: Entry, a: RecordArgs, pid: nat) {
    && e.kind == a.kind && e.proposalId == pid && e.hash == a.hash && e.submittedBy == a.submittedBy
    && e.neuron == a.neuron && e.host == a.host && e.submittedAt == a.at
    && e.status == "" && e.resolvedAt == "" && e.outcome == None
  }

  lemma NewEntryMeans(a: RecordArgs, pid: nat)
    ensures EntryOf(NewEntry(a, pid), a, pid)
  {
  }

  /** Every verdict of the guard, from the entry on record, which it reports unless there is no submission to speak of. */
  lemma GuardMeans(p: Proposals, name: string, hash: string, force: bool)
    ensures var v := ApplyDecision(p, name, hash, force);
      if name !in p || p[name].proposalId == 0 then v == Proceed(None)
      else
        var terminal := p[name].status in {"executed", "rejected", "failed"};
        && (v == RefuseTerminal(p[name]) <==> terminal)
        && (v == Proceed(Some(p[name])) <==> !terminal && force)
        && (v == NothingToDo(p[name]) <==> !terminal && !force && p[name].hash == hash)
        && (v == RefuseDrift(p[name]) <==> !terminal && !force && p[name].hash != hash)
  {
  }

  /**
   What an answer makes of an entry: the first terminal state and its resolution time stay, a state or a
   submission time left empty clears nothing, and the result is kept with the first terminal answer.
   */
  ghost predicate TakesUp(before: Entry, after: Entry, ps: ProposalStatus) {
    && (after.kind, after.proposalId, after.hash) == (before.kind, before.proposalId, before.hash)
    && (after.submittedBy, after.neuron, after.host) == (before.submittedBy, before.neuron, before.host)
    && after.status == (if ps.state == "" || Terminal(before.status) then before.status else ps.state)
    && after.resolvedAt == (if Terminal(ps.state) && !Terminal(before.status) then ps.resolvedAt else before.resolvedAt)
    && after.submittedAt == (if ps.submittedAt == "" then before.submittedAt else ps.submittedAt)
    && if before.outcome.Some? || !Terminal(ps.state) then after.outcome == before.outcome
       else after.outcome.Some? && Retells(after.outcome.value, ps)
  }

  /** The result kept is the one the answer gave. */
  ghost predicate Retells(o: Outcome, ps: ProposalStatus) {
    && o.statusLabel == ps.statusLabel && o.source == ps.source && o.failure == ps.failure
    && o.yes == ps.yes && o.no == ps.no && o.total == ps.total
  }

  lemma ObservedMeans(p: Proposals, name: string, ps: ProposalStatus)
    requires name in p
    ensures Observed(p, name, ps).Keys == p.Keys && TakesUp(p[name], Observed(p, name, ps)[name], ps)
    ensures forall n :: n in p && n != name ==> Observed(p, name, ps)[n] == p[n]
  {
  }

  /** A line that says this of a proposal: each number in its own place. */
  ghost predicate Tells(l: Line, name: string, id: nat, text: string, source: DataSource,
                        yes: nat, no: nat, total: nat, failure: string)
  {
    && l.StatusLine? && l.name == name && l.proposalId == id
    && l.statusLabel == text && l.yes == yes && l.no == no && l.failure == failure
    && (l.viaDashboard <==> source == Dashboard)
    && SharesTell(l.shares, yes, no, total)
  }

  /** Of the total when the votes cast fit into it, else of the votes cast, if any; sums are those of 64 bits. */
  ghost predicate SharesTell(shares: Shares, yes: nat, no: nat, total: nat) {
    var cast := (yes + no) % 0x1_0000_0000_0000_0000;
    match shares
    case OfTotal(y, n, didNotVote, t) =>
      && total > 0 && total >= cast && (y, n, t) == (yes, no, total)
      && (yes + no < 0x1_0000_0000_0000_0000 && total < 0x1_0000_0000_0000_0000 ==> yes + no + didNotVote == total)
      && didNotVote == (total - yes - no) % 0x1_0000_0000_0000_0000
    case OfCast(y, n, c) =>
      && 0 < cast && total < cast && (y, n, c) == (yes, no, cast)
      && (yes + no < 0x1_0000_0000_0000_0000 ==> yes + no == c)
    case NoShares => total == 0 && cast == 0
  }

  lemma LineTells(name: string, e: Entry, s: ProposalStatus)
    ensures Tells(LineOf(name, e, Some(s)), name, e.proposalId, s.statusLabel, s.source, s.yes, s.no, s.total, s.failure)
    ensures LineOf(name, e, None) == UnknownLine(name, e.proposalId)
  {
  }

  /** The cached result is there iff the entry is terminal and has one, and is its line's source, number by number. */
  lemma SettledTells(name: string, e: Entry)
    ensures SettledStatus(e).Some? <==> Terminal(e.status) && e.outcome.Some?
    ensures SettledStatus(e).Some? ==>
      var o := e.outcome.value;
      Tells(LineOf(name, e, SettledStatus(e)), name, e.proposalId, o.statusLabel, o.source, o.yes, o.no, o.total, o.failure)
  {
    if SettledStatus(e).Some? {
      LineTells(name, e, SettledStatus(e).value);
    }
  }

  // Laws of the record.

  /** An entry with a lifecycle state has a real proposal id; one with an outcome is terminal. */
  predicate Consistent(e: Entry) {
    (e.status != "" ==> e.proposalId != 0) && (e.outcome != None ==> Terminal(e.status))
  }

  /** Nothing is missing from the record: the outcome is there exactly when the entry is terminal. */
  predicate Complete(e: Entry) {
    e.outcome != None <==> Terminal(e.status)
  }

  /** An import that succeeds closes the name to every plain apply, whatever it wants to submit, and to no other name. */
  lemma ImportedIsGuarded(p: Proposals, a: RecordArgs, pid: nat, name: string, hash: string)
    requires Imported(p, a, pid).Ok?
    ensures var q := Imported(p, a, pid).value;
      && (ApplyDecision(q, a.name, hash, false) ==
          if hash == a.hash then NothingToDo(NewEntry(a, pid)) else RefuseDrift(NewEntry(a, pid)))
      && ApplyDecision(q, a.name, hash, true) == Proceed(Some(NewEntry(a, pid)))
      && Imported(q, a, pid) == Err(AlreadyRecorded)
      && (name != a.name ==> forall force :: ApplyDecision(q, name, hash, force) == ApplyDecision(p, name, hash, force))
  {
  }

  /** What an entry may still become once it is terminal: its history stands, an outcome may be added. */
  predicate HistoryKept(before: Entry, after: Entry) {
    && after == before.(submittedAt := after.submittedAt, outcome := after.outcome)
    && (before.outcome != None ==> after.outcome == before.outcome)
  }

  lemma HistoryKeptTransitive(a: Entry, b: Entry, c: Entry)
    requires HistoryKept(a, b) && HistoryKept(b, c)
    ensures HistoryKept(a, c)
  {
  }

  /** A recorded answer keeps consistency, other entries, and the history of a terminal entry. */
  lemma ObservedKeeps(p: Proposals, name: string, ps: ProposalStatus)
    requires name in p && p[name].proposalId != 0 && Consistent(p[name])
    ensures Observed(p, name, ps).Keys == p.Keys
    ensures forall n :: n in p && n != name ==> Observed(p, name, ps)[n] == p[n]
    ensures Consistent(Observed(p, name, ps)[name])
    ensures Complete(p[name]) ==> Complete(Observed(p, name, ps)[name])
    ensures Observed(p, name, ps)[name].proposalId == p[name].proposalId
    ensures Terminal(p[name].status) ==> HistoryKept(p[name], Observed(p, name, ps)[name])
  {
  }

  /** Recording the first terminal answer makes the cached status that answer, submission time aside. */
  lemma FirstTerminalSettles(p: Proposals, name: string, ps: ProposalStatus)
    requires name in p && Consistent(p[name]) && !Terminal(p[name].status)
    requires Terminal(ps.state)
    ensures SettledStatus(Observed(p, name, ps)[name]) == Some(ps.(submittedAt := ""))
  {
  }

  /** A line printed from the cache is the line the query printed. */
  lemma CachedLineIsQueriedLine(p: Proposals, name: string, ps: ProposalStatus, later: Entry)
    requires name in p && Consistent(p[name]) && !Terminal(p[name].status)
    requires Terminal(ps.state)
    requires HistoryKept(Observed(p, name, ps)[name], later)
    ensures LineOf(name, later, SettledStatus(later)) == LineOf(name, p[name], Some(ps))
  {
    FirstTerminalSettles(p, name, ps);
  }

  /** A non-terminal answer settles nothing: the entry is queried again. */
  lemma SettledIffTerminalOutcome(p: Proposals, name: string, ps: ProposalStatus)
    requires name in p && Consistent(p[name])
    ensures SettledStatus(Observed(p, name, ps)[name]).Some? <==>
      SettledStatus(p[name]).Some? || Terminal(ps.state)
  {
  }
}
