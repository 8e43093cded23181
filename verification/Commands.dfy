/**
 The commands that write the state file - apply, import, status, and the chip check of reconcile - as
 steps over the chain and the file (cmd/alp/main.go, nns/submit.go), run one at a time, with failures
 and crashes between any two effects. Exec is what one command does to the world; the methods of
 Workspace run the commands in effect order over real files and are proved to do it; the theorems are
 about every run.
 */
module Commands {
  import Preflights
  import opened SaveFile
  import opened State
  import opened Wrappers
  import Chips

  /** One proposal the chain accepted: under which name, forced or not, and whether its entry reached disk. */
  datatype Submission = Submission(name: string, id: nat, forced: bool, saved: bool)

  datatype Import = Import(name: string, id: nat)

  datatype Query = Query(name: string, refresh: bool)

  /** One chip check: the chips AMD was asked about, once each, and whether their verdicts reached disk. */
  datatype Check = Check(asked: set<Chips.ChipId>, refresh: bool, saved: bool)

  /** disk and chips are what the state file decodes to; the rest is history the tool itself does not keep. */
  datatype World = World(
    disk: Proposals, chips: Chips.Cache,
    chain: seq<Submission>, imports: seq<Import>, queries: seq<Query>, checks: seq<Check>)

  const EMPTY := World(map[], map[], [], [], [], [])

  // What the outside answers during one command.

  /** dryRun None is --skip-dry-run, preflight None one that failed; yes is the flag and confirmed the typed word. */
  datatype Gates = Gates(dryRun: Option<bool>, access: bool, preflight: Option<Preflights.Level>, yes: bool, confirmed: bool)

  predicate Passes(g: Gates, force: bool) {
    && g.dryRun != Some(false)
    && g.access
    && g.preflight != None
    && (g.preflight == Some(Preflights.NoOp) ==> force)
    && g.yes && g.confirmed
  }

  /** ReplyLost: the proposal is live, but the submitter saw an error or the process died before the reply. */
  datatype SubmitReply = Rejected | ReplyLost(id: nat) | Accepted(id: nat)

  /** What one status query returns; Unresolved is neither governance nor dashboard knowing the id. */
  datatype Answer = QueryFailed | Unresolved | Found(status: ProposalStatus)

  datatype Visit = Visit(name: string, answer: Answer)

  /** fate is what becomes of the command's save, if it comes to one. */
  datatype Command =
    | Apply(args: RecordArgs, force: bool, gates: Gates, reply: SubmitReply, fate: Fate)
    | ImportCmd(args: RecordArgs, id: nat, fate: Fate)
    | Status(visits: seq<Visit>, refresh: bool, noRecord: bool, fate: Fate)
    | VerifyChips(requested: seq<Chips.ChipId>, mode: Chips.Mode, f: Chips.Amd, fate: Fate)

  // One command.

  function ExecApply(w: World, args: RecordArgs, force: bool, gates: Gates, reply: SubmitReply, fate: Fate): World {
    if !ApplyDecision(w.disk, args.name, args.hash, force).Proceed? || !Passes(gates, force) then w
    else match reply
      case Rejected => w
      case ReplyLost(id) => w.(chain := w.chain + [Submission(args.name, id, force, false)])
      case Accepted(id) =>
        w.(chain := w.chain + [Submission(args.name, id, force, Landed(fate))],
           disk := if Landed(fate) then w.disk[args.name := NewEntry(args, id)] else w.disk)
  }

  function ExecImport(w: World, args: RecordArgs, id: nat, fate: Fate): World {
    match Imported(w.disk, args, id)
    case Err(_) => w
    case Ok(p) => if Landed(fate) then w.(disk := p, imports := w.imports + [Import(args.name, id)]) else w
  }

  predicate Skipped(p: Proposals, v: Visit, refresh: bool) {
    v.name !in p || p[v.name].proposalId == 0 || (SettledStatus(p[v.name]).Some? && !refresh)
  }

  /** One proposal of the status loop: the in-memory proposals after it. */
  function Visited(p: Proposals, v: Visit, refresh: bool): Proposals {
    if Skipped(p, v, refresh) then p
    else match v.answer
      case Found(ps) => Observed(p, v.name, ps)
      case _ => p
  }

  function VisitQueries(p: Proposals, v: Visit, refresh: bool): seq<Query> {
    if Skipped(p, v, refresh) then [] else [Query(v.name, refresh)]
  }

  /** The line it prints. */
  function VisitLine(p: Proposals, v: Visit, refresh: bool): Line {
    if v.name !in p || p[v.name].proposalId == 0 then NotSubmittedLine(v.name)
    else
      var e := p[v.name];
      if SettledStatus(e).Some? && !refresh then LineOf(v.name, e, SettledStatus(e))
      else match v.answer
        case QueryFailed => QueryFailedLine(v.name, e.proposalId)
        case Unresolved => LineOf(v.name, e, None)
        case Found(ps) => LineOf(v.name, e, Some(ps))
  }

  function AllVisited(p: Proposals, visits: seq<Visit>, refresh: bool): Proposals {
    if visits == [] then p
    else Visited(AllVisited(p, visits[..|visits| - 1], refresh), visits[|visits| - 1], refresh)
  }

  function AllQueries(p: Proposals, visits: seq<Visit>, refresh: bool): seq<Query> {
    if visits == [] then []
    else AllQueries(p, visits[..|visits| - 1], refresh)
         + VisitQueries(AllVisited(p, visits[..|visits| - 1], refresh), visits[|visits| - 1], refresh)
  }

  /** The line a status run prints at its i-th turn. */
  function Printed(p: Proposals, visits: seq<Visit>, refresh: bool, i: nat): Line
    requires i < |visits|
  {
    VisitLine(AllVisited(p, visits[..i], refresh), visits[i], refresh)
  }

  function ExecStatus(w: World, visits: seq<Visit>, refresh: bool, noRecord: bool, fate: Fate): World {
    w.(disk := if noRecord || !Landed(fate) then w.disk else AllVisited(w.disk, visits, refresh),
       queries := w.queries + AllQueries(w.disk, visits, refresh))
  }

  function ExecVerifyChips(w: World, requested: seq<Chips.ChipId>, mode: Chips.Mode, f: Chips.Amd, fate: Fate): World {
    var asked := Chips.Asks(w.chips, requested, mode);
    w.(chips := if Landed(fate) then Chips.NextCache(w.chips, asked, mode, f) else w.chips,
       checks := w.checks + [Check(asked, mode.refresh, Landed(fate))])
  }

  function Exec(w: World, c: Command): World {
    match c
    case Apply(args, force, gates, reply, fate) => ExecApply(w, args, force, gates, reply, fate)
    case ImportCmd(args, id, fate) => ExecImport(w, args, id, fate)
    case Status(visits, refresh, noRecord, fate) => ExecStatus(w, visits, refresh, noRecord, fate)
    case VerifyChips(requested, mode, f, fate) => ExecVerifyChips(w, requested, mode, f, fate)
  }

  function Run(w: World, cmds: seq<Command>): World {
    if |cmds| == 0 then w else Exec(Run(w, cmds[..|cmds| - 1]), cmds[|cmds| - 1])
  }

  // The commands themselves, effect by effect, over files.

  class Workspace {
    const fs: FileSystem
    const path: string
    const codec: Codec
    var chain: seq<Submission>
    var imports: seq<Import>
    var queries: seq<Query>
    var checks: seq<Check>
    /** What the state file holds. */
    ghost var saved: Saved

    /** At every moment the state file is absent with nothing recorded, or complete. */
    ghost predicate Valid()
      reads this, fs
    {
      Faithful(codec) && Holds(fs.files, path, codec, saved)
    }

    ghost function View(): World
      reads this
    {
      World(saved.proposals, saved.chips, chain, imports, queries, checks)
    }

    constructor (fs: FileSystem, path: string, codec: Codec)
      requires Faithful(codec) && path !in fs.files
      ensures Valid() && View() == EMPTY
      ensures this.fs == fs && this.path == path && this.codec == codec
    {
      this.fs, this.path, this.codec := fs, path, codec;
      chain, imports, queries, checks, saved := [], [], [], [], NOTHING;
    }

    method Load() returns (s: Saved)
      requires Valid()
      ensures s == saved
    {
      var r := fs.LoadState(path, codec, false);
      s := r.value;
    }

    method Save(s: Saved, fate: Fate) returns (r: SaveResult)
      requires Valid()
      modifies this`saved, fs
      ensures Valid() && saved == if Landed(fate) then s else old(saved)
      ensures r == Written ==> Landed(fate)
      ensures r == Failed ==> !Landed(fate)
    {
      r := fs.SaveState(path, s, codec, fate);
      if Landed(fate) {
        saved := s;
      }
    }

    /** Submit, then record in memory, then save: nothing is recorded for a submission that did not happen. */
    method SubmitAndRecord(st: State, args: RecordArgs, force: bool, reply: SubmitReply, fate: Fate)
      returns (r: Option<nat>)
      requires Valid() && st.proposals == saved.proposals
      modifies this`chain, this`saved, fs, st
      ensures Valid()
      ensures reply.Rejected? ==> View() == old(View()) && st.proposals == old(st.proposals) && r == None
      ensures reply.ReplyLost? ==>
        View() == old(View()).(chain := old(chain) + [Submission(args.name, reply.id, force, false)])
        && st.proposals == old(st.proposals) && r == None
      ensures reply.Accepted? ==>
        && st.proposals == old(st.proposals)[args.name := NewEntry(args, reply.id)]
        && View() == old(View()).(chain := old(chain) + [Submission(args.name, reply.id, force, Landed(fate))],
                                  disk := if Landed(fate) then st.proposals else old(saved.proposals))
        && r == Some(reply.id)
    {
      match reply {
        case Rejected => return None;
        case ReplyLost(id) =>
          chain := chain + [Submission(args.name, id, force, false)];
          return None;
        case Accepted(id) =>
          chain := chain + [Submission(args.name, id, force, Landed(fate))];
          st.proposals := st.proposals[args.name := NewEntry(args, id)];
          var before := Load();
          var _ := Save(Saved(st.proposals, before.chips), fate);
          return Some(id);
      }
    }

    method RunApply(args: RecordArgs, force: bool, gates: Gates, reply: SubmitReply, fate: Fate)
      requires Valid()
      modifies this`chain, this`saved, fs
      ensures Valid() && View() == ExecApply(old(View()), args, force, gates, reply, fate)
      ensures !gates.yes || !gates.confirmed || !gates.access || gates.dryRun == Some(false) ==> View() == old(View())
      ensures gates.preflight == None || (gates.preflight == Some(Preflights.NoOp) && !force) ==> View() == old(View())
    {
      var loaded := Load();
      var st := new State(loaded.proposals);
      var verdict := ApplyDecision(st.proposals, args.name, args.hash, force);
      if !verdict.Proceed? {
        return;
      }
      if gates.dryRun == Some(false) {
        return;
      }
      if !gates.access {
        return;
      }
      if gates.preflight == None || (gates.preflight == Some(Preflights.NoOp) && !force) {
        return;
      }
      if !gates.yes {
        return;
      }
      if !gates.confirmed {
        return;
      }
      assert Passes(gates, force);
      var _ := SubmitAndRecord(st, args, force, reply, fate);
    }

    method RunImport(args: RecordArgs, id: nat, fate: Fate)
      requires Valid()
      modifies this`imports, this`saved, fs
      ensures Valid() && View() == ExecImport(old(View()), args, id, fate)
    {
      var loaded := Load();
      var st := new State(loaded.proposals);
      var r := st.Import(args, id);
      if r.Err? {
        return;
      }
      assert st.proposals == saved.proposals[args.name := NewEntry(args, id)];
      var _ := Save(Saved(st.proposals, loaded.chips), fate);
      if Landed(fate) {
        imports := imports + [Import(args.name, id)];
      }
    }

    /** One turn of the status loop: settled entries are printed from the record, others are queried. */
    method VisitOne(st: State, v: Visit, refresh: bool) returns (changed: bool, line: Line)
      modifies this`queries, st
      ensures st.proposals == Visited(old(st.proposals), v, refresh)
      ensures queries == old(queries) + VisitQueries(old(st.proposals), v, refresh)
      ensures line == VisitLine(old(st.proposals), v, refresh)
      ensures !changed ==> st.proposals == old(st.proposals)
    {
      if v.name !in st.proposals || st.proposals[v.name].proposalId == 0 {
        return false, NotSubmittedLine(v.name);
      }
      var entry := st.proposals[v.name];
      var settled := SettledStatus(entry);
      if settled.Some? && !refresh {
        return false, LineOf(v.name, entry, settled);
      }
      queries := queries + [Query(v.name, refresh)];
      match v.answer {
        case QueryFailed => return false, QueryFailedLine(v.name, entry.proposalId);
        case Unresolved => return false, LineOf(v.name, entry, None);
        case Found(ps) =>
          var c1 := st.RecordState(v.name, ps.state, ps.resolvedAt);
          var c2 := st.RecordSubmittedAt(v.name, ps.submittedAt);
          var c3 := st.RecordOutcome(v.name, ps.state, ps.ToOutcome());
          return c1 || c2 || c3, LineOf(v.name, entry, Some(ps));
      }
    }

    /** The loop prints one line per proposal and saves once, at the end, if some answer changed something. */
    method RunStatus(visits: seq<Visit>, refresh: bool, noRecord: bool, fate: Fate) returns (lines: seq<Line>)
      requires Valid()
      modifies this`queries, this`saved, fs
      ensures Valid() && View() == ExecStatus(old(View()), visits, refresh, noRecord, fate)
      ensures |lines| == |visits|
      ensures forall i :: 0 <= i < |lines| ==> lines[i] == Printed(old(saved.proposals), visits, refresh, i)
      ensures forall i :: 0 <= i < |lines| ==>
        Reports(lines[i], AllVisited(old(saved.proposals), visits[..i], refresh), visits[i], refresh)
      ensures Once(visits) ==> forall i :: 0 <= i < |lines| ==> Reports(lines[i], old(saved.proposals), visits[i], refresh)
    {
      hide Visited, VisitLine, Holds, Faithful, Reports, Once;
      lines := [];
      var loaded := Load();
      var st := new State(loaded.proposals);
      var changed := false;
      for i := 0 to |visits|
        invariant Valid() && saved == old(saved)
        invariant fresh(st)
        invariant st.proposals == AllVisited(saved.proposals, visits[..i], refresh)
        invariant queries == old(queries) + AllQueries(saved.proposals, visits[..i], refresh)
        invariant |lines| == i
        invariant forall j :: 0 <= j < i ==> lines[j] == Printed(saved.proposals, visits, refresh, j)
        invariant !changed ==> st.proposals == saved.proposals
      {
        var v := visits[i];
        assert visits[..i + 1][..i] == visits[..i];
        assert visits[..i + 1][i] == v;
        var c, line := VisitOne(st, v, refresh);
        changed := changed || c;
        lines := lines + [line];
      }
      assert visits[..|visits|] == visits;
      forall i | 0 <= i < |visits|
        ensures Reports(lines[i], AllVisited(saved.proposals, visits[..i], refresh), visits[i], refresh)
        ensures Once(visits) ==> Reports(lines[i], saved.proposals, visits[i], refresh)
      {
        PrintedReports(saved.proposals, visits, refresh, i);
      }
      if changed && !noRecord {
        var _ := Save(Saved(st.proposals, loaded.chips), fate);
      }
    }

    /** reconcile's chip check: it rewrites the chip half of the file, if some verdict changed it. */
    method RunVerifyChips(requested: seq<Chips.ChipId>, mode: Chips.Mode, f: Chips.Amd, fate: Fate)
      requires Valid()
      modifies this`checks, this`saved, fs
      ensures Valid() && View() == ExecVerifyChips(old(View()), requested, mode, f, fate)
    {
      var loaded := Load();
      var st := new Chips.ChipState(loaded.chips);
      var _, asked := st.VerifyChips(requested, f, mode);
      var lookups := set chip | chip in asked;
      checks := checks + [Check(lookups, mode.refresh, Landed(fate))];
      Chips.RecordedOneWay(loaded.chips, st.chips, Chips.Asks(loaded.chips, requested, mode), mode, f);
      if st.chips != loaded.chips {
        var _ := Save(Saved(loaded.proposals, st.chips), fate);
      }
    }

    method RunCommand(c: Command)
      requires Valid()
      modifies this`chain, this`imports, this`queries, this`checks, this`saved, fs
      ensures Valid() && View() == Exec(old(View()), c)
    {
      match c {
        case Apply(args, force, gates, reply, fate) => RunApply(args, force, gates, reply, fate);
        case ImportCmd(args, id, fate) => RunImport(args, id, fate);
        case Status(visits, refresh, noRecord, fate) => var _ := RunStatus(visits, refresh, noRecord, fate);
        case VerifyChips(requested, mode, f, fate) => RunVerifyChips(requested, mode, f, fate);
      }
    }

    /**
     Any run of commands, each with its own failures and crashes, one process after another: the state
     file is absent with nothing recorded, or the whole encoding of what Run says is recorded, and the
     chain, the imports, the queries and the chip checks are Run's.
     */
    method RunCommands(cmds: seq<Command>)
      requires Valid()
      modifies this`chain, this`imports, this`queries, this`checks, this`saved, fs
      ensures Valid() && View() == Run(old(View()), cmds)
      ensures var w := Run(old(View()), cmds);
        Holds(fs.files, path, codec, Saved(w.disk, w.chips))
    {
      hide Exec, Holds, Faithful;
      for i := 0 to |cmds|
        invariant Valid() && View() == Run(old(View()), cmds[..i])
      {
        assert cmds[..i + 1] == cmds[..i] + [cmds[i]];
        RunLast(old(View()), cmds[..i], cmds[i]);
        RunCommand(cmds[i]);
      }
      assert cmds[..|cmds|] == cmds;
    }
  }

  // What one command prints and records, read off its inputs.

  /** The line of one turn: of a record that is settled, of an answer, or of the lack of either. */
  ghost predicate Reports(l: Line, p: Proposals, v: Visit, refresh: bool) {
    if v.name !in p || p[v.name].proposalId == 0 then l == NotSubmittedLine(v.name)
    else
      var e := p[v.name];
      if !Queries(p, v.name, refresh) then
        var o := e.outcome.value;
        Tells(l, v.name, e.proposalId, o.statusLabel, o.source, o.yes, o.no, o.total, o.failure)
      else match v.answer
        case QueryFailed => l == QueryFailedLine(v.name, e.proposalId)
        case Unresolved => l == UnknownLine(v.name, e.proposalId)
        case Found(s) => Tells(l, v.name, e.proposalId, s.statusLabel, s.source, s.yes, s.no, s.total, s.failure)
  }

  /** What a status run asks about: the submitted, unless the result is on record and no refresh is wanted. */
  ghost predicate Queries(p: Proposals, name: string, refresh: bool) {
    name in p && p[name].proposalId != 0 && (refresh || !Terminal(p[name].status) || p[name].outcome == None)
  }

  /** No proposal has two turns. */
  ghost predicate Once(visits: seq<Visit>) {
    forall i, j :: 0 <= i < j < |visits| ==> visits[i].name != visits[j].name
  }

  lemma SkippedMeans(p: Proposals, v: Visit, refresh: bool)
    ensures Skipped(p, v, refresh) <==> !Queries(p, v.name, refresh)
  {
  }

  lemma VisitReports(p: Proposals, v: Visit, refresh: bool)
    ensures Reports(VisitLine(p, v, refresh), p, v, refresh)
  {
    hide LineOf, SettledStatus, Tells;
    if v.name in p {
      SettledTells(v.name, p[v.name]);
      if v.answer.Found? {
        LineTells(v.name, p[v.name], v.answer.status);
      } else {
        LineOfNone(v.name, p[v.name]);
      }
    }
  }

  lemma LineOfNone(name: string, e: Entry)
    ensures LineOf(name, e, None) == UnknownLine(name, e.proposalId)
  {
  }

  /** Visits to others leave an entry, or its absence, as it is. */
  lemma {:induction false} OthersUntouched(p: Proposals, visits: seq<Visit>, refresh: bool, name: string)
    requires forall i :: 0 <= i < |visits| ==> visits[i].name != name
    ensures var q := AllVisited(p, visits, refresh);
      (name in q <==> name in p) && (name in p ==> q[name] == p[name])
  {
    if visits != [] {
      hide Skipped, Observed;
      var front, v := visits[..|visits| - 1], visits[|visits| - 1];
      OthersUntouched(p, front, refresh, name);
      var q := AllVisited(p, front, refresh);
      if !Skipped(q, v, refresh) && v.answer.Found? {
        SkippedMeans(q, v, refresh);
        ObservedMeans(q, v.name, v.answer.status);
      }
    }
  }

  lemma PrintedReports(p: Proposals, visits: seq<Visit>, refresh: bool, i: nat)
    requires i < |visits|
    ensures Reports(Printed(p, visits, refresh, i), AllVisited(p, visits[..i], refresh), visits[i], refresh)
    ensures Once(visits) ==> Reports(Printed(p, visits, refresh, i), p, visits[i], refresh)
  {
    hide AllVisited, VisitLine, Tells;
    VisitReports(AllVisited(p, visits[..i], refresh), visits[i], refresh);
    if Once(visits) {
      OthersUntouched(p, visits[..i], refresh, visits[i].name);
    }
  }

  /** A status run asks about exactly the submitted and unsettled, or all that are submitted on a refresh. */
  lemma {:induction false} QueriesExact(p: Proposals, visits: seq<Visit>, refresh: bool, q: Query)
    requires Once(visits)
    ensures q in AllQueries(p, visits, refresh) <==>
      q.refresh == refresh && Queries(p, q.name, refresh) && exists i :: 0 <= i < |visits| && visits[i].name == q.name
  {
    if visits != [] {
      hide Skipped, AllVisited, Queries;
      var front, v := visits[..|visits| - 1], visits[|visits| - 1];
      QueriesExact(p, front, refresh, q);
      SkippedMeans(AllVisited(p, front, refresh), v, refresh);
      OthersUntouched(p, front, refresh, v.name);
      SameQueries(p, AllVisited(p, front, refresh), v.name, refresh);
      assert forall i :: 0 <= i < |front| ==> front[i] == visits[i];
      assert (exists i :: 0 <= i < |visits| && visits[i].name == q.name) <==>
        v.name == q.name || exists i :: 0 <= i < |front| && front[i].name == q.name;
    }
  }

  /** And never twice. */
  lemma {:induction false} QueriedOnce(p: Proposals, visits: seq<Visit>, refresh: bool)
    requires Once(visits)
    ensures var qs := AllQueries(p, visits, refresh); forall i, j :: 0 <= i < j < |qs| ==> qs[i] != qs[j]
  {
    if visits != [] {
      hide Skipped, AllVisited, Queries;
      var front, v := visits[..|visits| - 1], visits[|visits| - 1];
      QueriedOnce(p, front, refresh);
      QueriesExact(p, front, refresh, Query(v.name, refresh));
      assert forall i :: 0 <= i < |front| ==> front[i].name != v.name;
    }
  }

  lemma SameQueries(p: Proposals, q: Proposals, name: string, refresh: bool)
    requires (name in q <==> name in p) && (name in p ==> q[name] == p[name])
    ensures Queries(p, name, refresh) <==> Queries(q, name, refresh)
  {
  }

  /**
   What a status run leaves on disk of the proposal at turn i: an answer is taken up, every other entry
   stands, and nothing changes without a save.
   */
  lemma StatusRecords(w: World, visits: seq<Visit>, i: nat, refresh: bool, noRecord: bool, fate: Fate)
    requires Once(visits) && i < |visits|
    ensures var w' := Exec(w, Status(visits, refresh, noRecord, fate));
      w' == w.(disk := w'.disk, queries := w.queries + AllQueries(w.disk, visits, refresh))
    ensures var name, disk := visits[i].name, Exec(w, Status(visits, refresh, noRecord, fate)).disk;
      && (noRecord || !Landed(fate) ==> disk == w.disk)
      && (name in disk <==> name in w.disk)
      && (name in w.disk ==>
            if !noRecord && Landed(fate) && Queries(w.disk, name, refresh) && visits[i].answer.Found?
            then TakesUp(w.disk[name], disk[name], visits[i].answer.status)
            else disk[name] == w.disk[name])
  {
    hide Skipped, Observed, AllVisited, Landed, TakesUp, Queries;
    if !noRecord && Landed(fate) {
      var v, before := visits[i], AllVisited(w.disk, visits[..i], refresh);
      OthersUntouched(w.disk, visits[..i], refresh, v.name);
      SameQueries(w.disk, before, v.name, refresh);
      SkippedMeans(before, v, refresh);
      VisitAt(w.disk, visits, refresh, i);
      if Queries(before, v.name, refresh) {
        QueriesKnown(before, v.name, refresh);
        if v.answer.Found? {
          ObservedMeans(before, v.name, v.answer.status);
        }
      }
      VisitsSplit(w.disk, visits[..i + 1], visits[i + 1..], refresh);
      assert visits[..i + 1] + visits[i + 1..] == visits;
      OthersUntouched(AllVisited(w.disk, visits[..i + 1], refresh), visits[i + 1..], refresh, v.name);
    }
  }

  lemma QueriesKnown(p: Proposals, name: string, refresh: bool)
    requires Queries(p, name, refresh)
    ensures name in p
  {
  }

  lemma VisitAt(p: Proposals, visits: seq<Visit>, refresh: bool, i: nat)
    requires i < |visits|
    ensures AllVisited(p, visits[..i + 1], refresh) == Visited(AllVisited(p, visits[..i], refresh), visits[i], refresh)
  {
    assert visits[..i + 1][..i] == visits[..i];
  }

  /**
   What an apply does, gate by gate: past all of them, and with no submission on record or a forced one
   that may be repeated, it submits under its own name and, if its save lands, leaves its own entry.
   */
  lemma ApplyMeans(w: World, args: RecordArgs, force: bool, gates: Gates, reply: SubmitReply, fate: Fate)
    ensures var w' := Exec(w, Apply(args, force, gates, reply, fate));
      var through := gates.yes && gates.confirmed && gates.access && gates.dryRun != Some(false)
                     && gates.preflight.Some? && (gates.preflight == Some(Preflights.NoOp) ==> force);
      var free := args.name !in w.disk || w.disk[args.name].proposalId == 0
                  || (force && w.disk[args.name].status !in {"executed", "rejected", "failed"});
      if !through || !free || reply.Rejected? then w' == w
      else
        && w' == w.(chain := w'.chain, disk := w'.disk) && |w'.chain| == |w.chain| + 1 && w.chain <= w'.chain
        && var s := w'.chain[|w.chain|];
        && s.name == args.name && s.id == reply.id && s.forced == force && s.saved == (reply.Accepted? && Landed(fate))
        && if s.saved then OneEntry(w.disk, w'.disk, args, reply.id) else w'.disk == w.disk
  {
    hide Landed;
    TerminalMeans(if args.name in w.disk then w.disk[args.name].status else "");
    NewEntryMeans(args, if reply.Rejected? then 0 else reply.id);
  }

  /** One entry is written, and it is this submission's. */
  ghost predicate OneEntry(before: Proposals, after: Proposals, args: RecordArgs, id: nat) {
    && after.Keys == before.Keys + {args.name} && EntryOf(after[args.name], args, id)
    && forall n :: n in before && n != args.name ==> after[n] == before[n]
  }

  /** What an import does: under a new name, with a real id, and if its save lands, it leaves its own entry. */
  lemma ImportMeans(w: World, args: RecordArgs, id: nat, fate: Fate)
    ensures var w' := Exec(w, ImportCmd(args, id, fate));
      if id == 0 || args.name in w.disk || !Landed(fate) then w' == w
      else
        && w' == w.(imports := w'.imports, disk := w'.disk)
        && w'.imports == w.imports + [Import(args.name, id)] && OneEntry(w.disk, w'.disk, args, id)
  {
    hide Landed;
    NewEntryMeans(args, id);
  }

  /**
   What a chip check leaves on disk of a chip: AMD's word, with its product and the time, where it was
   asked and vouches; nothing where a refresh was answered with a refusal; otherwise what there was.
   */
  lemma ChipMeans(w: World, requested: seq<Chips.ChipId>, mode: Chips.Mode, f: Chips.Amd, fate: Fate, chip: Chips.ChipId)
    ensures var w' := Exec(w, VerifyChips(requested, mode, f, fate));
      var asked := chip in requested && chip != "" && (mode.refresh || !(chip in w.chips && w.chips[chip].verified));
      && w' == w.(chips := w'.chips, checks := w'.checks) && |w'.checks| == |w.checks| + 1 && w.checks <= w'.checks
      && (chip in w'.checks[|w.checks|].asked <==> asked)
      && if Landed(fate) && asked && f(chip).verified then
           && chip in w'.chips && w'.chips[chip].verified
           && w'.chips[chip].product == f(chip).product && w'.chips[chip].verifiedAt == mode.clock(chip)
         else if Landed(fate) && asked && mode.refresh && !f(chip).inconclusive then chip !in w'.chips
         else (chip in w'.chips <==> chip in w.chips) && (chip in w.chips ==> w'.chips[chip] == w.chips[chip])
  {
    hide Landed;
  }

  lemma RunLast(w: World, cmds: seq<Command>, c: Command)
    ensures Run(w, cmds + [c]) == Exec(Run(w, cmds), c)
  {
    assert (cmds + [c])[..|cmds|] == cmds;
  }

  // Invariants of every run.

  /** A saved id was returned by a submission that was recorded, or was given to import. */
  ghost predicate Known(w: World, name: string, id: nat) {
    Import(name, id) in w.imports || exists forced :: Submission(name, id, forced, true) in w.chain
  }

  ghost predicate Inv(w: World) {
    forall n :: n in w.disk ==> Consistent(w.disk[n]) && Known(w, n, w.disk[n].proposalId)
  }

  ghost predicate AllComplete(p: Proposals) {
    forall n :: n in p ==> Complete(p[n])
  }

  /** Recording answers rewrites entries, but never adds one, drops one, or changes whose proposal it is. */
  lemma VisitKeeps(p: Proposals, v: Visit, refresh: bool)
    requires forall n :: n in p ==> Consistent(p[n])
    ensures Visited(p, v, refresh).Keys == p.Keys
    ensures forall n :: n in p ==> Consistent(Visited(p, v, refresh)[n])
    ensures forall n :: n in p ==> Visited(p, v, refresh)[n].proposalId == p[n].proposalId
    ensures forall n :: n in p && Terminal(p[n].status) ==> HistoryKept(p[n], Visited(p, v, refresh)[n])
    ensures AllComplete(p) ==> AllComplete(Visited(p, v, refresh))
  {
    hide Observed, Terminal, HistoryKept, Consistent;
    if !Skipped(p, v, refresh) && v.answer.Found? {
      ConsistentId(p[v.name]);
      ObservedKeeps(p, v.name, v.answer.status);
      forall n | n in p && Terminal(p[n].status) ensures HistoryKept(p[n], Visited(p, v, refresh)[n]) {
        HistoryKeptReflexive(p[n]);
      }
    } else {
      forall n | n in p ensures HistoryKept(p[n], p[n]) {
        HistoryKeptReflexive(p[n]);
      }
    }
  }

  lemma HistoryKeptReflexive(e: Entry)
    ensures HistoryKept(e, e)
  {
  }

  lemma {:induction false} VisitsKeep(p: Proposals, visits: seq<Visit>, refresh: bool)
    requires forall n :: n in p ==> Consistent(p[n])
    ensures AllVisited(p, visits, refresh).Keys == p.Keys
    ensures forall n :: n in p ==> Consistent(AllVisited(p, visits, refresh)[n])
    ensures forall n :: n in p ==> AllVisited(p, visits, refresh)[n].proposalId == p[n].proposalId
    ensures forall n :: n in p && Terminal(p[n].status) ==> HistoryKept(p[n], AllVisited(p, visits, refresh)[n])
    ensures AllComplete(p) ==> AllComplete(AllVisited(p, visits, refresh))
  {
    hide Visited;
    if visits != [] {
      var front, v := visits[..|visits| - 1], visits[|visits| - 1];
      VisitsKeep(p, front, refresh);
      var q := AllVisited(p, front, refresh);
      VisitKeeps(q, v, refresh);
      forall n | n in p && Terminal(p[n].status) ensures HistoryKept(p[n], AllVisited(p, visits, refresh)[n]) {
        HistoryKeptTransitive(p[n], q[n], AllVisited(p, visits, refresh)[n]);
      }
    }
  }

  /** Recording one more entry, or none, keeps the invariant when its id is known. */
  lemma InvPut(w: World, w': World, a: RecordArgs, id: nat)
    requires Inv(w) && w.chain <= w'.chain && w.imports <= w'.imports
    requires w'.disk == w.disk || (w'.disk == w.disk[a.name := NewEntry(a, id)] && Known(w', a.name, id))
    ensures Inv(w') && (AllComplete(w.disk) ==> AllComplete(w'.disk))
  {
    hide Known;
    forall n | n in w.disk ensures Known(w', n, w.disk[n].proposalId) {
      KnownGrows(w, w', n, w.disk[n].proposalId);
    }
  }

  lemma InvExec(w: World, c: Command)
    requires Inv(w)
    ensures Inv(Exec(w, c))
    ensures AllComplete(w.disk) ==> AllComplete(Exec(w, c).disk)
  {
    hide ApplyDecision, Passes, AllVisited, AllQueries, NewEntry, Inv, AllComplete;
    var w' := Exec(w, c);
    match c
    case Apply(args, force, _, reply, _) =>
      if !reply.Rejected? {
        assert w'.disk == w.disk || Submission(args.name, reply.id, force, true) in w'.chain;
        InvPut(w, w', args, reply.id);
      }
    case ImportCmd(args, id, _) =>
      assert w'.disk == w.disk || Import(args.name, id) in w'.imports;
      InvPut(w, w', args, id);
    case Status(visits, refresh, _, _) => InvStatus(w, w', visits, refresh);
    case VerifyChips(_, _, _, _) => InvStatus(w, w', [], false);
  }

  lemma InvStatus(w: World, w': World, visits: seq<Visit>, refresh: bool)
    requires Inv(w) && w.chain == w'.chain && w.imports == w'.imports
    requires w'.disk == w.disk || w'.disk == AllVisited(w.disk, visits, refresh)
    ensures Inv(w') && (AllComplete(w.disk) ==> AllComplete(w'.disk))
  {
    VisitsKeep(w.disk, visits, refresh);
    forall n | n in w.disk ensures Known(w', n, w.disk[n].proposalId) {
      KnownGrows(w, w', n, w.disk[n].proposalId);
    }
  }

  lemma KnownGrows(w: World, w': World, name: string, id: nat)
    requires w.chain <= w'.chain && w.imports <= w'.imports
    requires Known(w, name, id)
    ensures Known(w', name, id)
  {
  }

  lemma {:induction false} InvRun(w: World, cmds: seq<Command>)
    requires Inv(w)
    ensures Inv(Run(w, cmds))
    ensures AllComplete(w.disk) ==> AllComplete(Run(w, cmds).disk)
  {
    if cmds != [] {
      InvRun(w, cmds[..|cmds| - 1]);
      InvExec(Run(w, cmds[..|cmds| - 1]), cmds[|cmds| - 1]);
    }
  }

  /** In every reachable state each saved id is real, and an entry has its outcome exactly when it is terminal. */
  lemma ReachableConsistent(cmds: seq<Command>)
    ensures Inv(Run(EMPTY, cmds)) && AllComplete(Run(EMPTY, cmds).disk)
  {
    InvRun(EMPTY, cmds);
  }

  // Terminal history.

  /** How many of a name's submissions are of a kind. */
  function CountOf(chain: seq<Submission>, name: string, kind: Submission -> bool): nat {
    if chain == [] then 0
    else
      var s := chain[|chain| - 1];
      CountOf(chain[..|chain| - 1], name, kind) + if s.name == name && kind(s) then 1 else 0
  }

  lemma CountAppend(chain: seq<Submission>, s: Submission, name: string, kind: Submission -> bool)
    ensures CountOf(chain + [s], name, kind) == CountOf(chain, name, kind) + if s.name == name && kind(s) then 1 else 0
  {
    assert (chain + [s])[..|chain|] == chain;
  }

  predicate Any(s: Submission) {
    true
  }

  lemma TerminalStep(w: World, c: Command, name: string)
    requires Inv(w) && name in w.disk && Terminal(w.disk[name].status)
    ensures name in Exec(w, c).disk && HistoryKept(w.disk[name], Exec(w, c).disk[name])
    ensures CountOf(Exec(w, c).chain, name, Any) == CountOf(w.chain, name, Any)
  {
    match c
    case Apply(args, force, gates, reply, fate) =>
      if Exec(w, c) != w {
        CountAppend(w.chain, Submission(args.name, reply.id, force, reply.Accepted? && Landed(fate)), name, Any);
      }
    case ImportCmd(_, _, _) =>
    case Status(visits, refresh, _, _) => VisitsKeep(w.disk, visits, refresh);
    case VerifyChips(_, _, _, _) =>
  }

  /**
   Once the saved entry of a name is terminal, over every further run: its kind, id, hash,
   submitter, neuron, host, status and resolution time stand, an outcome it has stands, and the
   chain accepts nothing more under that name, forced or not.
   */
  lemma {:induction false} TerminalHistoryStands(w: World, cmds: seq<Command>, name: string)
    requires Inv(w) && name in w.disk && Terminal(w.disk[name].status)
    ensures name in Run(w, cmds).disk && HistoryKept(w.disk[name], Run(w, cmds).disk[name])
    ensures CountOf(Run(w, cmds).chain, name, Any) == CountOf(w.chain, name, Any)
  {
    if cmds != [] {
      hide Exec, HistoryKept, Terminal;
      var front := cmds[..|cmds| - 1];
      TerminalHistoryStands(w, front, name);
      InvRun(w, front);
      HistoryKeptStatus(w.disk[name], Run(w, front).disk[name]);
      TerminalStep(Run(w, front), cmds[|cmds| - 1], name);
      HistoryKeptTransitive(w.disk[name], Run(w, front).disk[name], Run(w, cmds).disk[name]);
    } else {
      HistoryKeptReflexive(w.disk[name]);
    }
  }

  // What is printed, and what is asked.

  /**
   The first terminal answer of a name, once saved, settles its line: whatever runs in between, every
   later status run without --refresh prints for it, at whatever turn, the line printed with that answer.
   */
  lemma SettledResultIsServed(
    w: World, visits: seq<Visit>, i: nat, refresh: bool, fate: Fate, ps: ProposalStatus,
    later: seq<Command>, again: seq<Visit>, j: nat)
    requires Inv(w) && i < |visits| && visits[i].answer == Found(ps) && Terminal(ps.state)
    requires visits[i].name in w.disk
    requires !Skipped(AllVisited(w.disk, visits[..i], refresh), visits[i], refresh)
    requires !Terminal(AllVisited(w.disk, visits[..i], refresh)[visits[i].name].status)
    requires Landed(fate) && j < |again| && again[j].name == visits[i].name
    ensures var w' := Run(Exec(w, Status(visits, refresh, false, fate)), later);
      Printed(w'.disk, again, false, j) == Printed(w.disk, visits, refresh, i)
  {
    hide Visited, Observed, Exec, Run, AllVisited, Terminal, HistoryKept, LineOf, Consistent, SettledStatus;
    var name, c := visits[i].name, Status(visits, refresh, false, fate);
    var before, after := AllVisited(w.disk, visits[..i], refresh), AllVisited(w.disk, visits[..i + 1], refresh);
    VisitsKeep(w.disk, visits[..i], refresh);
    VisitsKeep(w.disk, visits[..i + 1], refresh);
    VisitObserves(w.disk, visits, i, refresh, ps);
    FirstTerminalSettles(before, name, ps);
    RestKeeps(w, visits, i + 1, refresh, fate);
    InvExec(w, c);
    var w1 := Exec(w, c);
    var w' := Run(w1, later);
    StaysSettled(after[name], w1.disk[name]);
    HistoryKeptStatus(after[name], w1.disk[name]);
    TerminalHistoryStands(w1, later, name);
    InvRun(w1, later);
    StaysSettled(w1.disk[name], w'.disk[name]);
    VisitsKeep(w'.disk, again[..j], false);
    var last := AllVisited(w'.disk, again[..j], false)[name];
    StaysSettled(w'.disk[name], last);
    HistoryKeptTransitive(after[name], w1.disk[name], w'.disk[name]);
    HistoryKeptTransitive(after[name], w'.disk[name], last);
    CachedLineIsQueriedLine(before, name, ps, last);
    ConsistentId(last);
  }

  lemma ConsistentId(e: Entry)
    requires Consistent(e)
    ensures SettledStatus(e).Some? ==> Terminal(e.status) && e.proposalId != 0
  {
  }

  /** A settled entry stays settled, with the same status, wherever its history is kept. */
  lemma StaysSettled(before: Entry, after: Entry)
    requires SettledStatus(before).Some?
    ensures Terminal(before.status)
    ensures HistoryKept(before, after) ==> SettledStatus(after) == SettledStatus(before)
  {
  }

  lemma HistoryKeptStatus(before: Entry, after: Entry)
    requires HistoryKept(before, after)
    ensures after.status == before.status
  {
  }

  lemma VisitObserves(p: Proposals, visits: seq<Visit>, i: nat, refresh: bool, ps: ProposalStatus)
    requires i < |visits| && visits[i].answer == Found(ps)
    requires !Skipped(AllVisited(p, visits[..i], refresh), visits[i], refresh)
    ensures AllVisited(p, visits[..i + 1], refresh) == Observed(AllVisited(p, visits[..i], refresh), visits[i].name, ps)
    ensures Printed(p, visits, refresh, i)
            == LineOf(visits[i].name, AllVisited(p, visits[..i], refresh)[visits[i].name], Some(ps))
  {
    hide Observed, LineOf;
    assert visits[..i + 1][..i] == visits[..i] && visits[..i + 1][i] == visits[i];
  }

  /** What the later visits of one status run leave of a terminal entry. */
  lemma RestKeeps(w: World, visits: seq<Visit>, i: nat, refresh: bool, fate: Fate)
    requires Inv(w) && i <= |visits| && Landed(fate)
    ensures var p, w' := AllVisited(w.disk, visits[..i], refresh), Exec(w, Status(visits, refresh, false, fate));
      p.Keys == w'.disk.Keys && forall n :: n in p && Terminal(p[n].status) ==> HistoryKept(p[n], w'.disk[n])
  {
    hide Visited;
    VisitsKeep(w.disk, visits[..i], refresh);
    VisitsSplit(w.disk, visits[..i], visits[i..], refresh);
    assert visits[..i] + visits[i..] == visits;
    VisitsKeep(AllVisited(w.disk, visits[..i], refresh), visits[i..], refresh);
  }

  lemma {:induction false} VisitsSplit(p: Proposals, a: seq<Visit>, b: seq<Visit>, refresh: bool)
    ensures AllVisited(p, a + b, refresh) == AllVisited(AllVisited(p, a, refresh), b, refresh)
  {
    if b == [] {
      assert a + b == a;
    } else {
      assert (a + b)[..|a + b| - 1] == a + b[..|b| - 1];
      VisitsSplit(p, a, b[..|b| - 1], refresh);
    }
  }

  /** Queries about a name made without --refresh. */
  function PlainQueries(queries: seq<Query>, name: string): nat {
    if queries == [] then 0
    else
      var q := queries[|queries| - 1];
      PlainQueries(queries[..|queries| - 1], name) + if q.name == name && !q.refresh then 1 else 0
  }

  lemma {:induction false} PlainConcat(a: seq<Query>, b: seq<Query>, name: string)
    ensures PlainQueries(a + b, name) == PlainQueries(a, name) + PlainQueries(b, name)
  {
    if b == [] {
      assert a + b == a;
    } else {
      assert (a + b)[..|a + b| - 1] == a + b[..|b| - 1];
      PlainConcat(a, b[..|b| - 1], name);
    }
  }

  lemma {:induction false} VisitsSkipSettled(p: Proposals, visits: seq<Visit>, refresh: bool, name: string)
    requires forall n :: n in p ==> Consistent(p[n])
    requires name in p && SettledStatus(p[name]).Some?
    ensures PlainQueries(AllQueries(p, visits, refresh), name) == 0
  {
    if visits != [] {
      hide Visited, AllVisited, Consistent, Terminal, SettledStatus, HistoryKept;
      var front, v := visits[..|visits| - 1], visits[|visits| - 1];
      VisitsSkipSettled(p, front, refresh, name);
      VisitsKeep(p, front, refresh);
      var q := AllVisited(p, front, refresh);
      StaysSettled(p[name], q[name]);
      PlainConcat(AllQueries(p, front, refresh), VisitQueries(q, v, refresh), name);
      assert PlainQueries(VisitQueries(q, v, refresh), name) == 0;
    }
  }

  /** Once settled on disk, a proposal stays settled and is not queried again without --refresh, whatever else runs. */
  lemma {:induction false} SettledNeverQueried(w: World, cmds: seq<Command>, name: string)
    requires Inv(w) && name in w.disk && SettledStatus(w.disk[name]).Some?
    ensures name in Run(w, cmds).disk && SettledStatus(Run(w, cmds).disk[name]) == SettledStatus(w.disk[name])
    ensures PlainQueries(Run(w, cmds).queries, name) == PlainQueries(w.queries, name)
  {
    hide Consistent, Terminal, SettledStatus, HistoryKept, PlainQueries, AllQueries;
    StaysSettled(w.disk[name], w.disk[name]);
    TerminalHistoryStands(w, cmds, name);
    StaysSettled(w.disk[name], Run(w, cmds).disk[name]);
    if cmds != [] {
      var front, c := cmds[..|cmds| - 1], cmds[|cmds| - 1];
      SettledNeverQueried(w, front, name);
      InvRun(w, front);
      if c.Status? {
        var v := Run(w, front);
        VisitsSkipSettled(v.disk, c.visits, c.refresh, name);
        PlainConcat(v.queries, AllQueries(v.disk, c.visits, c.refresh), name);
      }
    }
  }

  /** Every run keeps the chip half of the file in agreement with AMD, and no chip check touches the proposals. */
  lemma {:induction false} ChipsAgreeForever(w: World, cmds: seq<Command>, f: Chips.Amd)
    requires Chips.Agrees(w.chips, f)
    requires forall c :: c in cmds && c.VerifyChips? ==> c.f == f
    ensures Chips.Agrees(Run(w, cmds).chips, f)
  {
    if cmds != [] {
      hide ExecApply, ExecImport, ExecStatus, Chips.Agrees, Chips.NextCache, Chips.Updated, Chips.Asks;
      var front, c := cmds[..|cmds| - 1], cmds[|cmds| - 1];
      assert forall d :: d in front ==> d in cmds;
      ChipsAgreeForever(w, front, f);
      var v := Run(w, front);
      OnlyChipChecks(v, c);
      if c.VerifyChips? {
        assert c in cmds;
        var asked := Chips.Asks(v.chips, c.requested, c.mode);
        var next := Chips.NextCache(v.chips, asked, c.mode, f);
        Chips.RecordedOneWay(v.chips, next, asked, c.mode, f);
        Chips.AgreementKept(v.chips, next, asked, c.mode, f);
      }
    }
  }

  lemma OnlyChipChecks(w: World, c: Command)
    ensures
      if c.VerifyChips? then Exec(w, c) == w.(chips := Exec(w, c).chips, checks := Exec(w, c).checks)
      else Exec(w, c).chips == w.chips && Exec(w, c).checks == w.checks
  {
  }

  /** How often AMD was asked about a chip without --refresh-chips. */
  function PlainLookups(checks: seq<Check>, chip: Chips.ChipId): nat {
    if checks == [] then 0
    else
      var c := checks[|checks| - 1];
      PlainLookups(checks[..|checks| - 1], chip) + if chip in c.asked && !c.refresh then 1 else 0
  }

  /** Of those, the ones whose answer was lost with its save. */
  function LostLookups(checks: seq<Check>, chip: Chips.ChipId): nat {
    if checks == [] then 0
    else
      var c := checks[|checks| - 1];
      LostLookups(checks[..|checks| - 1], chip) + if chip in c.asked && !c.refresh && !c.saved then 1 else 0
  }

  lemma LookupsAppend(checks: seq<Check>, c: Check, chip: Chips.ChipId)
    ensures PlainLookups(checks + [c], chip) == PlainLookups(checks, chip) + if chip in c.asked && !c.refresh then 1 else 0
    ensures LostLookups(checks + [c], chip) ==
            LostLookups(checks, chip) + if chip in c.asked && !c.refresh && !c.saved then 1 else 0
  {
    assert (checks + [c])[..|checks|] == checks;
  }

  /** What a chip check logs, and what it does to the disk's verdict on a chip AMD vouches for. */
  lemma CheckStep(w: World, c: Command, chip: Chips.ChipId)
    requires c.VerifyChips? && c.f(chip).verified
    ensures
      var asked := Chips.Asks(w.chips, c.requested, c.mode);
      var vouched := Chips.Vouched(w.chips, chip);
      && Exec(w, c).checks == w.checks + [Check(asked, c.mode.refresh, Landed(c.fate))]
      && (chip in asked && vouched ==> c.mode.refresh)
      && (Chips.Vouched(Exec(w, c).chips, chip) <==> vouched || (chip in asked && Landed(c.fate)))
  {
    hide Landed;
  }

  lemma LookupsStep(w: World, c: Command, chip: Chips.ChipId, f: Chips.Amd)
    requires f(chip).verified && (c.VerifyChips? ==> c.f == f)
    requires PlainLookups(w.checks, chip) <= LostLookups(w.checks, chip) + if Chips.Vouched(w.chips, chip) then 1 else 0
    ensures var w' := Exec(w, c);
      PlainLookups(w'.checks, chip) <= LostLookups(w'.checks, chip) + if Chips.Vouched(w'.chips, chip) then 1 else 0
  {
    hide Exec, PlainLookups, LostLookups, Chips.Vouched, Chips.Asks;
    OnlyChipChecks(w, c);
    if c.VerifyChips? {
      CheckStep(w, c, chip);
      LookupsAppend(w.checks, Check(Chips.Asks(w.chips, c.requested, c.mode), c.mode.refresh, Landed(c.fate)), chip);
    }
  }

  /**
   Over every run, AMD is asked about a chip it vouches for, short of a refresh, at most once beyond the
   answers lost with their save.
   */
  lemma {:induction false} LookupsBounded(cmds: seq<Command>, chip: Chips.ChipId, f: Chips.Amd)
    requires f(chip).verified && forall c :: c in cmds && c.VerifyChips? ==> c.f == f
    ensures var w := Run(EMPTY, cmds);
      PlainLookups(w.checks, chip) <= LostLookups(w.checks, chip) + if Chips.Vouched(w.chips, chip) then 1 else 0
  {
    hide Exec, PlainLookups, LostLookups, Chips.Vouched;
    if |cmds| == 0 {
      NoLookups(chip);
    } else {
      var front := cmds[..|cmds| - 1];
      assert forall d :: d in front ==> d in cmds;
      assert cmds[|cmds| - 1] in cmds;
      LookupsBounded(front, chip, f);
      LookupsStep(Run(EMPTY, front), cmds[|cmds| - 1], chip, f);
    }
  }

  lemma NoLookups(chip: Chips.ChipId)
    ensures PlainLookups([], chip) == 0
  {
  }

  // How often a name can be submitted.

  /** Neither forced nor lost: a submission only the guard can have let through, and its entry reached disk. */
  predicate Plain(s: Submission) {
    !s.forced && s.saved
  }

  predicate ForcedOrLost(s: Submission) {
    s.forced || !s.saved
  }

  /** Recorded under id 0, which the guard does not count as a submission. */
  predicate ZeroSaved(s: Submission) {
    s.saved && s.id == 0
  }

  /** The id the last recorded submission of a name got. */
  function LastSaved(chain: seq<Submission>, name: string): Option<nat> {
    if chain == [] then None
    else
      var s := chain[|chain| - 1];
      if s.name == name && s.saved then Some(s.id) else LastSaved(chain[..|chain| - 1], name)
  }

  lemma LastSavedAppend(chain: seq<Submission>, s: Submission, name: string)
    ensures LastSaved(chain + [s], name) == if s.name == name && s.saved then Some(s.id) else LastSaved(chain, name)
  {
    assert (chain + [s])[..|chain|] == chain;
  }

  /** The guard's leave for a plain apply, read off the answers alone: nothing recorded under the name, or an id 0 last. */
  ghost predicate Open(w: World, name: string) {
    match LastSaved(w.chain, name)
    case Some(id) => id == 0
    case None => forall id :: Import(name, id) !in w.imports
  }

  /** The disk says what the answers say. */
  ghost predicate Remembered(w: World, name: string) {
    && (LastSaved(w.chain, name).Some? ==> name in w.disk && w.disk[name].proposalId == LastSaved(w.chain, name).value)
    && (LastSaved(w.chain, name) == None ==>
          if name in w.disk then w.disk[name].proposalId != 0 && Import(name, w.disk[name].proposalId) in w.imports
          else forall id :: Import(name, id) !in w.imports)
  }

  /** s is the submission of this command: an apply that passed every gate, with its own answer and fate. */
  predicate Submits(c: Command, s: Submission) {
    && c.Apply? && Passes(c.gates, c.force) && !c.reply.Rejected?
    && s == Submission(c.args.name, c.reply.id, c.force, c.reply.Accepted? && Landed(c.fate))
  }

  lemma ExecSubmits(w: World, c: Command)
    ensures Exec(w, c).chain == w.chain
         || (|Exec(w, c).chain| == |w.chain| + 1 && w.chain <= Exec(w, c).chain && Submits(c, Exec(w, c).chain[|w.chain|]))
  {
    hide ApplyDecision, Passes;
  }

  /**
   Nothing reaches the chain past a gate: over any run, the submissions are those of some of its apply
   commands, in order, at most one each, and each of these passed every gate.
   */
  lemma {:induction false} SubmissionsAreGated(cmds: seq<Command>) returns (ks: seq<nat>)
    ensures |ks| == |Run(EMPTY, cmds).chain|
    ensures forall i, j :: 0 <= i < j < |ks| ==> ks[i] < ks[j]
    ensures forall j :: 0 <= j < |ks| ==> ks[j] < |cmds| && GatesOpen(cmds[ks[j]], Run(EMPTY, cmds).chain[j])
  {
    hide Exec, Submits, GatesOpen;
    if |cmds| == 0 {
      ks := [];
    } else {
      var front := cmds[..|cmds| - 1];
      ks := SubmissionsAreGated(front);
      var w := Run(EMPTY, front);
      ExecSubmits(w, cmds[|cmds| - 1]);
      assert forall k :: 0 <= k < |front| ==> cmds[k] == front[k];
      if Exec(w, cmds[|cmds| - 1]).chain != w.chain {
        SubmitsMeans(cmds[|cmds| - 1], Exec(w, cmds[|cmds| - 1]).chain[|w.chain|]);
        ks := ks + [|cmds| - 1];
      }
    }
  }

  /** The submission's command, gate by gate. */
  ghost predicate GatesOpen(c: Command, s: Submission) {
    && c.Apply? && c.gates.yes && c.gates.confirmed && c.gates.access && c.gates.dryRun != Some(false)
    && c.gates.preflight.Some? && (c.gates.preflight == Some(Preflights.NoOp) ==> c.force)
    && !c.reply.Rejected? && s.name == c.args.name && s.id == c.reply.id && s.forced == c.force
    && (s.saved <==> c.reply.Accepted? && Landed(c.fate))
  }

  lemma SubmitsMeans(c: Command, s: Submission)
    requires Submits(c, s)
    ensures GatesOpen(c, s)
  {
  }

  /** The counts that bound a name's plain submissions, and that each unforced one found the name open. */
  ghost predicate Bounded(w: World, name: string) {
    && CountOf(w.chain, name, Plain) <= CountOf(w.chain, name, ZeroSaved) + (if Open(w, name) then 0 else 1)
    && CountOf(w.chain, name, Any) == CountOf(w.chain, name, Plain) + CountOf(w.chain, name, ForcedOrLost)
    && forall j :: 0 <= j < |w.chain| && w.chain[j].name == name && !w.chain[j].forced ==>
         LastSaved(w.chain[..j], name) in {None, Some(0)}
  }

  lemma RememberApply(w: World, args: RecordArgs, force: bool, gates: Gates, reply: SubmitReply, fate: Fate, name: string)
    requires Remembered(w, name)
    ensures Remembered(ExecApply(w, args, force, gates, reply, fate), name)
  {
    hide Passes, LastSaved, ApplyDecision;
    if !reply.Rejected? {
      LastSavedAppend(w.chain, Submission(args.name, reply.id, force, reply.Accepted? && Landed(fate)), name);
    }
  }

  /** A submission reaches the chain forced, or finding its name open. */
  lemma SubmittedOpen(w: World, args: RecordArgs, force: bool, gates: Gates, reply: SubmitReply, fate: Fate, name: string)
    requires Remembered(w, name)
    ensures var w' := ExecApply(w, args, force, gates, reply, fate);
      || w' == w
      || (&& !reply.Rejected? && w'.imports == w.imports
          && w'.chain == w.chain + [Submission(args.name, reply.id, force, reply.Accepted? && Landed(fate))]
          && (args.name == name && !force ==> Open(w, name)))
  {
    hide Passes, LastSaved;
  }

  lemma BoundAppend(w: World, s: Submission, name: string)
    requires Bounded(w, name) && (s.name == name && !s.forced ==> Open(w, name))
    ensures Bounded(w.(chain := w.chain + [s]), name)
  {
    hide CountOf, LastSaved;
    CountAppend(w.chain, s, name, Plain);
    CountAppend(w.chain, s, name, Any);
    CountAppend(w.chain, s, name, ForcedOrLost);
    CountAppend(w.chain, s, name, ZeroSaved);
    LastSavedAppend(w.chain, s, name);
    var chain := w.chain + [s];
    assert forall j :: 0 <= j < |w.chain| ==> chain[..j] == w.chain[..j] && chain[j] == w.chain[j];
    assert chain[..|w.chain|] == w.chain;
  }

  lemma BoundApply(w: World, args: RecordArgs, force: bool, gates: Gates, reply: SubmitReply, fate: Fate, name: string)
    requires Remembered(w, name) && Bounded(w, name)
    ensures Remembered(ExecApply(w, args, force, gates, reply, fate), name)
    ensures Bounded(ExecApply(w, args, force, gates, reply, fate), name)
  {
    RememberApply(w, args, force, gates, reply, fate, name);
    hide Passes, CountOf, LastSaved, ExecApply, Remembered;
    SubmittedOpen(w, args, force, gates, reply, fate, name);
    if !reply.Rejected? {
      var s := Submission(args.name, reply.id, force, reply.Accepted? && Landed(fate));
      if s.name == name && !s.forced ==> Open(w, name) {
        BoundAppend(w, s, name);
      }
    }
  }

  lemma BoundStep(w: World, c: Command, name: string)
    requires Inv(w) && Remembered(w, name) && Bounded(w, name)
    ensures Remembered(Exec(w, c), name) && Bounded(Exec(w, c), name)
  {
    hide ExecApply, AllVisited, AllQueries, CountOf, LastSaved, Consistent;
    match c
    case Apply(args, force, gates, reply, fate) => BoundApply(w, args, force, gates, reply, fate, name);
    case ImportCmd(args, id, fate) =>
    case Status(visits, refresh, _, _) => VisitsKeep(w.disk, visits, refresh);
    case VerifyChips(_, _, _, _) =>
  }

  lemma {:induction false} BoundRun(cmds: seq<Command>, name: string)
    ensures Remembered(Run(EMPTY, cmds), name) && Bounded(Run(EMPTY, cmds), name)
  {
    if cmds != [] {
      hide Remembered, Bounded, Exec;
      var front := cmds[..|cmds| - 1];
      BoundRun(front, name);
      InvRun(EMPTY, front);
      BoundStep(Run(EMPTY, front), cmds[|cmds| - 1], name);
    }
  }

  /**
   Bounded resubmission: under one name, at most one submission beyond the forced and the lost ones,
   plus one for each id 0 that was recorded. Without an id 0 at most one is neither forced nor lost.
   */
  lemma ResubmissionBounded(cmds: seq<Command>, name: string)
    ensures var chain := Run(EMPTY, cmds).chain;
      && CountOf(chain, name, Plain) <= 1 + CountOf(chain, name, ZeroSaved)
      && CountOf(chain, name, Any) <= 1 + CountOf(chain, name, ForcedOrLost) + CountOf(chain, name, ZeroSaved)
  {
    BoundRun(cmds, name);
  }

  /** A second plain submission follows a recorded id 0, and no other way: the last id recorded before it is 0. */
  lemma SecondFollowsZero(cmds: seq<Command>, name: string, i: nat, j: nat)
    requires i < j < |Run(EMPTY, cmds).chain|
    requires Run(EMPTY, cmds).chain[i].name == name && Run(EMPTY, cmds).chain[i].saved
    requires Run(EMPTY, cmds).chain[j].name == name && !Run(EMPTY, cmds).chain[j].forced
    ensures LastSaved(Run(EMPTY, cmds).chain[..j], name) == Some(0)
  {
    BoundRun(cmds, name);
    SavedIsLastSaved(Run(EMPTY, cmds).chain[..j], name, i);
  }

  lemma {:induction false} SavedIsLastSaved(chain: seq<Submission>, name: string, i: nat)
    requires i < |chain| && chain[i].name == name && chain[i].saved
    ensures LastSaved(chain, name).Some?
  {
    if i < |chain| - 1 {
      SavedIsLastSaved(chain[..|chain| - 1], name, i);
    }
  }

  /** Exactly when a plain apply whose gates pass submits: nothing is recorded under its name, or an id 0 last. */
  lemma PlainSubmitsIff(cmds: seq<Command>, args: RecordArgs, gates: Gates, id: nat, fate: Fate)
    requires gates.yes && gates.confirmed && gates.access && gates.dryRun != Some(false)
    requires gates.preflight.Some? && gates.preflight != Some(Preflights.NoOp)
    ensures var w := Run(EMPTY, cmds);
      var w' := Exec(w, Apply(args, false, gates, Accepted(id), fate));
      if Open(w, args.name) then w'.chain == w.chain + [Submission(args.name, id, false, Landed(fate))] else w' == w
  {
    hide LastSaved, Run, CountOf;
    BoundRun(cmds, args.name);
  }

  const GO := Gates(Some(true), true, Some(Preflights.Clean), true, true)

  const LOST := SMOOTH.(rename := Fails)

  function Repeat(c: Command, n: nat): seq<Command> {
    if n == 0 then [] else Repeat(c, n - 1) + [c]
  }

  /** While nothing is recorded under the name, or an id 0 is, a plain apply whose gates pass goes through. */
  lemma ApplyAgain(w: World, args: RecordArgs, id: nat, fate: Fate)
    requires args.name in w.disk ==> w.disk[args.name].proposalId == 0
    ensures var after := Exec(w, Apply(args, false, GO, Accepted(id), fate));
      && after.chain == w.chain + [Submission(args.name, id, false, Landed(fate))]
      && (!Landed(fate) || id == 0 ==> args.name in after.disk ==> after.disk[args.name].proposalId == 0)
  {
  }

  /** n more of the same apply, none of which is recorded as a submission, all reach the chain. */
  lemma {:induction false} ManyApplies(cmds: seq<Command>, args: RecordArgs, id: nat, fate: Fate, n: nat)
    requires !Landed(fate) || id == 0
    requires var w := Run(EMPTY, cmds); args.name in w.disk ==> w.disk[args.name].proposalId == 0
    ensures var c := Apply(args, false, GO, Accepted(id), fate);
      var w, w' := Run(EMPTY, cmds), Run(EMPTY, cmds + Repeat(c, n));
      var s := Submission(args.name, id, false, Landed(fate));
      && (args.name in w'.disk ==> w'.disk[args.name].proposalId == 0)
      && forall kind: Submission -> bool ::
           CountOf(w'.chain, args.name, kind) == CountOf(w.chain, args.name, kind) + if kind(s) then n else 0
  {
    hide Run, Exec, CountOf;
    var c := Apply(args, false, GO, Accepted(id), fate);
    if n == 0 {
      assert cmds + Repeat(c, 0) == cmds;
    } else {
      ManyApplies(cmds, args, id, fate, n - 1);
      var w := Run(EMPTY, cmds + Repeat(c, n - 1));
      assert cmds + Repeat(c, n) == cmds + Repeat(c, n - 1) + [c];
      RunLast(EMPTY, cmds + Repeat(c, n - 1), c);
      ApplyAgain(w, args, id, fate);
      forall kind: Submission -> bool {
        CountAppend(w.chain, Submission(args.name, id, false, Landed(fate)), args.name, kind);
      }
    }
  }

  /** The bound is attained: n lost saves and m recorded zero ids cost n + m submissions before the one that counts. */
  lemma BoundAttained(args: RecordArgs, n: nat, m: nat)
    ensures
      var lost, zero := Apply(args, false, GO, Accepted(1), LOST), Apply(args, false, GO, Accepted(0), SMOOTH);
      var kept := Apply(args, false, GO, Accepted(1), SMOOTH);
      var chain := Run(EMPTY, Repeat(lost, n) + Repeat(zero, m) + [kept]).chain;
      && CountOf(chain, args.name, Any) == 1 + n + m
      && CountOf(chain, args.name, ForcedOrLost) == n
      && CountOf(chain, args.name, ZeroSaved) == m
      && CountOf(chain, args.name, Plain) == 1 + m
  {
    hide Exec, CountOf, Run;
    var lost, zero := Apply(args, false, GO, Accepted(1), LOST), Apply(args, false, GO, Accepted(0), SMOOTH);
    NothingRun(args.name);
    ManyApplies([], args, 1, LOST, n);
    assert [] + Repeat(lost, n) == Repeat(lost, n);
    ManyApplies(Repeat(lost, n), args, 0, SMOOTH, m);
    var cmds := Repeat(lost, n) + Repeat(zero, m);
    var w := Run(EMPTY, cmds);
    RunLast(EMPTY, cmds, Apply(args, false, GO, Accepted(1), SMOOTH));
    ApplyAgain(w, args, 1, SMOOTH);
    var s := Submission(args.name, 1, false, true);
    CountAppend(w.chain, s, args.name, Any);
    CountAppend(w.chain, s, args.name, ForcedOrLost);
    CountAppend(w.chain, s, args.name, ZeroSaved);
    CountAppend(w.chain, s, args.name, Plain);
  }

  lemma NothingRun(name: string)
    ensures Run(EMPTY, []) == EMPTY
    ensures forall kind: Submission -> bool :: CountOf([], name, kind) == 0
  {
  }

  /** An id 0 defeats the guard: the same apply twice, never forced, both saved, is two submissions. */
  lemma ZeroIdReopens(args: RecordArgs)
    ensures var c := Apply(args, false, GO, Accepted(0), SMOOTH);
      Run(EMPTY, [c, c]).chain == [Submission(args.name, 0, false, true), Submission(args.name, 0, false, true)]
  {
    hide Exec, Run;
    var c := Apply(args, false, GO, Accepted(0), SMOOTH);
    NothingRun(args.name);
    RunLast(EMPTY, [], c);
    RunLast(EMPTY, [c], c);
    assert [] + [c] == [c] && [c] + [c] == [c, c];
    ApplyAgain(EMPTY, args, 0, SMOOTH);
    ApplyAgain(Exec(EMPTY, c), args, 0, SMOOTH);
  }
}
