/**
 Declared against recorded chip ids, and AMD's verdict on the recorded ones
 (nns/reconcile_nodesev.go:68-156, cmd/alp/main.go:712-758).
 */
module NodeSev {
  import opened Wrappers
  import Sequences
  import Sorting
  import Resources
  import Tables
  import opened ChipId
  import Chips
  import History

  datatype Status = InSync | Mismatch | Missing | Undeclared | Malformed | Unverified | Unknown

  datatype Row = Row(
    nodeId: string, name: string, declared: string, live: string, status: Status,
    err: Option<ChipError>, amd: Option<Chips.ChipVerification>)

  type Statuses = map<string, History.NodeStatus>

  function NodeId(r: Row): string {
    r.nodeId
  }

  predicate InOrder(r: Row) {
    r.status == InSync || r.status == Unknown
  }

  /** The record that was read for a node, if it is still registered. */
  function RecordOf(status: Statuses, id: string): Option<string> {
    if id in status && status[id].registered then Some(status[id].chipId) else None
  }

  /** Two texts name the same chip, or neither names one. */
  ghost predicate SameChip(a: string, b: string) {
    || (TrimSpace(a) == "" && TrimSpace(b) == "")
    || (exists chip :: Spells(a, chip) && Spells(b, chip))
  }

  predicate Readable(chip: string) {
    NormalizeChipId(chip).Ok?
  }

  /** The row of a node: what each side says in normal form, and how they compare. */
  ghost predicate IsRow(r: Row, n: Resources.NodeRes, status: Statuses) {
    && r.nodeId == n.id && r.name == n.name && r.amd == None
    && match (NormalizeChipId(n.chipId), RecordOf(status, n.id))
       case (Err(e), _) => r.status == Malformed && r.declared == n.chipId && r.live == "" && r.err == Some(e)
       case (Ok(d), None) => r.status == Unknown && r.declared == d && r.live == "" && r.err == None
       case (Ok(d), Some(record)) =>
         && r.declared == d
         && match NormalizeChipId(record)
            case Err(e) => r.status == Malformed && r.live == record && r.err == Some(e)
            case Ok(l) =>
              && r.live == l && r.err == None
              && (r.status == InSync <==> d == l)
              && (r.status == Undeclared <==> d == "" && l != "")
              && (r.status == Missing <==> d != "" && l == "")
              && (r.status == Mismatch <==> d != "" && l != "" && d != l)
  }

  predicate Kept(n: Resources.NodeRes) {
    !n.decommissioned
  }

  ghost function RowIs(status: Statuses): (Row, Resources.NodeRes) -> bool {
    (r, n) => IsRow(r, n, status)
  }

  /** One row per node that is not decommissioned. */
  ghost predicate IsSevReport(rows: seq<Row>, all: seq<Resources.NodeRes>, status: Statuses) {
    Tables.IsReport(rows, Sequences.Filter(all, Kept), RowIs(status))
  }

  method Compare(declared: string, live: string) returns (s: Status)
    ensures s == InSync <==> declared == live
    ensures s == Undeclared <==> declared == "" && live != ""
    ensures s == Missing <==> declared != "" && live == ""
    ensures s == Mismatch <==> declared != "" && live != "" && declared != live
  {
    if declared == live {
      return InSync;
    }
    if declared == "" {
      return Undeclared;
    }
    if live == "" {
      return Missing;
    }
    return Mismatch;
  }

  method ReconcileNodeSev(all: seq<Resources.NodeRes>, status: Statuses) returns (rows: seq<Row>)
    ensures IsSevReport(rows, all, status)
    ensures Sorting.SortedByText(rows, NodeId)
  {
    hide NormalizeChipId, Sequences.Filter;
    rows := [];
    assert all[..0] == [];
    Sequences.FilterEmpty(Kept);
    for i := 0 to |all|
      invariant Tables.InStep(rows, Sequences.Filter(all[..i], Kept), RowIs(status))
    {
      var n := all[i];
      Sequences.FilterStep(all, i, Kept);
      if n.decommissioned {
        continue;
      }
      var row := Row(n.id, n.name, "", "", Unknown, None, None);
      var declared := NormalizeChipId(n.chipId);
      if declared.Err? {
        row := row.(declared := n.chipId, status := Malformed, err := Some(declared.error));
      } else {
        row := row.(declared := declared.value);
        if n.id in status && status[n.id].registered {
          var live := NormalizeChipId(status[n.id].chipId);
          if live.Err? {
            row := row.(live := status[n.id].chipId, status := Malformed, err := Some(live.error));
          } else {
            var s := Compare(declared.value, live.value);
            row := row.(live := live.value, status := s);
          }
        }
      }
      assert IsRow(row, n, status);
      rows := rows + [row];
    }
    assert all[..|all|] == all;
    ghost var unsorted := rows;
    rows := Sorting.SortByText(rows, NodeId);
    assert multiset(rows) == multiset(unsorted) && Tables.InStep(unsorted, Sequences.Filter(all, Kept), RowIs(status));
  }

  /** Equal normal forms are the same chip, however either side spells it. */
  lemma SameFormIffSameChip(a: string, b: string)
    requires Readable(a) && Readable(b)
    ensures NormalizeChipId(a) == NormalizeChipId(b) <==> SameChip(a, b)
  {
    hide NormalizeChipId, TrimSpace, DecodeHex, Decode64, EncodeHex, Spells;
    FormOf(a);
    FormOf(b);
    if Accepted(a) && Accepted(b) {
      var x :| Spells(a, x);
      var y :| Spells(b, y);
      EqualIffSameChip(a, x, b, y);
      if SameChip(a, b) && !(TrimSpace(a) == "" && TrimSpace(b) == "") {
        var c :| Spells(a, c) && Spells(b, c);
        EqualIffSameChip(a, c, b, c);
      }
    }
  }

  /** A readable text is blank, or spells a chip and has a non-empty form. */
  lemma FormOf(s: string)
    requires Readable(s)
    ensures TrimSpace(s) == "" <==> NormalizeChipId(s) == Ok("")
    ensures TrimSpace(s) == "" <==> !Accepted(s)
  {
    hide TrimSpace, DecodeHex, Decode64;
    AcceptedIff(s);
    if Accepted(s) {
      var b :| Spells(s, b);
      NormalizeIffSpells(s, b);
      EmptyDecodes();
    }
  }

  /** Nothing to report about a node: its chip is readable, and the record, if there is one, has the same chip. */
  ghost predicate Settled(n: Resources.NodeRes, status: Statuses) {
    && Readable(n.chipId)
    && match RecordOf(status, n.id)
       case None => true
       case Some(record) => Readable(record) && SameChip(n.chipId, record)
  }

  lemma RowOkIff(r: Row, n: Resources.NodeRes, status: Statuses)
    requires IsRow(r, n, status)
    ensures InOrder(r) <==> Settled(n, status)
  {
    hide NormalizeChipId, SameChip;
    match (NormalizeChipId(n.chipId), RecordOf(status, n.id))
    case (Ok(_), Some(record)) =>
      if Readable(record) {
        SameFormIffSameChip(n.chipId, record);
      }
    case _ =>
  }

  /** Drift is exact: some node that is not decommissioned has an unreadable chip id, or a record with another chip. */
  lemma SevDriftIff(rows: seq<Row>, all: seq<Resources.NodeRes>, status: Statuses)
    requires IsSevReport(rows, all, status)
    ensures Tables.Drifts(rows, InOrder) <==> exists n :: n in all && !n.decommissioned && !Settled(n, status)
  {
    hide IsRow, Settled, Tables.IsReport, InOrder, Sequences.Filter;
    if Tables.Drifts(rows, InOrder) {
      var r :| r in rows && !InOrder(r);
      var n := Tables.ItemOfRow(rows, Sequences.Filter(all, Kept), RowIs(status), r);
      RowOkIff(r, n, status);
    }
    if exists n :: n in all && !n.decommissioned && !Settled(n, status) {
      var n :| n in all && !n.decommissioned && !Settled(n, status);
      var r := Tables.RowOfItem(rows, Sequences.Filter(all, Kept), RowIs(status), n);
      RowOkIff(r, n, status);
    }
  }

  /** Every verdict on a node, read off the two texts: what each spells, if anything. */
  lemma StatusMeans(r: Row, n: Resources.NodeRes, status: Statuses)
    requires IsRow(r, n, status)
    ensures match RecordOf(status, n.id)
      case None => if Readable(n.chipId) then r.status == Unknown else r.status == Malformed
      case Some(record) =>
        if !Readable(n.chipId) || !Readable(record) then r.status == Malformed
        else
          && (r.status == InSync <==> SameChip(n.chipId, record))
          && (r.status == Missing <==> TrimSpace(n.chipId) != "" && TrimSpace(record) == "")
          && (r.status == Undeclared <==> TrimSpace(n.chipId) == "" && TrimSpace(record) != "")
          && (r.status == Mismatch <==>
                TrimSpace(n.chipId) != "" && TrimSpace(record) != "" && !SameChip(n.chipId, record))
    ensures r.err.Some? <==> r.status == Malformed
  {
    hide NormalizeChipId, SameChip, TrimSpace;
    match (NormalizeChipId(n.chipId), RecordOf(status, n.id))
    case (Ok(_), Some(record)) =>
      FormOf(n.chipId);
      if Readable(record) {
        FormOf(record);
        SameFormIffSameChip(n.chipId, record);
      }
    case _ =>
  }

  /** The columns of a row: the block's chip on one side, the record's on the other, each as the chip it spells or as it stands. */
  lemma ColumnsMean(r: Row, n: Resources.NodeRes, status: Statuses)
    requires IsRow(r, n, status)
    ensures r.nodeId == n.id && r.name == n.name && r.amd == None
    ensures if Readable(n.chipId) then Ok(r.declared) == NormalizeChipId(n.chipId) else r.declared == n.chipId && r.live == ""
    ensures n.id !in status || !status[n.id].registered ==> r.live == ""
    ensures Readable(n.chipId) && n.id in status && status[n.id].registered ==>
      if Readable(status[n.id].chipId) then Ok(r.live) == NormalizeChipId(status[n.id].chipId) else r.live == status[n.id].chipId
    ensures r.err.Some? ==> Err(r.err.value) == NormalizeChipId(if Readable(n.chipId) then status[n.id].chipId else n.chipId)
  {
    hide NormalizeChipId;
  }

  // AMD's verdicts.

  type Verdicts = map<Chips.ChipId, Chips.ChipVerification>

  ghost predicate Refuses(v: Chips.ChipVerification) {
    !v.verified && !v.inconclusive
  }

  /** A row takes the verdict on its recorded chip, and only a refused row that was in sync is downgraded. */
  ghost predicate Judged(r: Row, judged: Row, byChip: Verdicts) {
    if r.live == "" || r.live !in byChip then judged == r
    else judged == r.(amd := Some(byChip[r.live]),
                      status := if r.status == InSync && Refuses(byChip[r.live]) then Unverified else r.status)
  }

  method ApplyChipVerification(rows: array<Row>, byChip: Verdicts)
    modifies rows
    ensures forall i :: 0 <= i < rows.Length ==> Judged(old(rows[i]), rows[i], byChip)
  {
    for i := 0 to rows.Length
      invariant forall j :: 0 <= j < i ==> Judged(old(rows[j]), rows[j], byChip)
      invariant forall j :: i <= j < rows.Length ==> rows[j] == old(rows[j])
    {
      var row := rows[i];
      if row.live == "" {
        continue;
      }
      if row.live !in byChip {
        continue;
      }
      var v := byChip[row.live];
      row := row.(amd := Some(v));
      if row.status == InSync && !v.verified && !v.inconclusive {
        row := row.(status := Unverified);
      }
      rows[i] := row;
    }
  }

  /** The chips looked up: each non-empty recorded one, in row order. */
  method LiveChips(rows: seq<Row>) returns (chips: seq<Chips.ChipId>)
    ensures Chips.Requested(chips) == Sequences.ToSet(chips)
    ensures forall chip :: chip in chips <==> chip != "" && exists r :: r in rows && r.live == chip
  {
    chips := [];
    for i := 0 to |rows|
      invariant forall chip :: chip in chips <==> chip != "" && exists r :: r in rows[..i] && r.live == chip
    {
      assert rows[..i + 1] == rows[..i] + [rows[i]];
      if rows[i].live != "" {
        chips := chips + [rows[i].live];
      }
    }
    assert rows[..|rows|] == rows;
  }

  // The first 12 bytes of each chip looked up are printed. Text is UTF-8.

  const SHOWN := 12

  function CharBytes(c: char): nat {
    var u := c as int;
    if u < 0x80 then 1 else if u < 0x800 then 2 else if u < 0x1_0000 then 3 else 4
  }

  function ByteLength(s: string): nat {
    if s == "" then 0 else ByteLength(s[..|s| - 1]) + CharBytes(s[|s| - 1])
  }

  lemma {:induction false} BytesAtLeastChars(s: string)
    ensures ByteLength(s) >= |s|
  {
    if s != "" {
      BytesAtLeastChars(s[..|s| - 1]);
    }
  }

  /** A readable chip comes to nothing or to 128 characters. */
  lemma FormLength(s: string)
    requires Readable(s)
    ensures NormalizeChipId(s).value == "" || |NormalizeChipId(s).value| == 2 * CHIP_ID_BYTES
  {
    hide TrimSpace, DecodeHex, Decode64, EncodeHex;
    AcceptedIff(s);
    FormOf(s);
    if Accepted(s) {
      var b :| Spells(s, b);
      NormalizeIffSpells(s, b);
      HexLength(b, false);
    }
  }

  /** A record that would be sliced short: read for a node whose own chip id is fine, unreadable, and under 12 bytes. */
  ghost predicate ShortRecord(n: Resources.NodeRes, status: Statuses) {
    && !n.decommissioned && Readable(n.chipId)
    && match RecordOf(status, n.id)
       case None => false
       case Some(record) => !Readable(record) && ByteLength(record) < SHOWN
  }

  ghost function ShortChip(n: Resources.NodeRes, status: Statuses): string
    requires ShortRecord(n, status)
    ensures Kept(n)
    ensures n.id in status && ShortChip(n, status) == status[n.id].chipId
  {
    status[n.id].chipId
  }

  lemma RowShown(r: Row, n: Resources.NodeRes, status: Statuses)
    requires IsRow(r, n, status) && !n.decommissioned
    ensures r.live == "" || r.status == Malformed || |r.live| == 2 * CHIP_ID_BYTES
    ensures r.live != "" && ByteLength(r.live) < SHOWN <==> ShortRecord(n, status)
    ensures ShortRecord(n, status) ==> r.live == ShortChip(n, status) && Kept(n)
  {
    hide NormalizeChipId, ByteLength;
    EmptyNormalizes("");
    match (NormalizeChipId(n.chipId), RecordOf(status, n.id))
    case (Ok(_), Some(record)) =>
      if Readable(record) {
        FormLength(record);
        BytesAtLeastChars(r.live);
      }
    case _ =>
  }

  /**
   Every chip AMD is asked about has 12 bytes to show exactly when each short record is one the cache
   already vouches for, and the cache is used.
   */
  lemma ShownSafeIff(
    rows: seq<Row>, all: seq<Resources.NodeRes>, status: Statuses,
    chips: seq<Chips.ChipId>, cache: Chips.Cache, mode: Chips.Mode)
    requires IsSevReport(rows, all, status)
    requires forall chip :: chip in chips <==> chip != "" && exists r :: r in rows && r.live == chip
    ensures (forall chip :: chip in Chips.Asks(cache, chips, mode) ==> ByteLength(chip) >= SHOWN)
       <==> (forall n :: n in all && ShortRecord(n, status) ==>
               !mode.refresh && Chips.Vouched(cache, ShortChip(n, status)))
  {
    hide IsRow, Tables.IsReport, Sequences.Filter, ByteLength, ShortRecord, Chips.Vouched;
    if chip :| chip in Chips.Asks(cache, chips, mode) && ByteLength(chip) < SHOWN {
      var r :| r in rows && r.live == chip;
      var n := Tables.ItemOfRow(rows, Sequences.Filter(all, Kept), RowIs(status), r);
      RowShown(r, n, status);
    }
    if n :| n in all && ShortRecord(n, status) && !(!mode.refresh && Chips.Vouched(cache, ShortChip(n, status))) {
      var short := ShortChip(n, status);
      assert Kept(n);
      var r := Tables.RowOfItem(rows, Sequences.Filter(all, Kept), RowIs(status), n);
      RowShown(r, n, status);
      assert r.live == short && r.live in chips && r.live in Chips.Asks(cache, chips, mode);
    }
  }

  /** A record of two letters is one: its node's chip is looked up under them. */
  lemma ShortRecordExample()
    ensures
      var n := Resources.NodeRes("n", "", "", "", "", false, "", "");
      ShortRecord(n, map["n" := History.NodeStatus(true, "", "", 0, "zz")])
  {
    EmptyNormalizes("");
    assert TrimLeft("zz") == "zz" && TrimRight("zz") == "zz";
    assert HexDigit('z') == None && DecodeHex("zz") == None;
    assert Unbroken("zz") == "zz" by {
      UnbrokenWhole("zz");
    }
    assert DecodeQuanta("zz") == None;
    assert ByteLength("zz") == 2 by {
      assert "zz"[..1] == "z" && "z"[..0] == "";
    }
  }

  /**
   Through the cache and into the report: with a cache that agrees with AMD, a row reads as drift
   afterwards iff it did before, or AMD refuses its recorded chip while the file agrees with it.
   */
  lemma VerdictsReachRows(
    rows: seq<Row>, judged: seq<Row>, byChip: Verdicts,
    cache: Chips.Cache, chips: seq<Chips.ChipId>, mode: Chips.Mode, f: Chips.Amd)
    requires forall chip :: chip in chips <==> chip != "" && exists r :: r in rows && r.live == chip
    requires Chips.Agrees(cache, f) && Chips.Answers(byChip, cache, chips, mode, f)
    requires |judged| == |rows| && forall i :: 0 <= i < |rows| ==> Judged(rows[i], judged[i], byChip)
    ensures forall i :: 0 <= i < |rows| ==>
              (InOrder(judged[i]) <==> InOrder(rows[i]) && !(rows[i].status == InSync && rows[i].live != "" && Refuses(f(rows[i].live))))
    ensures forall i :: 0 <= i < |rows| ==>
              && judged[i].nodeId == rows[i].nodeId && judged[i].declared == rows[i].declared && judged[i].live == rows[i].live
              && judged[i].status == (if rows[i].status == InSync && rows[i].live != "" && Refuses(f(rows[i].live))
                                      then Unverified else rows[i].status)
              && (rows[i].live != "" ==> judged[i].amd.Some? && judged[i].amd.value.verified == f(rows[i].live).verified)
              && (rows[i].live == "" ==> judged[i].amd == rows[i].amd)
  {
  }
}
