/**
 The update_subnet planner against what executing the proposal does (nns/update_subnet.go,
 nns/plan_update_subnet.go). A field the payload leaves unset is skipped by the registry; a set
 one replaces the subnet's, and features and resource_limits are replaced whole.
 */
module UpdateSubnet {
  import opened Preflights
  import opened Wrappers

  datatype Features = Features(canisterSandboxing: bool, httpRequests: bool, sevEnabled: bool)
  datatype Limits = Limits(maximumStateSize: nat, maximumStateDelta: nat)

  /** None is a field the proposal does not touch. */
  datatype Settings = Settings(
    isHalted: Option<bool>, haltAtCupHeight: Option<bool>, maxNumberOfCanisters: Option<nat>,
    sshReadonlyAccess: Option<seq<string>>, sshBackupAccess: Option<seq<string>>, subnetAdmins: Option<seq<string>>,
    features: Option<Features>, resourceLimits: Option<Limits>,
    unitDelayMillis: Option<nat>, initialNotaryDelayMillis: Option<nat>,
    dkgIntervalLength: Option<nat>, dkgDealingsPerBlock: Option<nat>,
    maxIngressBytesPerMessage: Option<nat>, maxIngressBytesPerBlock: Option<nat>,
    maxIngressMessagesPerBlock: Option<nat>, maxBlockPayloadSize: Option<nat>)

  predicate Empty(s: Settings) {
    && s.isHalted == None && s.haltAtCupHeight == None && s.maxNumberOfCanisters == None
    && s.sshReadonlyAccess == None && s.sshBackupAccess == None && s.subnetAdmins == None
    && s.features == None && s.resourceLimits == None
    && s.unitDelayMillis == None && s.initialNotaryDelayMillis == None
    && s.dkgIntervalLength == None && s.dkgDealingsPerBlock == None
    && s.maxIngressBytesPerMessage == None && s.maxIngressBytesPerBlock == None
    && s.maxIngressMessagesPerBlock == None && s.maxBlockPayloadSize == None
  }

  // The registry's side.

  datatype RawFeatures = RawFeatures(canisterSandboxing: bool, httpRequests: bool, sevEnabled: Option<bool>)
  datatype RawLimits = RawLimits(maximumStateSize: Option<nat>, maximumStateDelta: Option<nat>)

  datatype SubnetRecord = SubnetRecord(
    isHalted: bool, haltAtCupHeight: bool, maxNumberOfCanisters: nat,
    sshReadonlyAccess: seq<string>, sshBackupAccess: seq<string>, subnetAdmins: seq<string>,
    features: Option<RawFeatures>, resourceLimits: Option<RawLimits>,
    unitDelayMillis: nat, initialNotaryDelayMillis: nat, dkgIntervalLength: nat, dkgDealingsPerBlock: nat,
    maxIngressBytesPerMessage: nat, maxIngressBytesPerBlock: nat, maxIngressMessagesPerBlock: nat, maxBlockPayloadSize: nat)

  datatype Payload = Payload(
    isHalted: Option<bool>, haltAtCupHeight: Option<bool>, maxNumberOfCanisters: Option<nat>,
    sshReadonlyAccess: Option<seq<string>>, sshBackupAccess: Option<seq<string>>, subnetAdmins: Option<seq<string>>,
    features: Option<RawFeatures>, resourceLimits: Option<RawLimits>,
    unitDelayMillis: Option<nat>, initialNotaryDelayMillis: Option<nat>,
    dkgIntervalLength: Option<nat>, dkgDealingsPerBlock: Option<nat>,
    maxIngressBytesPerMessage: Option<nat>, maxIngressBytesPerBlock: Option<nat>,
    maxIngressMessagesPerBlock: Option<nat>, maxBlockPayloadSize: Option<nat>)

  function ToPayload(s: Settings): Payload {
    Payload(
      s.isHalted, s.haltAtCupHeight, s.maxNumberOfCanisters,
      s.sshReadonlyAccess, s.sshBackupAccess, s.subnetAdmins,
      match s.features case None => None
                       case Some(f) => Some(RawFeatures(f.canisterSandboxing, f.httpRequests, Some(f.sevEnabled))),
      match s.resourceLimits case None => None
                             case Some(l) => Some(RawLimits(Some(l.maximumStateSize), Some(l.maximumStateDelta))),
      s.unitDelayMillis, s.initialNotaryDelayMillis, s.dkgIntervalLength, s.dkgDealingsPerBlock,
      s.maxIngressBytesPerMessage, s.maxIngressBytesPerBlock, s.maxIngressMessagesPerBlock, s.maxBlockPayloadSize)
  }

  function Or<T>(want: Option<T>, current: T): T {
    match want case Some(v) => v case None => current
  }

  /** do_update_subnet: field by field, a set field replaces the record's. */
  function Execute(rec: SubnetRecord, p: Payload): SubnetRecord {
    SubnetRecord(
      Or(p.isHalted, rec.isHalted), Or(p.haltAtCupHeight, rec.haltAtCupHeight),
      Or(p.maxNumberOfCanisters, rec.maxNumberOfCanisters),
      Or(p.sshReadonlyAccess, rec.sshReadonlyAccess), Or(p.sshBackupAccess, rec.sshBackupAccess),
      Or(p.subnetAdmins, rec.subnetAdmins),
      if p.features.Some? then p.features else rec.features,
      if p.resourceLimits.Some? then p.resourceLimits else rec.resourceLimits,
      Or(p.unitDelayMillis, rec.unitDelayMillis), Or(p.initialNotaryDelayMillis, rec.initialNotaryDelayMillis),
      Or(p.dkgIntervalLength, rec.dkgIntervalLength), Or(p.dkgDealingsPerBlock, rec.dkgDealingsPerBlock),
      Or(p.maxIngressBytesPerMessage, rec.maxIngressBytesPerMessage), Or(p.maxIngressBytesPerBlock, rec.maxIngressBytesPerBlock),
      Or(p.maxIngressMessagesPerBlock, rec.maxIngressMessagesPerBlock), Or(p.maxBlockPayloadSize, rec.maxBlockPayloadSize))
  }

  function OrZero(v: Option<nat>): nat {
    match v case Some(n) => n case None => 0
  }

  /** The comparable fields of a record, every one set; a missing nested record reads as its defaults. */
  function CurrentSettings(rec: SubnetRecord): Settings {
    Settings(
      Some(rec.isHalted), Some(rec.haltAtCupHeight), Some(rec.maxNumberOfCanisters),
      Some(rec.sshReadonlyAccess), Some(rec.sshBackupAccess), Some(rec.subnetAdmins),
      Some(match rec.features
           case None => Features(false, false, false)
           case Some(f) => Features(f.canisterSandboxing, f.httpRequests, f.sevEnabled == Some(true))),
      Some(match rec.resourceLimits
           case None => Limits(0, 0)
           case Some(l) => Limits(OrZero(l.maximumStateSize), OrZero(l.maximumStateDelta))),
      Some(rec.unitDelayMillis), Some(rec.initialNotaryDelayMillis), Some(rec.dkgIntervalLength), Some(rec.dkgDealingsPerBlock),
      Some(rec.maxIngressBytesPerMessage), Some(rec.maxIngressBytesPerBlock),
      Some(rec.maxIngressMessagesPerBlock), Some(rec.maxBlockPayloadSize))
  }

  // The planner.

  /** The sixteen fields, in the order they are reported. */
  datatype Field =
    | IsHaltedField | HaltAtCupHeightField | MaxNumberOfCanistersField | SshReadonlyAccessField
    | SshBackupAccessField | SubnetAdminsField | FeaturesField | ResourceLimitsField
    | UnitDelayMillisField | InitialNotaryDelayMillisField | DkgIntervalLengthField | DkgDealingsPerBlockField
    | MaxIngressBytesPerMessageField | MaxIngressBytesPerBlockField | MaxIngressMessagesPerBlockField | MaxBlockPayloadSizeField

  datatype Note = NoNote | UnknownCurrent | Clears(entries: nat) | SevDisabled | SevEnabled

  datatype Change = Change(field: Field, noOp: bool, blocking: bool, note: Note)

  function ScalarDiff<T(==)>(field: Field, want: Option<T>, current: Option<T>): seq<Change> {
    match want
    case None => []
    case Some(w) =>
      (match current
       case None => [Change(field, false, false, UnknownCurrent)]
       case Some(c) => [Change(field, w == c, false, NoNote)])
  }

  function ListOf(l: Option<seq<string>>): seq<string> {
    match l case Some(x) => x case None => []
  }

  function ListDiff(field: Field, want: Option<seq<string>>, current: Option<seq<string>>): seq<Change> {
    match want
    case None => []
    case Some(w) =>
      var c := ListOf(current);
      [Change(field, w == c, false, if w == [] && c != [] then Clears(|c|) else NoNote)]
  }

  function FeaturesOf(f: Option<Features>): Features {
    match f case Some(x) => x case None => Features(false, false, false)
  }

  function FeaturesDiff(want: Option<Features>, current: Option<Features>): seq<Change> {
    match want
    case None => []
    case Some(w) =>
      var c := FeaturesOf(current);
      [Change(FeaturesField, w == c, c.sevEnabled && !w.sevEnabled,
              if c.sevEnabled && !w.sevEnabled then SevDisabled
              else if !c.sevEnabled && w.sevEnabled then SevEnabled
              else NoNote)]
  }

  // The diffs in the order they are reported, in four groups.

  function BasicDiffs(w: Settings, c: Settings): seq<Change> {
    ScalarDiff(IsHaltedField, w.isHalted, c.isHalted)
    + ScalarDiff(HaltAtCupHeightField, w.haltAtCupHeight, c.haltAtCupHeight)
    + ScalarDiff(MaxNumberOfCanistersField, w.maxNumberOfCanisters, c.maxNumberOfCanisters)
  }

  function ListDiffs(w: Settings, c: Settings): seq<Change> {
    ListDiff(SshReadonlyAccessField, w.sshReadonlyAccess, c.sshReadonlyAccess)
    + ListDiff(SshBackupAccessField, w.sshBackupAccess, c.sshBackupAccess)
    + ListDiff(SubnetAdminsField, w.subnetAdmins, c.subnetAdmins)
  }

  function RecordDiffs(w: Settings, c: Settings): seq<Change> {
    FeaturesDiff(w.features, c.features) + ScalarDiff(ResourceLimitsField, w.resourceLimits, c.resourceLimits)
  }

  function TimingDiffs(w: Settings, c: Settings): seq<Change> {
    ScalarDiff(UnitDelayMillisField, w.unitDelayMillis, c.unitDelayMillis)
    + ScalarDiff(InitialNotaryDelayMillisField, w.initialNotaryDelayMillis, c.initialNotaryDelayMillis)
    + ScalarDiff(DkgIntervalLengthField, w.dkgIntervalLength, c.dkgIntervalLength)
    + ScalarDiff(DkgDealingsPerBlockField, w.dkgDealingsPerBlock, c.dkgDealingsPerBlock)
  }

  function IngressDiffs(w: Settings, c: Settings): seq<Change> {
    ScalarDiff(MaxIngressBytesPerMessageField, w.maxIngressBytesPerMessage, c.maxIngressBytesPerMessage)
    + ScalarDiff(MaxIngressBytesPerBlockField, w.maxIngressBytesPerBlock, c.maxIngressBytesPerBlock)
    + ScalarDiff(MaxIngressMessagesPerBlockField, w.maxIngressMessagesPerBlock, c.maxIngressMessagesPerBlock)
    + ScalarDiff(MaxBlockPayloadSizeField, w.maxBlockPayloadSize, c.maxBlockPayloadSize)
  }

  function Changes(w: Settings, c: Settings): seq<Change> {
    BasicDiffs(w, c) + ListDiffs(w, c) + RecordDiffs(w, c) + TimingDiffs(w, c) + IngressDiffs(w, c)
  }

  class UpdateSubnetPlan {
    var changes: seq<Change>

    constructor ()
      ensures changes == []
    {
      changes := [];
    }

    method DiffScalar<T(==)>(field: Field, want: Option<T>, current: Option<T>)
      modifies this
      ensures changes == old(changes) + ScalarDiff(field, want, current)
    {
      if want == None {
        return;
      }
      if current == None {
        changes := changes + [Change(field, false, false, UnknownCurrent)];
        return;
      }
      changes := changes + [Change(field, want.value == current.value, false, NoNote)];
    }

    method DiffList(field: Field, want: Option<seq<string>>, current: Option<seq<string>>)
      modifies this
      ensures changes == old(changes) + ListDiff(field, want, current)
    {
      if want == None {
        return;
      }
      var cur: seq<string> := [];
      if current.Some? {
        cur := current.value;
      }
      var c := Change(field, want.value == cur, false, NoNote);
      if |want.value| == 0 && |cur| > 0 {
        c := c.(note := Clears(|cur|));
      }
      changes := changes + [c];
    }

    method DiffFeatures(want: Option<Features>, current: Option<Features>)
      modifies this
      ensures changes == old(changes) + FeaturesDiff(want, current)
    {
      if want == None {
        return;
      }
      var cur := Features(false, false, false);
      if current.Some? {
        cur := current.value;
      }
      var c := Change(FeaturesField, want.value == cur, false, NoNote);
      if cur.sevEnabled && !want.value.sevEnabled {
        c := c.(blocking := true, note := SevDisabled);
      } else if !cur.sevEnabled && want.value.sevEnabled {
        c := c.(note := SevEnabled);
      }
      changes := changes + [c];
    }

    method DiffBasics(w: Settings, c: Settings)
      modifies this
      ensures changes == old(changes) + BasicDiffs(w, c)
    {
      hide ScalarDiff, ListDiff, FeaturesDiff;
      DiffScalar(IsHaltedField, w.isHalted, c.isHalted);
      DiffScalar(HaltAtCupHeightField, w.haltAtCupHeight, c.haltAtCupHeight);
      DiffScalar(MaxNumberOfCanistersField, w.maxNumberOfCanisters, c.maxNumberOfCanisters);
    }

    method DiffLists(w: Settings, c: Settings)
      modifies this
      ensures changes == old(changes) + ListDiffs(w, c)
    {
      hide ScalarDiff, ListDiff, FeaturesDiff;
      DiffList(SshReadonlyAccessField, w.sshReadonlyAccess, c.sshReadonlyAccess);
      DiffList(SshBackupAccessField, w.sshBackupAccess, c.sshBackupAccess);
      DiffList(SubnetAdminsField, w.subnetAdmins, c.subnetAdmins);
    }

    method DiffRecords(w: Settings, c: Settings)
      modifies this
      ensures changes == old(changes) + RecordDiffs(w, c)
    {
      hide ScalarDiff, ListDiff, FeaturesDiff;
      DiffFeatures(w.features, c.features);
      DiffScalar(ResourceLimitsField, w.resourceLimits, c.resourceLimits);
    }

    method DiffTiming(w: Settings, c: Settings)
      modifies this
      ensures changes == old(changes) + TimingDiffs(w, c)
    {
      hide ScalarDiff, ListDiff, FeaturesDiff;
      DiffScalar(UnitDelayMillisField, w.unitDelayMillis, c.unitDelayMillis);
      DiffScalar(InitialNotaryDelayMillisField, w.initialNotaryDelayMillis, c.initialNotaryDelayMillis);
      DiffScalar(DkgIntervalLengthField, w.dkgIntervalLength, c.dkgIntervalLength);
      DiffScalar(DkgDealingsPerBlockField, w.dkgDealingsPerBlock, c.dkgDealingsPerBlock);
    }

    method DiffIngress(w: Settings, c: Settings)
      modifies this
      ensures changes == old(changes) + IngressDiffs(w, c)
    {
      hide ScalarDiff, ListDiff, FeaturesDiff;
      DiffScalar(MaxIngressBytesPerMessageField, w.maxIngressBytesPerMessage, c.maxIngressBytesPerMessage);
      DiffScalar(MaxIngressBytesPerBlockField, w.maxIngressBytesPerBlock, c.maxIngressBytesPerBlock);
      DiffScalar(MaxIngressMessagesPerBlockField, w.maxIngressMessagesPerBlock, c.maxIngressMessagesPerBlock);
      DiffScalar(MaxBlockPayloadSizeField, w.maxBlockPayloadSize, c.maxBlockPayloadSize);
    }

    method HasBlocking() returns (b: bool)
      ensures b <==> Blocks(changes)
    {
      for i := 0 to |changes|
        invariant forall j :: 0 <= j < i ==> !changes[j].blocking
      {
        if changes[i].blocking {
          return true;
        }
      }
      return false;
    }

    method AllNoOp() returns (b: bool)
      ensures b <==> ChangesNothing(changes)
    {
      if |changes| == 0 {
        return false;
      }
      for i := 0 to |changes|
        invariant forall j :: 0 <= j < i ==> changes[j].noOp
      {
        if !changes[i].noOp {
          return false;
        }
      }
      return true;
    }

    method UpdateSubnetPreflight() returns (level: Level)
      ensures level == Grade(changes)
    {
      var blocking := HasBlocking();
      if blocking {
        return Warn;
      }
      var allNoOp := AllNoOp();
      if allNoOp {
        return NoOp;
      }
      for i := 0 to |changes|
        invariant forall j :: 0 <= j < i ==> changes[j].note == NoNote
      {
        if changes[i].note != NoNote {
          return Warn;
        }
      }
      return Clean;
    }
  }

  method PlanUpdateSubnet(w: Settings, c: Settings) returns (p: UpdateSubnetPlan)
    ensures fresh(p) && p.changes == Changes(w, c)
    ensures Populated(c) ==>
      && (forall ch :: ch in p.changes ==> TrueOf(ch, w, c))
      && (forall f :: Declares(w, f) <==> exists ch :: ch in p.changes && ch.field == f)
  {
    hide TrueOf, Declares, Populated, BasicDiffs, ListDiffs, RecordDiffs, TimingDiffs, IngressDiffs;
    p := new UpdateSubnetPlan();
    p.DiffBasics(w, c);
    p.DiffLists(w, c);
    p.DiffRecords(w, c);
    p.DiffTiming(w, c);
    p.DiffIngress(w, c);
    if Populated(c) {
      ReportIsTrue(w, c);
    }
  }

  ghost predicate NoOps(cs: seq<Change>) {
    forall c :: c in cs ==> c.noOp
  }

  ghost predicate Blocks(cs: seq<Change>) {
    exists c :: c in cs && c.blocking
  }

  ghost predicate Notes(cs: seq<Change>) {
    exists c :: c in cs && c.note != NoNote
  }

  ghost predicate ChangesNothing(cs: seq<Change>) {
    cs != [] && NoOps(cs)
  }

  ghost function Grade(cs: seq<Change>): Level {
    if Blocks(cs) then Warn
    else if ChangesNothing(cs) then NoOp
    else if Notes(cs) then Warn
    else Clean
  }

  // The verdicts, group by group.

  function MergeField<T>(want: Option<T>, current: Option<T>): Option<T> {
    if want.Some? then want else current
  }

  /** What the subnet's settings are once the declared ones override them. */
  function Merge(w: Settings, c: Settings): Settings {
    Settings(
      MergeField(w.isHalted, c.isHalted), MergeField(w.haltAtCupHeight, c.haltAtCupHeight),
      MergeField(w.maxNumberOfCanisters, c.maxNumberOfCanisters),
      MergeField(w.sshReadonlyAccess, c.sshReadonlyAccess), MergeField(w.sshBackupAccess, c.sshBackupAccess),
      MergeField(w.subnetAdmins, c.subnetAdmins),
      MergeField(w.features, c.features), MergeField(w.resourceLimits, c.resourceLimits),
      MergeField(w.unitDelayMillis, c.unitDelayMillis), MergeField(w.initialNotaryDelayMillis, c.initialNotaryDelayMillis),
      MergeField(w.dkgIntervalLength, c.dkgIntervalLength), MergeField(w.dkgDealingsPerBlock, c.dkgDealingsPerBlock),
      MergeField(w.maxIngressBytesPerMessage, c.maxIngressBytesPerMessage),
      MergeField(w.maxIngressBytesPerBlock, c.maxIngressBytesPerBlock),
      MergeField(w.maxIngressMessagesPerBlock, c.maxIngressMessagesPerBlock),
      MergeField(w.maxBlockPayloadSize, c.maxBlockPayloadSize))
  }

  /** Every field known: what currentSettings returns. */
  predicate Populated(c: Settings) {
    && c.isHalted.Some? && c.haltAtCupHeight.Some? && c.maxNumberOfCanisters.Some?
    && c.sshReadonlyAccess.Some? && c.sshBackupAccess.Some? && c.subnetAdmins.Some?
    && c.features.Some? && c.resourceLimits.Some?
    && c.unitDelayMillis.Some? && c.initialNotaryDelayMillis.Some?
    && c.dkgIntervalLength.Some? && c.dkgDealingsPerBlock.Some?
    && c.maxIngressBytesPerMessage.Some? && c.maxIngressBytesPerBlock.Some?
    && c.maxIngressMessagesPerBlock.Some? && c.maxBlockPayloadSize.Some?
  }

  /**
   A scalar's diff says what declaring it does: nothing when undeclared; with a known current value a
   no-op iff the override keeps it, and no remark; with an unknown one never a no-op, and a remark.
   */
  lemma ScalarDiffMeans<T>(field: Field, want: Option<T>, current: Option<T>)
    ensures var d := ScalarDiff(field, want, current);
      && (d == [] <==> want == None) && |d| <= 1 && !Blocks(d)
      && (forall c :: c in d ==> c.field == field)
      && (current.Some? ==> !Notes(d) && (NoOps(d) <==> MergeField(want, current) == current))
      && (current == None && want.Some? ==> Notes(d) && !NoOps(d))
  {
    if want.Some? {
      assert ScalarDiff(field, want, current)[0] in ScalarDiff(field, want, current);
    }
  }

  predicate Cleared(want: Option<seq<string>>, current: Option<seq<string>>) {
    want == Some([]) && ListOf(current) != []
  }

  /** A list is overridden whole: a no-op iff it stays as it is, remarked on iff the override empties it, with the loss. */
  lemma ListDiffMeans(field: Field, want: Option<seq<string>>, current: Option<seq<string>>)
    ensures var d := ListDiff(field, want, current);
      && (d == [] <==> want == None) && |d| <= 1 && !Blocks(d)
      && (forall c :: c in d ==> c.field == field)
      && (NoOps(d) <==> want == None || want == Some(ListOf(current)))
      && (Notes(d) <==> ListOf(current) != [] && ListOf(MergeField(want, current)) == [])
      && (forall c :: c in d && c.note != NoNote ==> c.note == Clears(|ListOf(current)|))
  {
    if want.Some? {
      assert ListDiff(field, want, current)[0] in ListDiff(field, want, current);
    }
  }

  predicate Sev(s: Settings) {
    FeaturesOf(s.features).sevEnabled
  }

  /** Features are overridden whole: blocked iff that turns SEV off, remarked on iff it flips SEV either way. */
  lemma FeaturesDiffMeans(want: Option<Features>, current: Option<Features>)
    ensures var d, before, after := FeaturesDiff(want, current), FeaturesOf(current), FeaturesOf(MergeField(want, current));
      && (d == [] <==> want == None) && |d| <= 1
      && (forall c :: c in d ==> c.field == FeaturesField)
      && (NoOps(d) <==> after == before)
      && (Blocks(d) <==> before.sevEnabled && !after.sevEnabled)
      && (Notes(d) <==> before.sevEnabled != after.sevEnabled)
  {
    if want.Some? {
      assert FeaturesDiff(want, current)[0] in FeaturesDiff(want, current);
    }
  }

  lemma BasicReports(w: Settings, c: Settings)
    ensures !Blocks(BasicDiffs(w, c))
    ensures Populated(c) ==> !Notes(BasicDiffs(w, c))
    ensures Populated(c) ==> (NoOps(BasicDiffs(w, c)) <==>
      && MergeField(w.isHalted, c.isHalted) == c.isHalted
      && MergeField(w.haltAtCupHeight, c.haltAtCupHeight) == c.haltAtCupHeight
      && MergeField(w.maxNumberOfCanisters, c.maxNumberOfCanisters) == c.maxNumberOfCanisters)
  {
  }

  lemma ListsReport(w: Settings, c: Settings)
    ensures !Blocks(ListDiffs(w, c))
    ensures Notes(ListDiffs(w, c)) <==>
      || Cleared(w.sshReadonlyAccess, c.sshReadonlyAccess)
      || Cleared(w.sshBackupAccess, c.sshBackupAccess)
      || Cleared(w.subnetAdmins, c.subnetAdmins)
    ensures Populated(c) ==> (NoOps(ListDiffs(w, c)) <==>
      && MergeField(w.sshReadonlyAccess, c.sshReadonlyAccess) == c.sshReadonlyAccess
      && MergeField(w.sshBackupAccess, c.sshBackupAccess) == c.sshBackupAccess
      && MergeField(w.subnetAdmins, c.subnetAdmins) == c.subnetAdmins)
  {
  }

  lemma RecordsReport(w: Settings, c: Settings)
    ensures Blocks(RecordDiffs(w, c)) <==> Sev(c) && !Sev(Merge(w, c))
    ensures Populated(c) ==> (Notes(RecordDiffs(w, c)) <==> Sev(c) != Sev(Merge(w, c)))
    ensures Populated(c) ==> (NoOps(RecordDiffs(w, c)) <==>
      MergeField(w.features, c.features) == c.features && MergeField(w.resourceLimits, c.resourceLimits) == c.resourceLimits)
  {
  }

  lemma TimingReports(w: Settings, c: Settings)
    ensures !Blocks(TimingDiffs(w, c))
    ensures Populated(c) ==> !Notes(TimingDiffs(w, c))
    ensures Populated(c) ==> (NoOps(TimingDiffs(w, c)) <==>
      && MergeField(w.unitDelayMillis, c.unitDelayMillis) == c.unitDelayMillis
      && MergeField(w.initialNotaryDelayMillis, c.initialNotaryDelayMillis) == c.initialNotaryDelayMillis
      && MergeField(w.dkgIntervalLength, c.dkgIntervalLength) == c.dkgIntervalLength
      && MergeField(w.dkgDealingsPerBlock, c.dkgDealingsPerBlock) == c.dkgDealingsPerBlock)
  {
  }

  lemma IngressReports(w: Settings, c: Settings)
    ensures !Blocks(IngressDiffs(w, c))
    ensures Populated(c) ==> !Notes(IngressDiffs(w, c))
    ensures Populated(c) ==> (NoOps(IngressDiffs(w, c)) <==>
      && MergeField(w.maxIngressBytesPerMessage, c.maxIngressBytesPerMessage) == c.maxIngressBytesPerMessage
      && MergeField(w.maxIngressBytesPerBlock, c.maxIngressBytesPerBlock) == c.maxIngressBytesPerBlock
      && MergeField(w.maxIngressMessagesPerBlock, c.maxIngressMessagesPerBlock) == c.maxIngressMessagesPerBlock
      && MergeField(w.maxBlockPayloadSize, c.maxBlockPayloadSize) == c.maxBlockPayloadSize)
  {
  }

  /** Three questions about the whole plan, answered from its groups. */
  lemma PlanConcat(w: Settings, c: Settings)
    ensures NoOps(Changes(w, c)) <==>
      && NoOps(BasicDiffs(w, c)) && NoOps(ListDiffs(w, c)) && NoOps(RecordDiffs(w, c))
      && NoOps(TimingDiffs(w, c)) && NoOps(IngressDiffs(w, c))
    ensures Blocks(Changes(w, c)) <==>
      || Blocks(BasicDiffs(w, c)) || Blocks(ListDiffs(w, c)) || Blocks(RecordDiffs(w, c))
      || Blocks(TimingDiffs(w, c)) || Blocks(IngressDiffs(w, c))
    ensures Notes(Changes(w, c)) <==>
      || Notes(BasicDiffs(w, c)) || Notes(ListDiffs(w, c)) || Notes(RecordDiffs(w, c))
      || Notes(TimingDiffs(w, c)) || Notes(IngressDiffs(w, c))
  {
  }

  /** The plan is silent exactly about an empty proposal. */
  lemma PlanEmptyIff(w: Settings, c: Settings)
    ensures Changes(w, c) == [] <==> Empty(w)
  {
  }

  /** The no-op verdict is "declares something, and overriding changes nothing". */
  lemma AllNoOpIff(w: Settings, c: Settings)
    requires Populated(c)
    ensures ChangesNothing(Changes(w, c)) <==> !Empty(w) && Merge(w, c) == c
  {
    hide Changes, BasicDiffs, ListDiffs, RecordDiffs, TimingDiffs, IngressDiffs, NoOps, MergeField;
    PlanEmptyIff(w, c);
    PlanConcat(w, c);
    BasicReports(w, c);
    ListsReport(w, c);
    RecordsReport(w, c);
    TimingReports(w, c);
    IngressReports(w, c);
  }

  /** A plan blocks exactly when the override would turn SEV off. */
  lemma BlocksIff(w: Settings, c: Settings)
    ensures Blocks(Changes(w, c)) <==> Sev(c) && !Sev(Merge(w, c))
  {
    hide Changes, BasicDiffs, ListDiffs, RecordDiffs, TimingDiffs, IngressDiffs, Blocks, Sev, Merge;
    PlanConcat(w, c);
    BasicReports(w, c);
    ListsReport(w, c);
    RecordsReport(w, c);
    TimingReports(w, c);
    IngressReports(w, c);
  }

  // Field by field: which change says what of which setting.

  predicate Declares(w: Settings, f: Field) {
    match f
    case IsHaltedField => w.isHalted.Some?
    case HaltAtCupHeightField => w.haltAtCupHeight.Some?
    case MaxNumberOfCanistersField => w.maxNumberOfCanisters.Some?
    case SshReadonlyAccessField => w.sshReadonlyAccess.Some?
    case SshBackupAccessField => w.sshBackupAccess.Some?
    case SubnetAdminsField => w.subnetAdmins.Some?
    case FeaturesField => w.features.Some?
    case ResourceLimitsField => w.resourceLimits.Some?
    case UnitDelayMillisField => w.unitDelayMillis.Some?
    case InitialNotaryDelayMillisField => w.initialNotaryDelayMillis.Some?
    case DkgIntervalLengthField => w.dkgIntervalLength.Some?
    case DkgDealingsPerBlockField => w.dkgDealingsPerBlock.Some?
    case MaxIngressBytesPerMessageField => w.maxIngressBytesPerMessage.Some?
    case MaxIngressBytesPerBlockField => w.maxIngressBytesPerBlock.Some?
    case MaxIngressMessagesPerBlockField => w.maxIngressMessagesPerBlock.Some?
    case MaxBlockPayloadSizeField => w.maxBlockPayloadSize.Some?
  }

  /** Two settings records agree on a field. */
  predicate Agree(a: Settings, b: Settings, f: Field) {
    match f
    case IsHaltedField => a.isHalted == b.isHalted
    case HaltAtCupHeightField => a.haltAtCupHeight == b.haltAtCupHeight
    case MaxNumberOfCanistersField => a.maxNumberOfCanisters == b.maxNumberOfCanisters
    case SshReadonlyAccessField => a.sshReadonlyAccess == b.sshReadonlyAccess
    case SshBackupAccessField => a.sshBackupAccess == b.sshBackupAccess
    case SubnetAdminsField => a.subnetAdmins == b.subnetAdmins
    case FeaturesField => a.features == b.features
    case ResourceLimitsField => a.resourceLimits == b.resourceLimits
    case UnitDelayMillisField => a.unitDelayMillis == b.unitDelayMillis
    case InitialNotaryDelayMillisField => a.initialNotaryDelayMillis == b.initialNotaryDelayMillis
    case DkgIntervalLengthField => a.dkgIntervalLength == b.dkgIntervalLength
    case DkgDealingsPerBlockField => a.dkgDealingsPerBlock == b.dkgDealingsPerBlock
    case MaxIngressBytesPerMessageField => a.maxIngressBytesPerMessage == b.maxIngressBytesPerMessage
    case MaxIngressBytesPerBlockField => a.maxIngressBytesPerBlock == b.maxIngressBytesPerBlock
    case MaxIngressMessagesPerBlockField => a.maxIngressMessagesPerBlock == b.maxIngressMessagesPerBlock
    case MaxBlockPayloadSizeField => a.maxBlockPayloadSize == b.maxBlockPayloadSize
  }

  /** The entries a list field has; no other field has any. */
  function EntriesOf(s: Settings, f: Field): seq<string> {
    match f
    case SshReadonlyAccessField => ListOf(s.sshReadonlyAccess)
    case SshBackupAccessField => ListOf(s.sshBackupAccess)
    case SubnetAdminsField => ListOf(s.subnetAdmins)
    case _ => []
  }

  /** Where the report has a field. */
  function Place(f: Field): nat {
    match f
    case IsHaltedField => 0
    case HaltAtCupHeightField => 1
    case MaxNumberOfCanistersField => 2
    case SshReadonlyAccessField => 3
    case SshBackupAccessField => 4
    case SubnetAdminsField => 5
    case FeaturesField => 6
    case ResourceLimitsField => 7
    case UnitDelayMillisField => 8
    case InitialNotaryDelayMillisField => 9
    case DkgIntervalLengthField => 10
    case DkgDealingsPerBlockField => 11
    case MaxIngressBytesPerMessageField => 12
    case MaxIngressBytesPerBlockField => 13
    case MaxIngressMessagesPerBlockField => 14
    case MaxBlockPayloadSizeField => 15
  }

  /**
   What a change says of its field, of what overriding does to that field and to no other: a no-op iff
   nothing; blocking iff SEV goes off; and a note on each flip of SEV and on the loss of a list.
   */
  ghost predicate TrueOf(ch: Change, w: Settings, c: Settings) {
    var f, after := ch.field, Merge(w, c);
    && Declares(w, f)
    && (ch.noOp <==> Agree(after, c, f))
    && (ch.blocking <==> f == FeaturesField && Sev(c) && !Sev(after))
    && (ch.note == SevDisabled <==> f == FeaturesField && Sev(c) && !Sev(after))
    && (ch.note == SevEnabled <==> f == FeaturesField && !Sev(c) && Sev(after))
    && (ch.note.Clears? <==> EntriesOf(c, f) != [] && EntriesOf(after, f) == [])
    && (ch.note.Clears? ==> ch.note.entries == |EntriesOf(c, f)|)
    && ch.note != UnknownCurrent
  }

  /** A stretch of the report: true of its fields, in their places, and without a gap. */
  ghost predicate Covers(cs: seq<Change>, w: Settings, c: Settings, from: nat, to: nat) {
    && (forall ch :: ch in cs ==> TrueOf(ch, w, c) && from <= Place(ch.field) < to)
    && (forall i, j :: 0 <= i < j < |cs| ==> Place(cs[i].field) < Place(cs[j].field))
    && (forall f :: from <= Place(f) < to && Declares(w, f) ==> exists ch :: ch in cs && ch.field == f)
  }

  lemma CoversConcat(a: seq<Change>, b: seq<Change>, w: Settings, c: Settings, from: nat, mid: nat, to: nat)
    requires Covers(a, w, c, from, mid) && Covers(b, w, c, mid, to) && from <= mid <= to
    ensures Covers(a + b, w, c, from, to)
  {
    hide TrueOf, Declares;
    forall i, j | 0 <= i < j < |a + b| ensures Place((a + b)[i].field) < Place((a + b)[j].field) {
      assert (a + b)[i] in a || (a + b)[i] in b;
      assert (a + b)[j] in a || (a + b)[j] in b;
    }
    forall f | from <= Place(f) < to && Declares(w, f) ensures exists ch :: ch in a + b && ch.field == f {
      if Place(f) < mid {
        var ch :| ch in a && ch.field == f;
        assert ch in a + b;
      } else {
        var ch :| ch in b && ch.field == f;
        assert ch in a + b;
      }
    }
  }

  /** One field's diff covers its place. */
  lemma CoversOne(d: seq<Change>, w: Settings, c: Settings, f: Field)
    requires |d| <= 1 && (d == [] <==> !Declares(w, f))
    requires d != [] ==> d[0].field == f && TrueOf(d[0], w, c)
    ensures Covers(d, w, c, Place(f), Place(f) + 1)
  {
    hide TrueOf;
    if d != [] {
      assert d == [d[0]] && d[0] in d;
    }
  }

  /** A scalar's diff is true of it. */
  lemma ScalarCovers<T>(w: Settings, c: Settings, f: Field, want: Option<T>, current: Option<T>)
    requires f != FeaturesField && EntriesOf(c, f) == []
    requires current.Some? && (want.Some? <==> Declares(w, f))
    requires MergeField(want, current) == current <==> Agree(Merge(w, c), c, f)
    ensures Covers(ScalarDiff(f, want, current), w, c, Place(f), Place(f) + 1)
  {
    hide Merge, Agree, Declares, Sev, Place, Covers;
    CoversOne(ScalarDiff(f, want, current), w, c, f);
  }

  lemma ListCovers(w: Settings, c: Settings, f: Field, want: Option<seq<string>>, current: Option<seq<string>>)
    requires f != FeaturesField && current.Some? && EntriesOf(c, f) == current.value
    requires want.Some? <==> Declares(w, f)
    requires EntriesOf(Merge(w, c), f) == ListOf(MergeField(want, current))
    requires MergeField(want, current) == current <==> Agree(Merge(w, c), c, f)
    ensures Covers(ListDiff(f, want, current), w, c, Place(f), Place(f) + 1)
  {
    hide Merge, Agree, Declares, EntriesOf, Sev, Place, Covers;
    CoversOne(ListDiff(f, want, current), w, c, f);
  }

  lemma FeaturesCover(w: Settings, c: Settings)
    requires Populated(c)
    ensures Covers(FeaturesDiff(w.features, c.features), w, c, Place(FeaturesField), Place(FeaturesField) + 1)
  {
    hide Covers;
    CoversOne(FeaturesDiff(w.features, c.features), w, c, FeaturesField);
  }

  lemma BasicsCover(w: Settings, c: Settings)
    requires Populated(c)
    ensures Covers(BasicDiffs(w, c), w, c, 0, 3)
  {
    hide Covers, ScalarDiff;
    ScalarCovers(w, c, IsHaltedField, w.isHalted, c.isHalted);
    ScalarCovers(w, c, HaltAtCupHeightField, w.haltAtCupHeight, c.haltAtCupHeight);
    ScalarCovers(w, c, MaxNumberOfCanistersField, w.maxNumberOfCanisters, c.maxNumberOfCanisters);
    var a := ScalarDiff(IsHaltedField, w.isHalted, c.isHalted);
    var b := ScalarDiff(HaltAtCupHeightField, w.haltAtCupHeight, c.haltAtCupHeight);
    CoversConcat(a, b, w, c, 0, 1, 2);
    CoversConcat(a + b, ScalarDiff(MaxNumberOfCanistersField, w.maxNumberOfCanisters, c.maxNumberOfCanisters), w, c, 0, 2, 3);
  }

  lemma ListsCover(w: Settings, c: Settings)
    requires Populated(c)
    ensures Covers(ListDiffs(w, c), w, c, 3, 6)
  {
    hide Covers, ListDiff;
    ListCovers(w, c, SshReadonlyAccessField, w.sshReadonlyAccess, c.sshReadonlyAccess);
    ListCovers(w, c, SshBackupAccessField, w.sshBackupAccess, c.sshBackupAccess);
    ListCovers(w, c, SubnetAdminsField, w.subnetAdmins, c.subnetAdmins);
    var a := ListDiff(SshReadonlyAccessField, w.sshReadonlyAccess, c.sshReadonlyAccess);
    var b := ListDiff(SshBackupAccessField, w.sshBackupAccess, c.sshBackupAccess);
    CoversConcat(a, b, w, c, 3, 4, 5);
    CoversConcat(a + b, ListDiff(SubnetAdminsField, w.subnetAdmins, c.subnetAdmins), w, c, 3, 5, 6);
  }

  lemma RecordsCover(w: Settings, c: Settings)
    requires Populated(c)
    ensures Covers(RecordDiffs(w, c), w, c, 6, 8)
  {
    hide Covers, ScalarDiff, FeaturesDiff;
    FeaturesCover(w, c);
    ScalarCovers(w, c, ResourceLimitsField, w.resourceLimits, c.resourceLimits);
    CoversConcat(FeaturesDiff(w.features, c.features),
                 ScalarDiff(ResourceLimitsField, w.resourceLimits, c.resourceLimits), w, c, 6, 7, 8);
  }

  lemma TimingCovers(w: Settings, c: Settings)
    requires Populated(c)
    ensures Covers(TimingDiffs(w, c), w, c, 8, 12)
  {
    hide Covers, ScalarDiff;
    ScalarCovers(w, c, UnitDelayMillisField, w.unitDelayMillis, c.unitDelayMillis);
    ScalarCovers(w, c, InitialNotaryDelayMillisField, w.initialNotaryDelayMillis, c.initialNotaryDelayMillis);
    ScalarCovers(w, c, DkgIntervalLengthField, w.dkgIntervalLength, c.dkgIntervalLength);
    ScalarCovers(w, c, DkgDealingsPerBlockField, w.dkgDealingsPerBlock, c.dkgDealingsPerBlock);
    var a := ScalarDiff(UnitDelayMillisField, w.unitDelayMillis, c.unitDelayMillis);
    var b := ScalarDiff(InitialNotaryDelayMillisField, w.initialNotaryDelayMillis, c.initialNotaryDelayMillis);
    var d := ScalarDiff(DkgIntervalLengthField, w.dkgIntervalLength, c.dkgIntervalLength);
    CoversConcat(a, b, w, c, 8, 9, 10);
    CoversConcat(a + b, d, w, c, 8, 10, 11);
    CoversConcat(a + b + d, ScalarDiff(DkgDealingsPerBlockField, w.dkgDealingsPerBlock, c.dkgDealingsPerBlock), w, c, 8, 11, 12);
  }

  lemma IngressCovers(w: Settings, c: Settings)
    requires Populated(c)
    ensures Covers(IngressDiffs(w, c), w, c, 12, 16)
  {
    hide Covers, ScalarDiff;
    ScalarCovers(w, c, MaxIngressBytesPerMessageField, w.maxIngressBytesPerMessage, c.maxIngressBytesPerMessage);
    ScalarCovers(w, c, MaxIngressBytesPerBlockField, w.maxIngressBytesPerBlock, c.maxIngressBytesPerBlock);
    ScalarCovers(w, c, MaxIngressMessagesPerBlockField, w.maxIngressMessagesPerBlock, c.maxIngressMessagesPerBlock);
    ScalarCovers(w, c, MaxBlockPayloadSizeField, w.maxBlockPayloadSize, c.maxBlockPayloadSize);
    var a := ScalarDiff(MaxIngressBytesPerMessageField, w.maxIngressBytesPerMessage, c.maxIngressBytesPerMessage);
    var b := ScalarDiff(MaxIngressBytesPerBlockField, w.maxIngressBytesPerBlock, c.maxIngressBytesPerBlock);
    var d := ScalarDiff(MaxIngressMessagesPerBlockField, w.maxIngressMessagesPerBlock, c.maxIngressMessagesPerBlock);
    CoversConcat(a, b, w, c, 12, 13, 14);
    CoversConcat(a + b, d, w, c, 12, 14, 15);
    CoversConcat(a + b + d, ScalarDiff(MaxBlockPayloadSizeField, w.maxBlockPayloadSize, c.maxBlockPayloadSize), w, c, 12, 15, 16);
  }

  /**
   The whole report: exactly one change for each declared field, in order, and each change true of the
   field it names.
   */
  lemma ReportIsTrue(w: Settings, c: Settings)
    requires Populated(c)
    ensures forall f :: Declares(w, f) <==> exists ch :: ch in Changes(w, c) && ch.field == f
    ensures forall ch :: ch in Changes(w, c) ==> TrueOf(ch, w, c)
    ensures forall i, j :: 0 <= i < j < |Changes(w, c)| ==> Place(Changes(w, c)[i].field) < Place(Changes(w, c)[j].field)
  {
    hide Populated, BasicDiffs, ListDiffs, RecordDiffs, TimingDiffs, IngressDiffs, Covers;
    BasicsCover(w, c);
    ListsCover(w, c);
    RecordsCover(w, c);
    TimingCovers(w, c);
    IngressCovers(w, c);
    var a, b, d, e := BasicDiffs(w, c), ListDiffs(w, c), RecordDiffs(w, c), TimingDiffs(w, c);
    CoversConcat(a, b, w, c, 0, 3, 6);
    CoversConcat(a + b, d, w, c, 0, 6, 8);
    CoversConcat(a + b + d, e, w, c, 0, 8, 12);
    CoversConcat(a + b + d + e, IngressDiffs(w, c), w, c, 0, 12, 16);
    CoversAll(Changes(w, c), w, c);
  }

  lemma CoversAll(cs: seq<Change>, w: Settings, c: Settings)
    requires Covers(cs, w, c, 0, 16)
    ensures forall f :: Declares(w, f) <==> exists ch :: ch in cs && ch.field == f
    ensures forall ch :: ch in cs ==> TrueOf(ch, w, c)
    ensures forall i, j :: 0 <= i < j < |cs| ==> Place(cs[i].field) < Place(cs[j].field)
  {
    hide Declares, Agree, Sev, Merge, EntriesOf;
    forall f ensures Place(f) < 16 {
    }
  }

  /** A nested record or value that a live record lacks reads as zero or off, SEV included. */
  lemma MissingReadsAsDefault(rec: SubnetRecord)
    ensures var s := CurrentSettings(rec);
      && Populated(s)
      && (Sev(s) <==> rec.features.Some? && rec.features.value.sevEnabled == Some(true))
      && (s.features.value.canisterSandboxing <==> rec.features.Some? && rec.features.value.canisterSandboxing)
      && (s.features.value.httpRequests <==> rec.features.Some? && rec.features.value.httpRequests)
      && (rec.resourceLimits == None ==> s.resourceLimits == Some(Limits(0, 0)))
      && (rec.resourceLimits.Some? ==>
            && (s.resourceLimits.value.maximumStateSize ==
                if rec.resourceLimits.value.maximumStateSize == None then 0 else rec.resourceLimits.value.maximumStateSize.value)
            && (s.resourceLimits.value.maximumStateDelta ==
                if rec.resourceLimits.value.maximumStateDelta == None then 0 else rec.resourceLimits.value.maximumStateDelta.value))
  {
  }

  predicate ClearsAList(w: Settings, c: Settings) {
    || Cleared(w.sshReadonlyAccess, c.sshReadonlyAccess)
    || Cleared(w.sshBackupAccess, c.sshBackupAccess)
    || Cleared(w.subnetAdmins, c.subnetAdmins)
  }

  lemma NotesIff(w: Settings, c: Settings)
    requires Populated(c)
    ensures Notes(Changes(w, c)) <==> Sev(c) != Sev(Merge(w, c)) || ClearsAList(w, c)
  {
    hide Changes, BasicDiffs, ListDiffs, RecordDiffs, TimingDiffs, IngressDiffs, Notes, Sev, Merge, Cleared;
    PlanConcat(w, c);
    BasicReports(w, c);
    ListsReport(w, c);
    RecordsReport(w, c);
    TimingReports(w, c);
    IngressReports(w, c);
  }

  /** The grade, exactly: refused as a no-op, worth a look, or clean. */
  lemma PreflightExact(w: Settings, c: Settings)
    requires Populated(c)
    ensures Grade(Changes(w, c)) ==
      if !Empty(w) && Merge(w, c) == c then NoOp
      else if Sev(c) != Sev(Merge(w, c)) || ClearsAList(w, c) then Warn
      else Clean
  {
    hide Changes, Blocks, Notes, ChangesNothing, ClearsAList;
    AllNoOpIff(w, c);
    BlocksIff(w, c);
    NotesIff(w, c);
  }

  /** Executing the payload and reading the record back is the field-wise override. */
  lemma ExecuteIsMerge(rec: SubnetRecord, w: Settings)
    ensures CurrentSettings(Execute(rec, ToPayload(w))) == Merge(w, CurrentSettings(rec))
  {
  }

  /** The preflight against a live record grades a non-empty proposal NoOp exactly when executing it changes no setting. */
  lemma PreflightSeesExecution(rec: SubnetRecord, w: Settings)
    ensures Grade(Changes(w, CurrentSettings(rec))) == NoOp <==>
      !Empty(w) && CurrentSettings(Execute(rec, ToPayload(w))) == CurrentSettings(rec)
    ensures Blocks(Changes(w, CurrentSettings(rec))) <==>
      Sev(CurrentSettings(rec)) && !Sev(CurrentSettings(Execute(rec, ToPayload(w))))
    ensures Empty(w) ==> Grade(Changes(w, CurrentSettings(rec))) == Clean
  {
    hide Grade, Blocks, Sev, Changes;
    ExecuteIsMerge(rec, w);
    PreflightExact(w, CurrentSettings(rec));
    BlocksIff(w, CurrentSettings(rec));
  }

  /** A proposal already executed is recognised: planned again, it is refused as a no-op. */
  lemma ReplanIsNoOp(rec: SubnetRecord, w: Settings)
    requires !Empty(w)
    ensures Grade(Changes(w, CurrentSettings(Execute(rec, ToPayload(w))))) == NoOp
  {
    hide Grade, Changes;
    ExecuteIsMerge(rec, w);
    var c := CurrentSettings(rec);
    PreflightExact(w, Merge(w, c));
  }
}
