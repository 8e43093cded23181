# alpage: the deterministic core, modelled and proved

alpage plans, submits and tracks proposals to the Internet Computer's Network Nervous System, and
reconciles declared nodes, subnets and operators against the registry. This project models the part
that decides: what a dry run plants in a local registry, what is submitted and remembered, what has
been elected, and what counts as drift. `dafny verify dfyconfig.toml` checks all of it.

Code that changes state is written as methods and classes with loops, each proved against a function
or a declarative predicate; the laws are lemmas about those, over every input, every run of commands
and every schedule.

| part | modules |
|---|---|
| registry mirror and dry-run init batch | `Registry`, `Mirror`, `UniqueBytes`, `Seed`, `SeedKeys`, `SeedValues`, `Install` |
| submission record, crashes, commands | `State`, `SaveFile`, `Commands` |
| log replay and caches | `Elections`, `History`, `Chips` |
| planners against execution | `Preflights`, `UpdateSubnet`, `Membership` |
| resource checks and drift | `Resources`, `DefaultVersion`, `ChipId`, `NodeSev`, `SubnetReconcile`, `Ownership`, `VersionReconcile`, `Tables` |
| concurrent collection | `Workers` |
| vocabulary | `Wrappers`, `Sequences`, `Sorting` |

## How the outside enters

- A registry at one pinned version is a function from keys to answers (`Mirror.Source`). Records are decoded values; `NilBytes` stands for a nil slice. Keys are a datatype, and `Registry.TextInjective` shows that the key texts the code concatenates collide only when the keys are equal.
- Randomness is a parameter: `draw(i)` is the i-th node signing key drawn, and freshness of the drawn node ids is a hypothesis where a law needs it. Map ranges pick keys in an arbitrary order.
- A governance or dashboard answer, AMD's verdict on a chip and the fate of each file-system step are parameters; a step of a save may fail or be the last thing its process does. The JSON of the state file is any encoding that decodes, after the nil-map repair, to what was encoded.
- Principals, node ids and operator ids are their texts; the empty text is the empty principal, or an omitted attribute.

## Where the code and its promises part

Each of these is kept as the code has it and settled, after a concrete case in which it fails, by the exact condition under which it holds.

- **Nil node records** (`nns/mirror.go:335-343`). `copyNode` reads a nil value as "already mirrored". A node record the registry has, but whose reply carries no value, comes back nil: it is copied without its TLS certificate and keys, and the mirror still succeeds (`Mirror.NilNodeExample`). The mirror is the whole closure iff no reached node record is nil (`Mirror.NilNodeEscapes`). A present value of length zero is not nil.
- **Two default GuestOS versions** (`nns/resources.go:353-365`). The name of the default seen last doubles as the "seen" flag, so a default block with an empty name is forgotten: `["", "x"]` passes and `["x", ""]` does not (`DefaultVersion.UnnamedDefaultEscapes`). Order decides the verdict iff exactly one named default stands beside unnamed ones (`DefaultVersion.OrderMattersIff`); with non-empty names the check is "at most one default" (`DefaultVersion.OneDefaultIff`). In either case two orders that both pass give every node the same expected version (`DefaultVersion.ExpectationPermutes`).
- **Membership no-ops** (`nns/plan.go:74-84`). A proposal that adds and removes the same id can change nothing and still be graded as a change (`Membership.OverlapEscapes`). The no-op grade is "non-empty, changes nothing, and no id on both lists" (`Membership.NoOpIff`).
- **Resubmission** (`nns/state.go:160-177`). An entry with proposal id 0 does not count as submitted. The same plain apply twice, answered with id 0 and saved both times, is two submissions (`Commands.ZeroIdReopens`). A plain apply submits exactly when nothing is recorded under the name, or an id 0 last (`Commands.PlainSubmitsIff`); a submission without `--force` after a recorded one always follows an id 0 (`Commands.SecondFollowsZero`); and without an id 0 at most one submission is neither forced nor lost (`Commands.ResubmissionBounded`). The general bound is reached with any number of lost saves and zero ids (`Commands.BoundAttained`).
- **Duplicate seeds** (`nns/install.go:136-172`). Nothing checks that seeds are distinct: two operators seeded in one data center, with nothing mirrored, insert its record twice (`Install.SharedDataCenter`). The batch has no duplicate iff, wherever two subnet seeds name one subnet, two draws give one node, or two provider seeds share an operator or a data center, the records concerned are mirrored (`Install.BatchDistinctIff`).
- **Node ids that are no literals** (`nns/resources.go:402-460`). The uniqueness check reads an id given as an expression, like a blank one, as none, so two nodes may share one (`Resources.EscapedIds`). In an accepted file node ids are unique, as the one-row-per-node laws want them, iff no such id repeats another; with literal ids they always are (`Resources.AcceptedNodesUnique`).
- **Short chip records** (`cmd/alp/main.go:734-737`). The first 12 bytes of every chip looked up are shown, but an unreadable chip record is looked up as it stands, and may have fewer (`NodeSev.ShortRecordExample`). Every chip looked up is long enough iff each such short record is already vouched for in the cache, and the cache is used (`NodeSev.ShownSafeIff`).

## Model

| member | source | states |
|---|---|---|
| Registry.TextInjective | nns/mirror.go:236-257 | two keys have the same text only when they are the same key, so deduplicating by text deduplicates keys |
| Mirror.MirrorBuilder.CopyKey | nns/mirror.go:236-257 | a new key the source has is recorded once with its own bytes; a seen key is not read again and yields nil; absence is an error iff required |
| Mirror.MirrorBuilder.CopyNode | nns/mirror.go:335-370 | adds exactly the keys one node owes and reports its operator; an error names one of those keys the source does not serve |
| Mirror.MirrorBuilder.CopyOperator | nns/mirror.go:374-389 | adds the operator and the data center it names, once |
| Mirror.MirrorBuilder.WalkSubnets | nns/mirror.go:265-299 | each named subnet is walked once; the queued nodes and versions are those the scope or a subnet record names |
| Mirror.BuildMirror | nns/mirror.go:262-330 | succeeds iff every key the walk owes is served; then the mutations are exactly those keys, each once, verbatim, each asked of the source once, with subnets the scope's and versions those mirrored; an error names an unserved key |
| Mirror.ClosureInsideClosed | nns/mirror.go:262-389 | the closure is contained in every record set that holds the scope and is closed under "the registry's invariants look this up" |
| Mirror.ClosureIsClosed | nns/mirror.go:262-389 | and is such a set itself: the least one |
| Mirror.NilNodeEscapes | nns/mirror.go:335-370 | what the walk owes is the closure iff no reached node record is nil |
| Mirror.NilNodeExample | nns/mirror.go:335-343 | with such a record the mirror succeeds although the closure's TLS certificate is missing |
| Mirror.SucceedsIffClosureServed | nns/mirror.go:262-330 | without one, success means the registry serves the whole closure |
| Mirror.ServedMeans | nns/mirror.go:236-389 | served means present, and for a subnet, node or operator key that the value is such a record or no bytes |
| Mirror.MirrorRefsResolve | nns/mirror.go:262-330 | no mirrored record names a record left behind |
| UniqueBytes.SameLittleEndian | nns/seed.go:309-316 | n little-endian bytes determine a number exactly modulo 256 to the n |
| UniqueBytes.UniqueKeyInjective | nns/seed.go:309-316 | two salts give the same bytes iff they agree modulo 2 to the 64 |
| UniqueBytes.DistinctSaltsDistinctKeys | nns/seed.go:309-316 | so distinct 64-bit salts never collide |
| UniqueBytes.UniqueKeyAt | nns/seed.go:309-316 | byte by byte: twelve fixed characters, then the salt shifted right by 8 bits at a time |
| UniqueBytes.Salt.Next | nns/seed.go:309-316 | advances the shared salt by one and spells the new value |
| Seed.SeedNode | nns/seed.go:226-287 | node g of the batch uses salts 5g+1 to 5g+5 and writes its six records with them |
| Seed.SeedNodes | nns/seed.go:226-287 | n nodes advance the shared salt by 5n; a negative count seeds none |
| Seed.SeedSubnets | nns/seed.go:141-186 | the subnets' records in seed order, the members each got, and the set of versions they run |
| Seed.SeedMutations | nns/seed.go:136-218 | writes the seeded subnets, then one list of all subnets and the missing versions, or nothing when there is nothing to seed or list |
| Seed.ListSubnets | nns/seed.go:188-203 | the list holds exactly the seeded and the mirrored subnets, each once when the seeds are distinct |
| Seed.SeedReplicaVersions | nns/seed.go:330-351 | one record per version in use that the mirror did not bring |
| Seed.SeedProviderMutations | nns/seed.go:89-124 | succeeds iff every principal decodes; then every seed brings its operator and data center |
| Seed.SeedDataCenterMutations | nns/seed.go:62-83 | one record per data center not taken yet, the first of several seeds with one id |
| Seed.GovernanceNodeProviders | nns/install.go:272-287 | the providers named by seeds, each once; fails iff one does not decode |
| Seed.BatchFillers | nns/seed.go:136-287 | the filled keys and certificates of a batch are, in order, slots 1 to 4 of each node, numbered through all seeds |
| Seed.FillersDistinct | nns/seed.go:226-287 | no two filled keys or certificates of a batch agree, as far as a 64-bit salt can count |
| Seed.BatchEndpoints | nns/seed.go:136-287 | the node records of a batch are those of nodes 0 to the total over all seeds, each with its own salt's ports |
| Seed.EndpointBound | nns/seed.go:226-287 | all endpoints of a batch's node records are pairwise distinct iff its seeds have at most 2000 nodes in total |
| SeedKeys.SubnetsKeys | nns/seed.go:136-218 | the keys fabricated for seeded subnets and their nodes, exactly |
| SeedKeys.SubnetsDistinct | nns/seed.go:136-218 | outside any set of keys, the fabricated subnets write a key twice iff two seeds name one subnet, or two draws give one node, with a record outside it |
| SeedKeys.ProvidersDistinct | nns/seed.go:89-124 | outside any set of keys, the provider records write a key twice iff two seeds share an operator or a data center outside it |
| SeedKeys.SubnetRefs | nns/seed.go:136-218 | a fabricated record refers only to records fabricated with it, or to the version it runs |
| SeedValues.SubnetsMean | nns/seed.go:136-287 | every fabricated subnet or node record is that of one seed or of one node of the batch: its ports, and under each purpose the key made for it |
| SeedValues.SubnetRecordMeans | nns/seed.go:146-168 | the record of a seeded subnet lists its own nodes, as many as asked for, with its version, and is a system subnet iff it is seeded first |
| SeedValues.MembersMapAt | nns/seed.go:136-218 | with distinct seeds the nodes reported for a subnet are those the written record lists |
| SeedValues.ProvidersMean | nns/seed.go:89-124 | every provider record is a seed's operator, with its provider and data center, or its data center, with its region and no owner |
| SeedValues.DcsMean | nns/seed.go:62-83 | every data center record is that of the first seed with its id, with its region and owner |
| Install.MirrorPrecedence | nns/install.go:176-188 | in place, the kept prefix is the seeded mutations the mirror does not supply, in order |
| Install.MinimalRegistryInit | nns/install.go:136-172 | the whole batch, each fabricated record of which holds what the seeds say of its key, and the seeded members; fails iff a provider seed does not decode |
| Install.SeededKeys | nns/install.go:136-172 | the fabricated batch writes exactly the declared seeded keys |
| Install.BatchKeys | nns/install.go:136-188 | the batch inserts exactly the mirrored and the seeded keys |
| Install.BatchDistinct | nns/install.go:136-188 | with distinct seeds and fresh nodes no key is inserted twice, whatever mirror is merged in |
| Install.BatchDistinctIff | nns/install.go:136-188 | with any seeds, no key is inserted twice iff the subnets, nodes, operators and data centers that the seeds repeat have their records mirrored |
| Install.SharedDataCenter | nns/seed.go:89-124 | two operators seeded in one data center, with no mirror, insert its record twice |
| Install.MirrorWins | nns/install.go:176-188 | a mutation is in the merge iff it is mirrored, or seeded under a key the mirror lacks |
| Install.BatchRefsResolve | nns/install.go:136-172 | every record named by a record of the batch is in the batch |
| Install.SubnetListExact | nns/install.go:136-172 | the subnet list names each subnet with a record in the batch once, and nothing else |
| Install.VersionsElected | nns/seed.go:330-351 | a version record is in the batch iff a seed runs it or the mirror brought it, never from both |
| Install.SubnetOneOrigin | nns/install.go:176-188 | a subnet's record, threshold key and CUP are all mirrored or all fabricated, the last two from one point |
| Install.BatchSaysSeeds | nns/install.go:136-188 | what a record of the batch holds when it is not mirrored, for every kind of key, read off the seeds; a data center's own seed gives way to a provider seed |
| Install.SeededSubnetRecord | nns/seed.go:146-168 | a seeded subnet that is not mirrored has, in the batch, the members the call reports, as many as asked for and each with its node record beside it, its seed's version, and the system type iff it is first |
| Install.OneSystemSubnet | nns/seed.go:153-158 | unless it is mirrored the first seed's subnet is in the batch, and among the fabricated subnets it alone is a system subnet |
| Install.ListWrittenIff | nns/seed.go:136-139 | the subnet list is written iff a subnet is seeded, or a subnet or version mirrored |
| State.ImportedIsGuarded | nns/state.go:121-177 | a successful import closes its name to plain applies, as a repeat or as drift, leaves --force open, refuses a second import, and changes no verdict on another name |
| State.GuardMeans | nns/state.go:160-177 | each verdict of the guard, and the entry it reports, from what is on record, the payload hash and --force |
| State.State.RecordState | nns/state.go:185-196 | a terminal entry, an unknown name and an empty or equal state change nothing; reports whether it changed anything |
| State.State.RecordOutcome | nns/state.go:201-209 | an outcome is kept only for a terminal answer and only the first time |
| State.State.RecordSubmittedAt | nns/state.go:216-224 | overwrites the submission time with a different non-empty one |
| State.ObservedMeans | nns/state.go:185-224 | what any answer leaves in every field of its entry: the first terminal state with its resolution time, the last non-empty submission time, the first terminal result number by number |
| State.ObservedKeeps | nns/state.go:185-224 | recording an answer keeps entries consistent and the history of a terminal entry |
| State.FirstTerminalSettles | nns/status.go:65-82 | after the first terminal answer the cached status is that answer, submission time aside |
| State.CachedLineIsQueriedLine | nns/status.go:198-219 | the status line printed from the cache is the one the query printed, ever after |
| State.SettledIffTerminalOutcome | nns/status.go:65-82 | an answer settles an entry iff it was settled or the answer is terminal |
| State.LineTells | nns/status.go:198-219 | a line shows the answer's label, yes, no and failure, is flagged iff the dashboard gave it, and its shares are those of the total, of the votes cast, or none; without wrap they add up |
| State.SettledTells | nns/status.go:65-82 | a result is cached iff the entry is terminal and has one, and the line from it shows that result's numbers |
| SaveFile.FileSystem.SaveState | nns/state.go:89-114 | whichever step fails or dies, the path holds the old text or the complete new one, other files are untouched and a surviving process leaves no temporary file |
| SaveFile.FileSystem.LoadState | nns/state.go:64-83 | a missing file is the empty state, any other read failure and an undecodable text are errors, and missing maps are repaired, so what was saved is what is loaded |
| SaveFile.SaveThenLoad | nns/state.go:64-114 | one save under any fate and a load give the old state or the new one |
| Commands.Workspace.SubmitAndRecord | nns/submit.go:44-62 | submit, then record, then save: nothing is recorded for a refused submission, and a lost save leaves the chain ahead of the disk |
| Commands.Workspace.RunApply | cmd/alp/main.go:154-229 | the guard, the dry run, access, preflight, --yes and confirmation in order; past all of them one submission, and nothing at all if any gate is shut |
| Commands.Workspace.RunImport | cmd/alp/main.go:241-285 | one guarded entry, written to the state file or not at all |
| Commands.Workspace.RunStatus | cmd/alp/main.go:515-546 | one line per proposal, showing the recorded result, the answer, or that there is none; the queried ones recorded; one save at the end |
| Commands.Workspace.RunVerifyChips | cmd/alp/main.go:719-752 | the chip check rewrites the chip half of the state file as AMD answered, and nothing else |
| Commands.Workspace.RunCommands | nns/state.go:89-114 | over any run of commands with any failures and crashes, the state file is absent with nothing recorded or the whole encoding of what the run recorded |
| Commands.ApplyMeans | cmd/alp/main.go:154-229 | an apply reaches the chain iff --yes, the confirmation, access, the dry run and the preflight let it and the name is free or forced open; then as its own submission, and, once saved, its own entry in every field |
| Commands.ImportMeans | nns/state.go:126-147 | an import changes the disk iff its id is real, its name new and its save lands, by its own entry in every field |
| Commands.QueriesExact | cmd/alp/main.go:517-530 | a status run asks about exactly the submitted proposals without a cached result, or all submitted ones on --refresh |
| Commands.QueriedOnce | cmd/alp/main.go:517-530 | and about none twice |
| Commands.StatusRecords | cmd/alp/main.go:530-546 | what a status run leaves on disk of each proposal: a queried one takes up its answer, all others stand, and without a save, or with --no-record, nothing changes |
| Commands.ChipMeans | nns/chipstate.go:31-61 | what a chip check leaves on disk of each chip: AMD's product and the time where it vouches, nothing where a refresh is refused, otherwise what there was |
| Commands.ReachableConsistent | nns/state.go:121-224 | in every reachable state a saved id came from a recorded submission or an import, and an entry has an outcome iff it is terminal |
| Commands.TerminalHistoryStands | nns/state.go:160-196 | once a saved entry is terminal, no run submits under its name or changes its kind, id, hash, submitter, neuron, host, status or resolution time, and its outcome appears at most once |
| Commands.SettledResultIsServed | cmd/alp/main.go:522-540 | every later status run without --refresh prints for a name, at any turn, the line printed with its first terminal answer |
| Commands.SettledNeverQueried | cmd/alp/main.go:522-528 | once settled on disk, a proposal stays settled, and over every further run nothing queries it without --refresh |
| Commands.LookupsBounded | nns/chipstate.go:7-20 | over any run of all commands, AMD is asked without --refresh-chips about a chip it vouches for at most once beyond the answers lost with their save |
| Commands.ChipsAgreeForever | cmd/alp/main.go:719-752 | over every run of all commands the saved chip verdicts keep agreeing with AMD |
| Commands.SubmissionsAreGated | cmd/alp/main.go:154-229 | over any run the submissions are those of some apply commands, in order, at most one each, and each of these had --yes, the typed confirmation, neuron access, no failed dry run and a preflight that was not a no-op, unless forced |
| Commands.ResubmissionBounded | nns/state.go:160-177 | under one name, submissions neither forced nor lost number at most 1 plus the recorded zero ids, and all of them at most that plus the forced or lost ones |
| Commands.SecondFollowsZero | nns/state.go:160-177 | an unforced submission after a recorded one finds an id 0 recorded last |
| Commands.PlainSubmitsIff | nns/state.go:160-177 | in every reachable state a plain apply whose gates pass submits iff nothing is recorded under its name or an id 0 last |
| Commands.BoundAttained | nns/submit.go:44-62 | n lost saves and m zero ids really cost n plus m submissions before the one that counts |
| Commands.ZeroIdReopens | nns/state.go:160-163 | the same plain apply twice, answered with id 0 and saved, is two submissions |
| Workers.InvReached | cmd/alp/main.go:765-798 | counters, mutual exclusion, start order and truth of the shared data hold after every schedule |
| Workers.AtMostSixteen | cmd/alp/main.go:774-782 | at most 16 fetches are in flight under every schedule |
| Workers.SlotsAreUsed | cmd/alp/main.go:774-782 | and any number up to 16 can be, with as many ids |
| Workers.SharedDataLocked | cmd/alp/main.go:782-792 | only the lock holder's step touches the map or the error |
| Workers.SomebodyCanMove | cmd/alp/main.go:765-798 | until main returns some goroutine or main can step |
| Workers.ScheduleBounded | cmd/alp/main.go:765-798 | every schedule uses up one of 8 steps per id and 2 for main, so it ends |
| Workers.ScheduleDoesNotMatter | cmd/alp/main.go:765-798 | the result is the sequential map when all fetches succeed, and otherwise an error some fetch really gave |
| Workers.FirstErrorStands | cmd/alp/main.go:784-790 | the error once recorded is never replaced, whatever is scheduled after |
| Sorting.SortUnique | nns/guestos.go:66-66 | sorting by distinct keys has one possible result |
| Sorting.TextLeqMeans | nns/reconcile.go:79-79 | reports are sorted as a dictionary is: by the first difference, a prefix first |
| Elections.ReplayIsLastEvent | nns/guestos.go:68-75 | replaying in order elects exactly the versions whose last event is an election, an unelection in the same proposal winning |
| Elections.PlayMeans | nns/guestos.go:68-76 | one more proposal elects its version under its own name and id, and then unelects what it lists, its own version included |
| Elections.ParseElectedReleases | nns/guestos.go:55-83 | with distinct proposal ids, the releases elected in the feed, strictly ascending by election, each version once |
| Elections.FeedOrderIrrelevant | nns/guestos.go:62-66 | two feeds of the same proposals parse to the same list |
| Elections.WindowSound | nns/guestos.go:38-46 | a window of the newest proposals elects what the full history elects, less exactly the versions last elected before it |
| Elections.WindowIsTail | nns/guestos.go:38-83 | the list a window parses to is the tail of the list the full history parses to, from the cut on |
| Elections.MatchesMeans | nns/guestos.go:91-97 | a release is of a variant iff its name is some base name, a hyphen and the variant |
| Elections.LatestRelease | nns/guestos.go:91-103 | the last listed match of the highest proposal, or an error when there is none or it has no version |
| Elections.LatestOfFeed | nns/guestos.go:47-103 | on a parsed feed: the maximal match of the variant, an error iff no elected version matches |
| History.NewestIsMaximum | nns/noderecord.go:41-46 | the reduction finds an entry of the highest version |
| History.NewestIsFirst | nns/noderecord.go:41-46 | and of several entries of that version the first listed |
| History.NodeRegistration | nns/noderecord.go:40-59 | registered iff the history ends on a value, with that value's operator, chip and endpoint |
| History.ParseVersionRecord | nns/release.go:131-156 | elected iff the history ends on a value; measured only when that value decodes |
| History.CurrentIsStore | nns/noderecord.go:40-59 | whatever order a key's history is served in, the reduction gives what the replayed registry log holds under the key |
| History.RegistrationIsRegistrys | nns/noderecord.go:40-59 | so a node reads as registered iff the registry holds its record, with that record's owner, chip and endpoint |
| History.ElectionIsRegistrys | nns/release.go:131-156 | and a version reads as elected iff the registry holds its record |
| History.DecodeOperatorNodes | nns/noderecord.go:147-167 | the listed ids less the removed ones, in order; the bare array as it is |
| History.FetchElectedVersions | nns/release.go:65-86 | all or nothing: succeeds iff every non-empty version resolves, and then answers for exactly those |
| Chips.ChipState.VerifyChips | nns/chipstate.go:31-61 | answers each non-empty chip once, asks AMD once about exactly those not vouched for (or all, on refresh), and updates exactly their entries as AMD answered |
| Chips.ChipState.VerifyChipsCached | nns/chipstate.go:18-20 | never asks about a chip with a recorded verdict |
| Chips.ChipState.RefreshChips | nns/chipstate.go:27-29 | asks about every chip and returns AMD's own answers |
| Chips.AnswersAreAmds | nns/chipstate.go:31-61 | with a cache that agrees with AMD every answer has AMD's verdict and product |
| Chips.AgreementKept | nns/chipstate.go:31-61 | a call keeps that agreement |
| Chips.AgreementForever | nns/chipstate.go:18-29 | so does every run of calls |
| Chips.RefreshExact | nns/chipstate.go:22-29 | after a refresh a requested chip is cached iff AMD vouches for it, or gave no verdict and it was cached; others are untouched |
| Chips.RefreshRepairs | nns/chipstate.go:22-29 | a refresh of every vouched chip, all answered, makes any cache agree with AMD again |
| Chips.AskedOnce | nns/chipstate.go:7-20 | over any run of calls on one cache, AMD is not asked again about a chip it vouched for, short of a refresh |
| UpdateSubnet.PlanUpdateSubnet | nns/plan_update_subnet.go:35-66 | the diffs of the declared fields, in order, each true of the field it names |
| UpdateSubnet.ReportIsTrue | nns/plan_update_subnet.go:35-137 | exactly one change per declared field, in the fixed order; each is a no-op iff the override keeps its field, blocks iff it is features and SEV goes off, and notes SEV off, SEV on or the entries a list loses, each iff that happens |
| UpdateSubnet.ScalarDiffMeans | nns/plan_update_subnet.go:73-88 | a scalar's diff is silent iff undeclared, a no-op iff the override keeps a known value, never a no-op on an unknown one, and never blocks |
| UpdateSubnet.ListDiffMeans | nns/plan_update_subnet.go:93-109 | a list's diff is a no-op iff the whole list stays, and remarks on exactly the overrides that empty it, with the number of entries lost |
| UpdateSubnet.FeaturesDiffMeans | nns/plan_update_subnet.go:117-137 | features are overridden whole; the diff blocks iff that turns SEV off and remarks iff it flips SEV |
| UpdateSubnet.UpdateSubnetPlan.UpdateSubnetPreflight | nns/plan_update_subnet.go:211-224 | blocking first, then all-no-op, then notes |
| UpdateSubnet.PlanEmptyIff | nns/update_subnet.go:133-141 | the plan has no changes iff the proposal is empty |
| UpdateSubnet.AllNoOpIff | nns/plan_update_subnet.go:167-179 | all changes are no-ops iff the proposal is non-empty and overriding the current settings with it changes nothing |
| UpdateSubnet.BlocksIff | nns/plan_update_subnet.go:117-137 | a change blocks iff the override turns SEV off |
| UpdateSubnet.NotesIff | nns/plan_update_subnet.go:93-137 | against a full record, something is noted iff the override flips SEV or clears a non-empty list |
| UpdateSubnet.PreflightExact | nns/plan_update_subnet.go:211-224 | the grade as a function of what the override does |
| UpdateSubnet.ExecuteIsMerge | nns/update_subnet.go:148-259 | building the payload, executing it on the record and reading the settings back is the field-wise override |
| UpdateSubnet.MissingReadsAsDefault | nns/update_subnet.go:217-258 | a nested record or value a live record lacks reads as zero or off |
| UpdateSubnet.PreflightSeesExecution | nns/plan_update_subnet.go:211-224 | against a live record, graded NoOp iff the proposal is non-empty and executing it changes no setting, and blocking iff it turns SEV off; an empty proposal grades Clean |
| UpdateSubnet.ReplanIsNoOp | nns/plan_update_subnet.go:211-224 | a non-empty proposal planned again after its execution is graded NoOp |
| Membership.PlanMembership | nns/plan.go:36-59 | one op per listed id, warned exactly when it is an addition of a member or a removal of a non-member |
| Membership.PlanMeans | nns/plan.go:36-59 | op by op: direction, id, and, iff it would do nothing, a warning with its reason |
| Membership.MembershipPreflight | nns/plan.go:105-114 | clean without warnings, NoOp when every op warns, otherwise Warn |
| Membership.GradeMeans | nns/plan.go:105-114 | clean iff only newcomers are added and only members removed; NoOp iff the plan is non-empty with only members added and only others removed |
| Membership.NoOpIff | nns/plan.go:74-84 | graded NoOp iff non-empty, executing changes nothing in either order, and no id is both added and removed |
| Membership.OverlapEscapes | nns/plan.go:74-84 | an id on both lists can make a plan that changes nothing and is graded Warn |
| Membership.CleanPlanSize | nns/plan.go:105-114 | a clean plan moves the subnet's size by exactly the distinct additions less the distinct removals |
| Membership.SwapKeepsSize | nns/plan.go:105-114 | a clean swap keeps the subnet's size |
| Membership.ReplanIsNoOp | nns/plan.go:70-84 | planned again after execution, a non-empty proposal is a no-op iff its lists are disjoint |
| Resources.KeyInjective | nns/resources.go:411-436 | the map keys built from kind and name, or kind and id, never confuse two pairs |
| Resources.CheckUnique | nns/resources.go:402-439 | accepts iff no two blocks of a kind share a name or an id, versions sharing ids freely; an error is the first collision |
| Resources.UniquePermutes | nns/resources.go:402-439 | block order never decides whether a file passes |
| Resources.AcceptedIds | nns/resources.go:402-439 | in an accepted file two blocks of a kind share a literal id only if they are versions |
| Resources.AcceptedNodesUnique | nns/resources.go:402-439 | in an accepted file node names are unique, and node ids are iff none that escapes the check repeats another; with literal ids they are |
| Resources.EscapedIds | nns/resources.go:444-460 | two nodes whose ids are one expression are accepted under one id |
| Resources.ObjectsByName | nns/resources.go:494-503 | the name table of a list of blocks, later blocks winning |
| Resources.ObjectsAreLast | nns/resources.go:494-503 | a name stands for the last block that has it |
| Resources.ReferencesResolve | nns/resources.go:494-503 | in an accepted file every reference by kind and name resolves to its own block |
| DefaultVersion.CheckOneDefaultVersion | nns/resources.go:353-365 | accepts iff every default but the last has an empty name; an error names two defaults |
| DefaultVersion.OneDefaultIff | nns/resources.go:351-365 | with named defaults: accepts iff there is at most one |
| DefaultVersion.UnnamedDefaultEscapes | nns/resources.go:353-365 | an unnamed default before a named one gets through, after it does not |
| DefaultVersion.OrderMattersIff | nns/resources.go:351-365 | block order decides the verdict iff one named default stands beside unnamed ones |
| DefaultVersion.FindDefault | nns/resources.go:150-160 | the first default in file order |
| DefaultVersion.ExpectationMeans | nns/resources.go:150-178 | a node's own version always wins, then the id of the first default block; nothing iff the node is out of the check or neither exists |
| DefaultVersion.VersionCheckedNodes | nns/resources.go:182-195 | the nodes with an expectation, in order, and their expectations in step |
| DefaultVersion.ExpectationPermutes | nns/resources.go:150-178 | two accepted orders of the version blocks give every node the same expectation |
| ChipId.HexRoundTrip | nns/reconcile_nodesev.go:23-28 | hex in either case decodes to the bytes it encodes (section 8 of RFC 4648) |
| ChipId.QuantaRoundTrip | nns/reconcile_nodesev.go:29-36 | so does padded base64 (section 4 of RFC 4648) |
| ChipId.Alphabet | nns/reconcile_nodesev.go:29-36 | the base64 digits are those of table 1 of RFC 4648 |
| ChipId.Vectors | nns/reconcile_nodesev.go:29-36 | the base64 test vectors of section 10 of RFC 4648 hold |
| ChipId.BreaksIgnored | nns/reconcile_nodesev.go:29-36 | line breaks inside base64 text are skipped |
| ChipId.EncodingsDisjoint | nns/reconcile_nodesev.go:23-36 | no text is valid hex and the base64 of a chip id |
| ChipId.NormalizeIffSpells | nns/reconcile_nodesev.go:18-37 | a text normalises to the lowercase hex of exactly the chip id it spells |
| ChipId.NormalFormIsLowercase | nns/reconcile_nodesev.go:18-37 | every normal form is empty, for blank texts, or 128 characters out of 0-9 and a-f |
| ChipId.NormalFormAt | nns/reconcile_nodesev.go:27-36 | byte i of the chip shows as digits 2i and 2i + 1 of "0123456789abcdef" |
| ChipId.RefusedMeans | nns/reconcile_nodesev.go:18-37 | a refusal gives the number of bytes of a text that decodes to another length than 64, hex before base64, or says that it decodes in neither way |
| ChipId.AcceptedIff | nns/reconcile_nodesev.go:18-37 | accepted are the blank texts and the spellings of a chip id, nothing else |
| ChipId.EqualIffSameChip | nns/reconcile_nodesev.go:18-37 | two accepted spellings normalise alike iff they name the same chip |
| ChipId.AllSpellings | nns/reconcile_nodesev.go:18-37 | lowercase hex, uppercase hex and base64 of any chip id, with white space around, come to the same lowercase text; the second is written in 0-9 and A-F |
| ChipId.NormalizeIdempotent | nns/reconcile_nodesev.go:18-37 | normalising twice changes nothing |
| NodeSev.ReconcileNodeSev | nns/reconcile_nodesev.go:80-122 | one classified row per node that is not decommissioned, sorted by id |
| NodeSev.SevDriftIff | nns/reconcile_nodesev.go:145-176 | drift iff some such node has an unreadable chip id, or a registered record naming another chip |
| NodeSev.StatusMeans | nns/reconcile_nodesev.go:80-122 | each verdict on a node, from which of the two texts are readable, blank, or spell one chip |
| NodeSev.ColumnsMean | nns/reconcile_nodesev.go:80-122 | a row shows the block's chip as declared and the record's as live, in normal form if readable and as it stands otherwise, with the error of the one that is not |
| NodeSev.ApplyChipVerification | nns/reconcile_nodesev.go:128-143 | in place, each row takes its chip's verdict, and only a refused row in sync is downgraded |
| NodeSev.LiveChips | cmd/alp/main.go:719-728 | the chips looked up are the non-empty recorded ones |
| NodeSev.ShownSafeIff | cmd/alp/main.go:719-737 | every chip AMD is asked about has 12 bytes to show iff each short unreadable record is vouched for in a cache that is used |
| NodeSev.ShortRecordExample | cmd/alp/main.go:734-737 | a two-letter record is such a record |
| NodeSev.VerdictsReachRows | cmd/alp/main.go:719-752 | through an agreeing cache, each row carries AMD's verdict on its recorded chip, and reads Unverified, or drifts when it did not, iff AMD refuses that chip while file and record agree |
| SubnetReconcile.Reconcile | nns/reconcile.go:50-81 | one row per declared id and one per undeclared live entry, classified by which sides know the id, sorted |
| SubnetReconcile.VerdictOf | nns/reconcile.go:50-81 | for each id either side knows, its row and the verdict on it |
| SubnetReconcile.ColumnsMean | nns/reconcile.go:50-81 | a row has the name and label of the last block declaring the node here, or no name and the label on file |
| SubnetReconcile.DriftIff | nns/reconcile.go:50-110 | drift iff the declared and the live sets differ, without preconditions |
| Tables.HasDrift | nns/table.go:57-64 | drift iff some row is not OK |
| Ownership.OwnersOf | nns/reconcile_nodes.go:58-63 | every listed node gets an owner among the lists that name it |
| Ownership.ReconcileOperatorNodes | nns/reconcile_nodes.go:57-107 | the rows of the blocks with an operator and of the owned nodes without one, as a multiset, sorted |
| Ownership.OneRowPerNode | nns/reconcile_nodes.go:57-107 | with unique ids: one row per node that is declared with an operator or owned, and no other |
| Ownership.StatusMeans | nns/reconcile_nodes.go:76-93 | each of a block's four verdicts, as what the operators' lists say about the node |
| Ownership.ColumnsMean | nns/reconcile_nodes.go:73-93 | the operator column is the block's, and the owner column the operator whose list names the node, or empty when none does |
| Ownership.UnmanagedColumnsMean | nns/reconcile_nodes.go:95-104 | the row of a node without a block names an operator that lists it, and nothing of any block |
| Ownership.OwnershipDriftIff | nns/reconcile_nodes.go:57-158 | no drift iff live nodes are owned by their declared operator, decommissioned ones by nobody, and every owned node has a block with an operator |
| Ownership.ApplyNodeStatus | nns/reconcile_nodes.go:115-131 | in place, only decommissioned rows the registry contradicts change, to a mismatch naming the recorded owner |
| Ownership.ContradictedNamesOwner | nns/reconcile_nodes.go:115-131 | in a report, a decommissioned node still registered becomes a mismatch that names the operator of its record |
| Ownership.SettlingIdempotent | nns/reconcile_nodes.go:115-131 | applying the records again changes nothing |
| Ownership.SettledDriftIff | nns/reconcile_nodes.go:115-131 | records never clear drift, and add it iff a decommissioned node is still registered |
| Ownership.SettlingCommutes | nns/reconcile_nodes.go:115-131 | two batches of records lead to the same verdicts in either order |
| VersionReconcile.ReconcileNodeVersionsElected | nns/reconcile_version.go:78-108 | one row per checked node, carrying that node's own expectation and report, sorted |
| VersionReconcile.RowMeans | nns/reconcile_version.go:78-108 | each column of a row: expectation and where it comes from, answer, verdict, and whether it is overridden, indirect or unelected |
| VersionReconcile.OneRowPerNode | nns/reconcile_version.go:78-108 | with unique ids no node has two rows |
| VersionReconcile.VersionDriftIff | nns/reconcile_version.go:78-142 | drift iff some checked node answers with a version other than its expectation; an outage is not drift |
| VersionReconcile.BlockOrderIrrelevant | nns/reconcile_version.go:78-108 | reordering the version blocks of an accepted file changes no row |

## Left out

- HTTP, agent-go, PocketIC, process handling, flags and printing: parameters stand for their answers.
- Protobuf, Candid, CBOR, X.509, SHA-256 and principal checksums: records are decoded values, the payload hash is a text, and bytes are modelled where their distinctness is the point.
- HCL parsing and the JSON text of the state file: the save laws assume an encoding that decodes to what was encoded.
- Commands.Workspace.RunCommands: a command whose load fails ends there and changes nothing, so runs are of commands that load; a file some other program wrote is not among the states.
- Errors of the key generators in `nns/seed.go`, and the CUP and threshold key bytes themselves: one `point` stands for the embedded key.
- Two `alp` processes at once, and file systems whose rename is not atomic.
- Elections.ParseElectedReleases: says nothing about feeds in which one proposal id occurs twice, because sort.Slice then leaves their order open; and a release name is a field of its proposal, not read out of the summary.
- Elections.LatestOfFeed: assumes distinct proposal ids for the same reason.
- Install.BatchDistinct: distinct subnet ids, operator ids and provider data centers and fresh node ids are hypotheses the code does not check; Install.BatchDistinctIff holds without them.
- UpdateSubnet.PlanUpdateSubnet: the rendered texts of the two values a change compares are presentation; a change is the field it names, its verdicts and its note.
- Commands.LookupsBounded: a chip check that dies between two lookups counts as one that made them all and lost its save.
- Ownership.OwnershipDriftIff: assumes non-empty operator ids and that no two lists name the same node; when they do, map order picks the owner.
- Workers.ScheduleDoesNotMatter: an empty id list returns before any goroutine starts and is a map without entries here, where Go returns a nil map.
- Workers.InvReached: the worker pool of `nodeVersions`, which has the same shape without the error, is not modelled.
- Commands.Workspace.RunApply: identity, configuration and payload errors that end `apply` before it loads the state are not steps.
- Commands.Workspace.RunStatus: the columns and wording of a line are presentation; a line is the data it prints.
- SaveFile.FileSystem.SaveState: a failing os.Remove of the temporary file is not modelled.
- History.ParseVersionRecord: the base64 and protobuf of a version record are one optional decoded value.
- NodeSev.ReconcileNodeSev: report details and remedies are presentation.
- Status labels of governance and the dashboard, `resolutionTime` and time rendering: a fetched status is a value; these are decision tables that feed it.
- The label table `addLabels` builds across kinds, `planDeployGuestos`, `nns/kinds.go`, `nns/applyorder.go`, payload validation, the onboarding and removal planners and the data center and provider classifiers: short decision tables, each read off in one place, with no state behind them.
- Integers: proposal ids and tallies are unbounded naturals except where a sum wraps in the status line; ports wrap at 32 bits and the salt is 64 bits wide.
