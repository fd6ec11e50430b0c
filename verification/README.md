# Verified model of the masternode-membership gateway

A Dafny 4.11 model of the parts of this repository whose correctness depends on state kept across awaits, failures and
restarts, with proofs of what those parts promise. `dafny verify dfyconfig.toml` checks all of it.

The gateway admits owners of masternodes to private channels. It keeps a durable registration log and a Merkle tree
over it, a ledger of what it granted on each platform, a spent set that ties one voting key to one account an epoch,
and a window of signed masternode-list snapshots. The oracles that sign those snapshots recompute a block's
commitments from its bytes. The model has those five components.

**Registration log and season cache** (`RegistrationLog`, `LogFile`, `RegistrationProtocol`, `RegistrationGuarantees`,
`Recovery`, `RegistrationBackends`, `AcceptedFiles`, `RegistrationAnswers`, `AppendReplies`, `FieldElements`,
`Season`, `CommitAnswers`, `SeasonMembers`, `RootStore`, `MembersTree`, `LogStore`, `SeasonOverLog`, `QueuedCommits`,
`ServedRoot`). The file is durable bytes and visible bytes; the durable file is always a byte-prefix of the visible
one, a sync makes them equal or fails, and a power loss leaves anything between. The backend is a state machine with
one step per await: the append queue, the write in pieces, the sync, the close, the durability barrier, the shared
reconciliation, the tail repair and the schedule header. Over every run, of any length and with any of those steps
failing, an acknowledged registration stays in the log at the leaf index that was returned, no file is ever refused by
the loader, no read reports a record that is not durable, and every step is either one atomic append to the durable
set or invisible. A view marked behind the file comes back in a bounded number of successful steps. The order of a
bucket in memory is the order a restart rebuilds. Which files are accepted, and as what, is said of their lines alone
(`AcceptedFiles`); which answer a request gets, and what is written for it, of the request's own fields
(`RegistrationAnswers`, and `AppendReplies` over runs). The season's trees are prefixes of the durable buckets, every
accepted root is the root of such a prefix and outlives rebuilds within its window, and a commit that answers with its
season current has left the tree equal to the bucket. `CommitAnswers` says which answer that is: each refusal exactly
when its reason holds and no earlier one does, a registration exactly when none does. The incremental tree, whether
appended to or rebuilt in one pass, has the padded root, in a counted number of hashes. `LogStore` shows that every
state of the log is a store as the season sees one and every step of it a move of that store. `SeasonOverLog` runs the
season's operations, one step an await, over the log's own machine, and shows every such run to be a run of whole
operations; `QueuedCommits` says which of its commits reach the write, and what is written. `SeasonMembers` holds the
tree and window objects and does what `Season` says. `ServedRoot` puts them together: whatever file a power loss
leaves, a restart from it rebuilds, in a tree object, the root that was being served.

**Grant ledger** (`GrantTargets`, `GrantLedger`, `GrantOutcomes`). One step per stretch between awaits of grant,
renewal, sweep and admission, with the platform call in flight able to do any part of its work before it settles and
the process able to die at any await. The invariant is coverage: what is live for a member is named by that member's
row. The ledger is parametric in the target algebra; the two laws it needs are asked of each renewal against the row
it meets, and proved of the single-place adapters, of Discord's channel grants, and of every Discord renewal that
orphans nothing. The table's methods are proved to keep the state machine's rows, counter and clock. `GrantOutcomes`
says what record each ending of a grant leaves, and in which runs nobody is held past the deadline of a grant that
names what they hold.

**Membership over time** (`TimeGuard`, `MembershipVerify`, `VerifyOutcomes`). Any number of verifies interleave with
each other, with pruning by epoch, with arbitrary clock movement and with restarts; all grants for one epoch, context
and nullifier go to one account, and each comes at the end of one of three sequences of awaits, all of which answered.
A verify that nothing refuses is granted.

**Root window and admission** (`LeafSet`, `RootWindow`, `RefreshOutcomes`, `Stores`, `Semaphore`). Adoption,
republication of the other ordering beside the one already held, trimming to the newest heights, ageing, the leaf
budget with pinned heights, the one-time challenges and running verifies that pin roots, and the concurrency gate.

**Merkle structures and binary parsing** (`PaddedTree`, `OccupiedBranches`, `OddMerkle`, `ListCommitments`,
`PartialTree`, `PartialTreeCodec`, `ClaimedLength`, `SnapshotMessage`, `Layouts`, `SignedBytes`, with `Bytes`,
`Lists`, `Sorting` and `Text` beneath them). The fast tree builders equal a padded reference tree. The partial tree of
BIP 37 is read back exactly from its bits and its bytes, an honest one reproduces the block's root and its matches,
and which claimed transaction counts can make an accepted one mark a false transaction is settled exactly. The two
list roots (DIP-0004 and the quorum set) forget order and pin contents. `Layouts` says where each field stands in what
is hashed, which half of a node comes first and in what order the leaves stand; `SignedBytes` the same of the signed
message. Two signed snapshot messages agree exactly when their signed fields do.

Code that updates state in place is a class or a method with loops, proved against a function of the values; code
between awaits is a step function, and theorems about runs are by induction over lists of events. Hashes are
parameters. Collision freedom is asked only of the pairs or byte strings that the computations being compared actually
hash, never of a whole function, which no function with a fixed-size digest could meet.

## What is assumed

- Registration log: a schedule is configured; this process is the file's only writer; truncation is atomic; a sync
  that fails may have persisted any part of what was pending. A file that does not exist is the empty file.
- Season cache: one season manager uses the log, and its operations are serial, as its queue makes them; the trees'
  depth is the configured one; the field's own conversion accepts every canonical element. In `Season` and
  `SeasonMembers` the store is a value whose writes land or not as the caller says; `SeasonOverLog` puts the log
  itself in its place.
- Grant ledger: `revoke` returning normally has removed its targets; a failing call may have had any effect inside its
  record's targets; a failing `apply` that reports `mutated === false` has sent nothing; no request lands after the
  process that sent it has died; one process holds the ledger. These are the contracts the adapters state.
- Membership: each stretch between awaits reads the clock once; writes of the clock marks succeed, since one that
  fails throws out of the request that made it; the proof's validity and the policy checks are inputs of a step.
- The fields `known`, `acked`, `answered`, `grants`, `arrived` and `level`, and the history inside a write in
  progress, exist for the proofs; no step's effect on any other field depends on them.

## Properties that hold only under a condition

Each has its exact condition, and where the condition fails an input that shows it.

- A Discord renewal of a member who holds all of the grant in its row keeps coverage if and only if it orphans nothing
  or both records are channel grants (`GrantLedger.DiscordRenewalCoversExactlyWhen`); runs of renewals that each meet
  the condition are covered throughout (`GrantLedger.DiscordRunsAreLawful`). In the other cases the covering record is
  the new record alone (adapters/discord/grant_ledger.js:79), and `GrantLedger.RoleChangeLosesTrack` is a run that
  ends with an old role held under a row naming another. The ledger's header promises coverage without that condition;
  the model follows the code.
- Outside a migration under way nobody is held past the deadline of a grant that names what they hold, over every
  lawful run in which the write that puts a prior record back does not fail, the process does not die while a covering
  record stands in for a migration, no admission is made by a covering record that a failed write left standing, and a
  call taking access away adds none (`GrantOutcomes.NoneHeldPastTheirGrant`). The first three are needed:
  `GrantOutcomes.FailedRestoreOutlives` and `GrantOutcomes.AdmissionByTheCoverOutlives` are runs where they fail. The
  source names the first (adapters/common/grant_ledger.js:698-701); against the third Discord's repair leaves out the
  channels that are no longer configured, which an admission in the model does not.
- An accepted partial tree with the block's root need not mark only true transactions: its transaction count is the
  sender's claim, and `PartialTree.ClaimedLengthMatters` has a tree over three transactions that claims four and marks
  a fourth. `ClaimedLength.ClaimIsTrueExactlyWhen` says for every block of distinct transactions and every claim
  whether any tree can do so, from the two counts alone: it cannot if and only if the claim's tree is taller than the
  block's, or as tall and longer by no more than half the largest power of two that divides the block's size.
  `ClaimedLength.BytesAreTrueExactlyWhen` says it of the parser. A true claim is always safe, repeated transactions or
  not (`PartialTree.AcceptedTreeMarksTrueLeaves`), and so, whatever the claim, is a transaction marked at position 0,
  the only position the commitment check relies on (`PartialTreeCodec.CoinbaseIsFirst`).
- Leaf lists share a root, when nothing hashed collides and no leaf is an inner digest, if and only if their trees
  have one height and they read alike with every duplicated node written twice (`OddMerkle.RootsAgreeExactlyWhen`);
  `OddMerkle.DuplicationIsInvisible` is the family of lists that differ and do. The binding theorems ask for distinct
  entries. Both list roots refuse a repeated key, which makes entries distinct.
- Signed messages determine the text of a field up to its Unicode scalar values
  (`SnapshotMessage.MessagesAgreeExactlyWhen`). A lone surrogate signs to the same bytes as U+FFFD
  (`SnapshotMessage.LoneSurrogateIsNotBound`); text without lone surrogates is bound exactly.
- A reload keeps a bucket's order past the next append if and only if no recorded position exceeds the bucket's length
  (`RegistrationLog.FitIsExactlyOrderKept`), which is the check the loader makes.

## Model

| member | source | states |
|---|---|---|
| RegistrationLog.FitIsExactlyOrderKept | core/registration_store.js:777-813 | a record appended at position n behind a sorted bucket of n stays there on the next reload if and only if no recorded position exceeds n, the exact bound the loader enforces |
| RegistrationLog.ReloadAfterAppend | core/registration_store.js:888-909 | for every accepted file, the file with one more appended record is accepted and reloads to exactly the index held in memory after remembering it |
| RegistrationLog.LiveEqualsRestart | core/registration_store.js:762-813 | after any run of appends from any accepted file, duplicate keys and tied positions included, the live index, bucket order and all, is the one a restart rebuilds |
| RegistrationLog.ReloadAfterStamp | core/registration_store.js:700-730 | stamping the schedule header changes nothing a reload sees |
| RegistrationLog.LoadIsCoherent | core/registration_store.js:575-627 | an accepted file gives an index whose records are usable, in their own bucket, of one declaration per bucket and of distinct keys, with `seen` exactly the keys in it |
| RegistrationLog.RememberPlaces | core/registration_store.js:820-826 | a remembered record sits at its own index, and every earlier record keeps its place |
| RegistrationLog.EngineIsReported | core/registration_store.js:245-254 | while a record is in the index, its proof system is reported for its season although only first records are read |
| FieldElements.OneSpelling | common/field.js:4-20 | two canonical spellings of one field element are the same string, so a spent key has no alias |
| AcceptedFiles.AcceptsExactlyWhen | core/registration_store.js:454-628 | a file is accepted exactly when every line can be read, every header names the configured schedule and there is one if records need it, every record is well formed, two copies of a registration differ in nothing but position, a season and context has one declaration, and no last copy’s position exceeds the number of registrations of its season and context: all said of the lines alone |
| AcceptedFiles.AcceptedAs | core/registration_store.js:575-818 | what an accepted file is loaded as: every registration once, as its last copy, in its own bucket, the bucket in the order of recorded positions and ties in the order first met |
| RegistrationAnswers.DecidesAsPromised | core/registration_store.js:888-909 | of the request’s own fields: a duplicate exactly when a record of its season and context has its nullifier; otherwise a conflict exactly when the first record there declared another engine or statement, which is what is reported; otherwise the record written has the request’s nullifier, commitment, engine and statement, at the next place |
| RegistrationAnswers.WritesTheRequest | core/registration_store.js:820-826 | after it that record is the last of its season and context, the nullifier is spent there, and every other season and context is as it was |
| RegistrationAnswers.NullifierSpentOnce | core/registration_store.js:150-156 | two records of one season and context whose nullifiers are one field element, however spelled, are one record |
| RegistrationAnswers.ContextNamedOnce | core/registration_store.js:150-156 | nor can a context be named twice by two spellings |
| RegistrationBackends.LoadFile | core/registration_store.js:454-818 | the loader’s two passes compute `Load`: the same index or the same first refusal |
| RegistrationBackends.Collect | core/registration_store.js:507-628 | the line-by-line pass with duplicate collapse, against the fold over lines |
| RegistrationBackends.OrderBuckets | core/registration_store.js:802-813 | sorting each bucket and refusing a position past its length |
| RegistrationBackends.LastIsLargest | core/registration_store.js:802-806 | after the sort, looking at the last record alone decides whether every position fits |
| RegistrationBackends.MemoryRegistrationBackend.Append | core/registration_store.js:74-107 | duplicate exactly when an admissible request’s nullifier is spent in its season and context, conflict exactly when the declaration there is another, and a landed record is the request, last of its bucket, at the index returned; only that changes the store |
| RegistrationBackends.MemoryRegistrationBackend.DeclarationFor | core/registration_store.js:236-239 | a bucket’s first record speaks for every record in it |
| RegistrationBackends.MemoryRegistrationBackend.SeasonHasEngine | core/registration_store.js:245-254 | true exactly when some record of the season was registered under the engine |
| LogFile.LoadByEntries | core/registration_store.js:455-560 | the loader’s verdict on a file splits into its headers’ and its records’ |
| LogFile.PrefixOfLanding | core/registration_store.js:944-946 | any bytes-prefix of a file being written reads as the old lines, or those and the new one, or stops inside the old ones |
| LogFile.DiskLoads | core/registration_store.js:454-506 | every file between the durable and the visible one loads |
| RegistrationProtocol.StepKeeps | core/registration_store.js:384-445 | every step, of the append, the load, the disk or the process, keeps the invariant relating disk, view, flags and history |
| RegistrationProtocol.RunKeeps | core/registration_store.js:384-1038 | the invariant holds after every run from every file the loader accepts |
| RegistrationProtocol.FlushKeeps | core/registration_store.js:391-401 | bytes reaching the disk, forced or not, unsettle nothing |
| RegistrationProtocol.LandsKeeps | core/registration_store.js:942-946 | part of a record’s line landing, at any point of the write |
| RegistrationProtocol.SyncedKeeps | core/registration_store.js:947-956 | the record becomes visible in the step that makes it durable |
| RegistrationProtocol.MarkKeeps | core/registration_store.js:957-1000 | a write that failed, or may have, raises both flags in the step that learns it |
| RegistrationProtocol.FoundIsOurs | core/registration_store.js:1017-1029 | after the recovery’s reconciliation, a record found under the job’s key is the job’s own: the other-writer branch cannot be taken by a single writer |
| RegistrationProtocol.KnownIsDurable | core/registration_store.js:856-886 | what the view holds, the disk holds in the same place |
| RegistrationProtocol.TruncateKeeps | core/registration_store.js:652-657 | cutting off a torn tail loses no record |
| RegistrationProtocol.NewlineKeeps | core/registration_store.js:657-676 | a complete unterminated record is kept and terminated |
| RegistrationProtocol.StampLandsKeeps | core/registration_store.js:717-730 | the schedule header landing in part or whole |
| RegistrationProtocol.InstallKeeps | core/registration_store.js:814-818 | installing the freshly built maps |
| RegistrationProtocol.ClearKeeps | core/registration_store.js:414-427 | clearing both flags at their one site |
| RegistrationGuarantees.AcknowledgedSurvives | core/registration_store.js:888-1038 | an acknowledged registration is in whatever file any later power loss leaves, at the leaf index that was returned |
| RegistrationGuarantees.EverySurvivorLoads | core/registration_store.js:486-560 | no failure can leave a file the loader refuses |
| RegistrationGuarantees.LoadGoesOn | core/registration_store.js:643-716 | a load that has read its bytes is never refused by what it read |
| RegistrationGuarantees.InstallSucceeds | core/registration_store.js:802-818 | a load that reaches its end installs exactly the reload of the visible file |
| RegistrationGuarantees.ReadsAreDurable | core/registration_store.js:856-886 | in every state a read can see, the view is a bucket-by-bucket prefix of the durable index: no read reports a record that is not on stable storage |
| RegistrationGuarantees.ReadsSeeAcknowledged | core/registration_store.js:947-956 | every read sees every acknowledged record and the proof system it was registered under |
| RegistrationGuarantees.SettledIsCompleteOrFlagged | core/registration_store.js:856-886 | once no append is under way, the view is flagged or is the reload of the visible file and of the durable one |
| RegistrationGuarantees.StepRefinesAtomicSet | core/registration_store.js:196-243 | every step is an atomic append of the in-memory backend to the durable set, or invisible |
| RegistrationGuarantees.AnswersAreTheSets | core/registration_store.js:888-1038 | whatever was acknowledged is in that set at its index, and whatever key was refused as a duplicate is one it has |
| RegistrationGuarantees.RepliesAreTheSets | core/registration_store.js:888-1038 | at the step that ends an append, the record it reports is in the set at its index, the key it refuses is one the set has, and the declaration it reports is the bucket’s and not the request’s |
| AppendReplies.RepliesToItsRequest | core/registration_store.js:888-1038 | whatever happens between a request’s turn and the end of its append, it is answered about itself: a record reported written has the request’s own fields and is durable at its index, a duplicate means its nullifier is spent in the durable set, and a conflict reports the declaration there, which is not its own |
| AppendReplies.AppendSucceeds | core/registration_store.js:931-956 | from every reachable readable state, a request nothing refuses, on storage that answers, is told its record is written; the record is the request, last of its season and context, durable and in the view, and nothing else has changed |
| AppendReplies.AppendIsRefused | core/registration_store.js:888-899 | and one whose nullifier is spent, or whose declaration is another, is refused at its turn with that refusal, and nothing is written |
| AppendReplies.ResumesExactlyWhen | core/registration_store.js:1001-1035 | an append that failed and waited for the recovery is told its record is written exactly when the recovered view has it, and its error otherwise |
| AppendReplies.FailuresAreMarked | core/registration_store.js:957-1000 | the step that learns of a failed open, write, sync or close raises both flags and leaves the append unanswered |
| AppendReplies.OnlyReloadsUnmark | core/registration_store.js:403-427 | while the process lives no step lowers the flags but the end of a reload, when the view is the reload of the durable file |
| AppendReplies.StorageMayFail | core/registration_store.js:931-1000 | what the runs range over: every open, write, sync, close, barrier and load may fail where it stands, and a write may land in part first |
| AppendReplies.ProcessMayEnd | docs/REGISTRATION_STORE_DURABILITY.md:66-82 | what the runs range over: at any point the process may end, by a power loss that leaves what is durable and any part of the rest, or alone |
| AppendReplies.FirstLoadSucceeds | core/registration_store.js:454-818 | from every reachable state with nothing loaded, at most eleven successful steps install exactly the reload of the file as it was found |
| Recovery.RecoveryIsReachable | core/registration_store.js:384-445 | from every reachable state whose view is marked, at most 59 successful storage steps lead to one that is loaded, unmarked and the reload of both the visible and the durable file |
| RegistrationGuarantees.DurableOnlyGrows | core/registration_store.js:888-1038 | durable records stay, in order, the front of the log for the rest of the run |
| RootStore.UpdateOnTop | core/stores.js:18-24 | an entry at or above every retained height becomes the newest, and of the entries at other heights exactly the newest that fit the window with it are kept, in order |
| RootStore.UpdateAscends | core/stores.js:18-24 | whatever list comes in, the retained heights are distinct and ascending |
| RootStore.RootStore.Update | core/stores.js:18-24 | the map-by-height, sort and slice of the window, keeping heights distinct and ascending |
| RootStore.RootStore.Current | core/stores.js:25-27 | the newest entry: every other has a lower height |
| RootStore.RootStore.IsRecent | core/stores.js:28-30 | accepted exactly when some retained entry has the root |
| Season.CommitKeeps | core/season.js:206-296 | what every ending leaves true (which ending it is, CommitAnswers says): however a commit ends the invariant holds, every tree has only grown and at most two roots were pushed into a window that keeps the rest; if it answers with its season current the tree is exactly the durable bucket, a committed member is at its index with the bucket’s root, and the index-tree mismatch cannot be answered |
| CommitAnswers.AnswersExactlyWhen | core/season.js:206-274 | which answer a commit gives, for every state and all its awaits answering: already registered exactly when the nullifier is in the bucket and was asked for or nothing else refuses first; tree full exactly when the bucket has capacity members; season rolled exactly when the live season is another; clock regressed, stale root, invalid and mismatched each exactly when it holds and no earlier one does; and a registration exactly when none does |
| CommitAnswers.RegistersTheRequest | core/season.js:264-295 | a registration leaves the bucket as it was with the request, field by field, as its last record, answers with its place and with the root of the old members followed by its commitment, and touches no other bucket; any other answer leaves the store as the reads found it |
| CommitAnswers.TreeTakesTheRequest | core/season.js:284-295 | the tree is then the bucket with the request’s commitment last, and the newest root accepted is that tree’s, at its size and the commit’s time |
| CommitAnswers.NeverRegistersWhenRefused | core/season.js:209-274 | over an ended season, on a regressed clock, with an anchor too old or a malformed request no commit registers, and the store is left with nothing in it but an uncertain record settled, whatever the awaits meet |
| CommitAnswers.ThrowsExactlyWhen | core/season.js:206-264 | a commit throws exactly when an await it comes to throws |
| CommitAnswers.ThrowsOnlyWithAnAwait | core/season.js:206-264 | and leaves at most its own request in doubt, at the next place of its bucket |
| CommitAnswers.RunRegistersExactlyWhen | core/season.js:206-295 | so after every run of the season over a coherent log |
| CommitAnswers.RecoversExactlyWhen | core/season.js:166-178 | a recovery answers that the season is over exactly when it is another, and otherwise whether the tree was behind and how many durable members there are |
| CommitAnswers.FirstReadsExactlyWhen | core/season.js:190-198 | a context first read gets a tree exactly when it has records, and of all of them; the call is refused only by the roll |
| Season.MirrorKeeps | core/season.js:281-292 | the durable index is the tree’s next position |
| Season.RecoverKeeps | core/season.js:156-178 | a recovery that returns with its season current has put every stranded member back, pushing at most one root into each window |
| Season.ReconcileKeeps | core/season.js:129-164 | a rebuild leaves the tree equal to its bucket and its window the old one with at most one newer root behind it, so every root accepted before stays accepted but for the oldest of a full window |
| Season.RollKeeps | core/season.js:82-97 | a roll never goes backwards under `monotonic`, and leaves no context when it moves |
| Season.EnsureContextKeeps | core/season.js:190-198 | a context first read has the tree of all its records, or none if it has none, and one already held is untouched |
| Season.RunKeeps | core/season.js:69-76 | the invariant over every run of the queued operations, store failures and restarts |
| Season.TreesArePrefixes | core/season.js:1-16 | over every run each cached tree is a prefix of the current season’s durable bucket, the newest accepted root is the tree’s own, and no bucket outgrows a tree |
| Season.AcceptedRootsArePrefixRoots | core/season.js:118-137 | every accepted root, however old, is the root of a prefix of that bucket |
| Season.AcceptedRootOutlives | core/season.js:118-137 | over every run within a season a root once accepted is still accepted unless as many members have joined since as the window has places after it |
| SeasonMembers.SeasonMembers.DoCommit | core/season.js:206-296 | the object’s commit is `Season.Commit`, whose answers CommitAnswers settles, on the objects in place; and one that answers with its season current leaves the tree object’s own root the padded root of the durable bucket |
| SeasonMembers.SeasonMembers.DoRecover | core/season.js:166-178 | the object’s recovery: the season is never moved, no window object is replaced, and the tree object has the root of the durable bucket |
| SeasonMembers.SeasonMembers.DoEnsureContext | core/season.js:190-198 | the object’s ensureContext: a context it materializes has a tree object with the root of its durable bucket |
| SeasonMembers.SeasonMembers.RebuildIfBehind | core/season.js:129-164 | after a reconcile that returns the tree object’s own root is the padded root of the durable bucket; the window object is the one held before, a new tree is a new object, and no other context is touched |
| SeasonMembers.SeasonMembers.RollTo | core/season.js:82-97 | the object’s roll: the contexts are let go exactly when the season moves |
| SeasonMembers.SeasonMembers.Materialize | core/season.js:102-137 | a new tree object over the records and the window given it or a new one, holding what `Build` says, or a refusal past the capacity |
| SeasonMembers.SeasonMembers.AppendToTree | core/season.js:284-292 | the tree and the window are updated in place to what a rebuild over the longer list would hold |
| SeasonMembers.SeasonMembers.MembersRoot | core/season.js:310-312 | the root a reader is given is the padded root of the context’s members, or of none |
| SeasonMembers.Take | core/season.js:181-296 | one event of the season done by the objects, a restart included, is `Season.Step` of what they show |
| SeasonMembers.Replay | core/season.js:30-60 | taken through any run of the season from a fresh store, the objects come to show exactly what the run says |
| SeasonMembers.DurableMembersConvert | core/registration_store.js:140-169 | every durable commitment is one the tree can take |
| LogStore.LogMoves | core/registration_store.js:856-1038 | every step of the log, on the store the season sees, leaves it alone, settles its uncertain record, or raises the record whose bytes have just landed |
| LogStore.WrittenIsShown | core/registration_store.js:947-1038 | a record reported written is the one decided on against the view, is in the view, and leaves nothing uncertain |
| LogStore.RefusedIsShown | core/registration_store.js:888-930 | a duplicate or a conflict is reported exactly when the view the append decided against says so, and nothing changes |
| SeasonOverLog.RunKeeps | core/season.js:69-296 | with the season’s operations run await by await over the log’s own machine, whatever either does in between: both invariants hold, and every context whose last operation was answered is its whole durable bucket |
| SeasonOverLog.WrittenKeeps | core/season.js:264-292 | when the log reports the record written, the tree takes it at the place the log gave it and the commit’s answer is true |
| QueuedCommits.WritesExactlyWhen | core/season.js:226-264 | await by await over the log: from its last read a commit reaches its write exactly when the live season is its own or unknown, the clock has not regressed, the anchor is not too old, the request is well formed, the tree has room and its nullifier, where asked for, is not spent; otherwise the log is left alone |
| QueuedCommits.OnlyReadsLeadToWrites | core/season.js:206-264 | and no other step leads to a write |
| QueuedCommits.WrittenJoins | core/season.js:264-295 | a record reported written is the request at the next place; the durable bucket is then the old one and it, and the tree the old members and its commitment |
| QueuedCommits.RefusedAsTold | core/season.js:264-274 | a duplicate or a conflict is told exactly as the records have it, with records and tree left as they were |
| SeasonOverLog.RunIsSeason | core/season.js:69-76 | whatever the interleaving, what the season holds and sees is what some run of its whole operations over a store would leave |
| ServedRoot.ServedRootIsTheRestartRoot | core/season.js:1-16 | in every joint run of season and log, for every context whose last operation was answered and every file a power loss at that moment could leave: the newest accepted root is the padded root of the commitments a load of that file lists |
| ServedRoot.ServedTreeIsTheRestartTree | core/season.js:310-316 | the same of the root the incremental tree object holds |
| ServedRoot.Serve | core/season.js:181-316 | for every joint run of season and log, a manager object taken through its operations serves, for every context answered and every file a power loss could leave, the padded root of that file’s bucket |
| ServedRoot.Restart | core/season.js:102-120 | a new process that loads whatever was left and materializes the context holds a tree object with the root that was being served |
| MembersTree.MembersTree.constructor | core/members_tree.js:32-49 | an empty tree with the empty subtree of every height, in depth hashes |
| MembersTree.MembersTree.Append | core/members_tree.js:162-180 | full and malformed refusals leave the tree alone and hash nothing; otherwise the leaf takes the next index, the root is the padded root of the longer list, and exactly depth hashes were made |
| MembersTree.MembersTree.Insert | core/members_tree.js:191-209 | depth hashes, counted where they are made, restore root and frontier |
| MembersTree.MembersTree.FromCommitments | core/members_tree.js:78-147 | the carry-stack rebuild gives root and usable frontier of the list for every size; the hashes it made, counted where they are made, are n - popcount(n), plus depth when not full, beyond the empty tree’s own depth |
| MembersTree.MembersTree.FoldFrontier | core/members_tree.js:136-145 | the closing fold over the next free slot reaches the padded root |
| MembersTree.MembersTree.FillFrontier | core/members_tree.js:119-124 | the carry stack covers every frontier entry a later append reads |
| MembersTree.MembersTree.Levels | core/members_tree.js:213-227 | the padded full build, every level, in 2^depth - 1 hashes or none when cached |
| MembersTree.MembersTree.RootFromFullBuild | core/members_tree.js:236-239 | the reference root equals the incremental one |
| MembersTree.MembersTree.PathFor | core/members_tree.js:241-252 | the sibling and side at every level |
| MembersTree.SameListSameTree | core/members_tree.js:78-147 | two trees over one list, however built, agree in root and in every frontier entry an append can read |
| MembersTree.StackSize | core/members_tree.js:110-118 | the carry stack holds one entry per set bit of the count |
| MembersTree.FullStack | core/members_tree.js:126-134 | a tree filled exactly leaves one entry, the root |
| PaddedTree.PathFoldsToRoot | core/members_tree.js:241-252 | hashing any in-range leaf up its path reaches the root |
| PaddedTree.PaddingInvisible | core/members_tree.js:205-217 | padding with empty leaves changes no node |
| OccupiedBranches.RootFromLeaves | common/dml_root.js:29-51 | the occupied-branch root is the fully padded root, or the list is refused |
| OccupiedBranches.MerklePathFor | common/merkle_path.js:14-38 | the sparse path is the full tree’s path, with its root; the refusals in their order |
| OccupiedBranches.NextLevel | common/merkle_path.js:26-36 | one level holds exactly the nodes with a leaf beneath them |
| OccupiedBranches.SparsePathProvesLeaf | common/merkle_path.js:1-13 | the sparse path folds to the root of the list padded to capacity, and is that tree’s own path |
| OccupiedBranches.RootFromKeyIds | common/dml_sha_root.js:36-57 | the same build over hashed key ids |
| OccupiedBranches.KeyIdsNameLeaves | common/dml_sha_root.js:59-71 | exactly the leaves below 2^160 have a key id, and no two share one |
| OddMerkle.MerkleRootFromLeaves | oracle/dml_commitment.js:246-257 | pair, hash, duplicate the odd last: the root of the least single-node level |
| OddMerkle.RootBindsLeaves | oracle/dml_commitment.js:239-257 | lists of distinct leaves with one root are one list, whatever their lengths, unless a pair hashed collides or a leaf is an inner digest |
| OddMerkle.RootsAgreeExactlyWhen | oracle/dml_commitment.js:239-257 | two non-empty lists, repeated leaves or not, have one root if and only if their trees are of one height and they read alike with every duplicated node written twice |
| OddMerkle.DuplicationIsInvisible | oracle/dml_commitment.js:239-245 | distinctness is needed: repeating the last leaf of any odd list longer than one keeps the root under every hash |
| ListCommitments.EntryBytesBindFields | oracle/dml_commitment.js:195-237 | an entry’s bytes determine everything its layout writes, the version included |
| ListCommitments.SmlMerkleRoot | oracle/dml_commitment.js:271-284 | the loop is `SmlRoot`: the three refusals, then the root over the list in key order, which Layouts says in bytes |
| Layouts.NodeHashOfHalves | oracle/dml_commitment.js:252 | an inner node’s hash is the hash of 64 bytes, the left digest the first half of them |
| Layouts.RootOfTwo | oracle/dml_commitment.js:246-257 | so the root of two leaves is the hash of the 64 bytes that begin with the first |
| Layouts.NodeOfTwo | oracle/dml_commitment.js:246-257 | and every node above, an odd last one with itself |
| Layouts.SmlRootInOrder | oracle/dml_commitment.js:271-284 | the list’s root, said through its leaves: some order of the entries in which each transaction hash, its bytes reversed, comes strictly before the next, hashed entry by entry in that order |
| Layouts.ListAcceptedExactlyWhen | oracle/dml_commitment.js:271-284 | the list is refused exactly when it is too long, when two entries have one transaction hash, or when an entry cannot be serialized; an empty one has the zero root |
| Layouts.EntryLayout | oracle/dml_commitment.js:195-237 | every field of an entry at its own offset and the right way round: the hashes and the node id reversed, the numbers least significant byte first |
| ListCommitments.RepeatsAKey | oracle/dml_commitment.js:276-282 | comparing neighbours after the sort finds every repeated key |
| ListCommitments.HashEntries | oracle/dml_commitment.js:283 | the leaves are the digests of the entries in order, or one is malformed |
| ListCommitments.SmlRootForgetsOrder | oracle/dml_commitment.js:271-284 | reordering the list changes nothing, the refusal included |
| ListCommitments.SmlRootBindsEntries | oracle/dml_commitment.js:271-284 | two accepted non-empty lists with one root commit to the same entries up to order |
| ListCommitments.SerializationBindsQuorum | oracle/quorum_commitment.js:114-135 | equal serializations are the same commitment in every written field |
| ListCommitments.Collect | oracle/quorum_commitment.js:143-156 | digests and keys in order up to the first item with no serialization or a repeated identity |
| ListCommitments.QuorumsMerkleRoot | oracle/quorum_commitment.js:140-161 | accepted exactly when every quorum serializes and no identity repeats, with the root over the sorted digests and each quorum’s own key |
| Layouts.SetAcceptedExactlyWhen | oracle/quorum_commitment.js:140-155 | the quorum set is accepted exactly when every type is known, every commitment serializes and no two have one type and hash |
| Layouts.KeysAreTheQuorums | oracle/quorum_commitment.js:155-160 | the keys returned are each quorum’s own public key under its type and hash, and no others |
| Layouts.QuorumRootInOrder | oracle/quorum_commitment.js:158-160 | the root, said through its leaves: the digests of the commitments, each before the next or equal to it byte by byte |
| Layouts.QuorumLayout | oracle/quorum_commitment.js:114-135 | every field of a final commitment at its own offset and the right way round, the two bitsets with their sizes |
| ListCommitments.QuorumRootForgetsOrder | oracle/quorum_commitment.js:140-161 | a reordered set is accepted exactly when the original is, with the same root |
| ListCommitments.QuorumRootBindsSet | oracle/quorum_commitment.js:140-161 | the root pins the set, public keys included |
| ListCommitments.RootBindsMessages | oracle/dml_commitment.js:246-257 | the same for any distinct messages that are not the size of two digests |
| PartialTree.DecodeReadsBack | oracle/dml_commitment.js:449-468 | every tree that fits is read back from its bits and hashes, whatever follows them |
| PartialTree.WidthAt | oracle/dml_commitment.js:447 | the closed form for a level’s width is the halving one |
| PartialTree.TreeHeight | oracle/dml_commitment.js:442-443 | the height loop finds the least level with one node |
| PartialTree.Walker.Walk | oracle/dml_commitment.js:438-468 | the cursor walk moves past exactly the branch the specification sees, returning its root and recording its matches |
| PartialTree.HonestEncodingRoundTrips | oracle/dml_commitment.js:398-468 | the honest tree for any list and match set parses to the block’s root and exactly the marked hashes with their positions |
| PartialTree.AcceptedTreeMarksTrueLeaves | oracle/dml_commitment.js:454-460 | whatever was sent, if it parses to the root of a list of the claimed length, every marked pair is that list’s |
| PartialTree.ClaimedLengthMatters | oracle/dml_commitment.js:438-468 | the length must be the claimed one: over a list of three, a tree claiming four reproduces the root under every hash and marks a position the list does not have |
| PartialTree.AcceptedTreeIsTrueWithin | oracle/dml_commitment.js:404-475 | whatever length is claimed, every hash an accepted tree marks that is no inner digest is one of the block’s, and a position inside the block is told truly |
| ClaimedLength.ClaimIsTrueExactlyWhen | oracle/dml_commitment.js:404-475 | for every block of distinct transactions and every claimed count: all the trees with that claim and the block’s root mark only what the block has, where it has it, if and only if the claim’s tree is taller than the block’s, or as tall and longer by no more than half the largest power of two dividing the block’s size |
| ClaimedLength.BytesAreTrueExactlyWhen | oracle/dml_commitment.js:404-475 | the same of the parser and of the bytes it accepts |
| PartialTree.VisitBound | oracle/dml_commitment.js:417-421 | a walk reads fewer than 2n + height flag bits |
| PartialTreeCodec.VarintIsCanonical | oracle/dml_commitment.js:308-331 | a varint read is the number’s shortest form and nothing else |
| PartialTreeCodec.FlagAt | oracle/dml_commitment.js:434-437 | reading flag i by shift and mask is reading the unpacked list |
| PartialTreeCodec.Reader.Number | oracle/dml_commitment.js:296-307 | fixed-width little-endian reads |
| PartialTreeCodec.Reader.ReadVarintNext | oracle/dml_commitment.js:313-331 | the canonical varint |
| PartialTreeCodec.Reader.Take | oracle/dml_commitment.js:332-337 | a slice, or truncated |
| PartialTreeCodec.Reader.TakeHashes | oracle/dml_commitment.js:413-415 | the declared number of hashes |
| PartialTreeCodec.WalkAndConclude | oracle/dml_commitment.js:442-474 | the walk and the four checks that everything was used |
| PartialTreeCodec.PartialMerkleTree | oracle/dml_commitment.js:404-475 | the parser is `Parse` of the decoded bytes, with the same refusal first |
| Layouts.ParsedRootOfTwo | oracle/dml_commitment.js:458 | the root the parser returns for a tree with two children is the hash of the 64 bytes that begin with the left child’s root |
| Layouts.TreeLayout | oracle/dml_commitment.js:404-437 | where a tree’s bytes keep the count, the hashes and the flags, first flag in the lowest bit |
| PartialTreeCodec.EncodingIsAccepted | oracle/dml_commitment.js:417-428 | every tree that fits is accepted from its encoding: the flag-byte bound never refuses one |
| PartialTreeCodec.AcceptedBytesAreCanonical | oracle/dml_commitment.js:461-474 | whatever is accepted is byte for byte the encoding of the tree it was parsed as |
| PartialTreeCodec.EncodingIsInjective | oracle/dml_commitment.js:461-474 | one encoding a tree, one tree an encoding |
| PartialTreeCodec.HonestBytesParse | oracle/dml_commitment.js:404-475 | the honest bytes for up to 2^24 transactions parse to the root and the marked transactions |
| PartialTreeCodec.AcceptedBytesMarkTrueTransactions | oracle/dml_commitment.js:404-475 | accepted bytes from anyone, with the block’s root and count, mark only the block’s own transactions |
| PartialTreeCodec.AcceptedBytesAreTrueWithin | oracle/dml_commitment.js:404-475 | and whatever count they claim, a hash they mark that is no inner digest is one of the block’s, at its place if the block reaches that far |
| PartialTreeCodec.CoinbaseIsFirst | oracle/dml_commitment.js:500-517 | bytes from anyone that parse to the block’s root, whatever count they claim: a transaction they mark at position 0 is the block’s first, unless strings hashed collide or a transaction has the length of two digests |
| GrantTargets.ExtraIsDifference | adapters/discord/grant_ledger.js:5-13 | what a renewal orphans is exactly the difference of what the two records name |
| GrantTargets.CoverNamesBoth | adapters/discord/grant_ledger.js:78-82 | over channels the covering record names both grants and no more |
| GrantTargets.CoversExactlyWhenRenewable | adapters/discord/grant_ledger.js:69-82 | the covering record names everything the prior grant did if and only if nothing is orphaned or both are channel grants |
| GrantTargets.DiscordIsLawfulExactlyWhenRenewable | adapters/discord/grant_ledger.js:84-88 | the ledger’s two laws hold of the Discord algebra under exactly that condition |
| GrantTargets.SinglePlaceIsLawful | adapters/telegram/bot.js:95-97 | the one-chat rule satisfies them always |
| GrantTargets.ExtendingOrphansNothing | adapters/discord/grant_ledger.js:5-13 | a renewal that only moves the deadline orphans nothing, under either adapter |
| GrantLedger.EveryLiveTargetIsNamed | adapters/common/grant_ledger.js:649-760 | over every run of grants, renewals, sweeps and admissions with any call failing half done, any write failing and death at any await, every live target is named by its member’s row, provided each renewal is lawful against the row it meets |
| GrantLedger.DiscordRunsAreLawful | adapters/discord/grant_ledger.js:69-88 | for Discord every run is such a run whose renewals each orphan nothing of the row they meet or are between channel grants, roles included |
| GrantLedger.ClosedRunsAreLawful | adapters/common/grant_ledger.js:630-672 | so is every run over records of a class closed under renewal on which the two laws hold |
| GrantLedger.StepKeeps | adapters/common/grant_ledger.js:604-852 | each step keeps coverage |
| GrantLedger.BeginKeeps | adapters/common/grant_ledger.js:640-672 | the covering write, or the older order when there is no covering record |
| GrantLedger.SucceedKeeps | adapters/common/grant_ledger.js:672-706 | orphan revoked then final write; apply; compensation; sweep’s delete |
| GrantLedger.FailKeeps | adapters/common/grant_ledger.js:675-765 | coverage, through the prior record put back, the unsent first grant dropped, the uncertain one compensated or kept; which record each leaves, GrantOutcomes says |
| GrantOutcomes.GrantEnds | adapters/common/grant_ledger.js:672-765 | however a grant ends and whatever else happened meanwhile: a migration that fails leaves the row naming the record it named before the grant, deadline and all, unless the write that puts it back fails too; a first grant that sent nothing leaves no row, nor does one whose access was taken back; a death leaves the row; every other ending leaves the record granted |
| GrantOutcomes.NoneHeldPastTheirGrant | adapters/common/grant_ledger.js:682-703 | over every lawful run in which no restoring write fails, the process does not die in the middle of a covered migration, no admission is made by a covering record left by a failed write and revoking adds nothing: outside a migration under way, all a member holds is named by one grant that was made for them, and their row has that grant’s deadline |
| GrantOutcomes.FailedRestoreOutlives | adapters/common/grant_ledger.js:682-703 | a concrete renewal whose restoring write fails, or whose process dies, and which leaves the old channel held under the new deadline |
| GrantOutcomes.AdmissionByTheCoverOutlives | adapters/common/grant_ledger.js:713-721 | a concrete renewal whose final write fails, after which an admission by the covering row gives the old channel back under the new deadline |
| GrantOutcomes.PoliciesKeepDeadlines | adapters/discord/grant_ledger.js:5-82 | neither adapter’s orphaned nor covering record changes a deadline, so both ledgers are such |
| GrantOutcomes.BeginsAs | adapters/common/grant_ledger.js:640-672 | a grant begins with its migration exactly when it orphans something, under the covering record if there is one, and leaves the member as they were if its first write fails |
| GrantOutcomes.FirstGrantSucceeds | adapters/common/grant_ledger.js:712-724 | a first grant whose calls return leaves the row naming it and everything it names live |
| GrantOutcomes.RenewalSucceeds | adapters/common/grant_ledger.js:640-724 | a renewal whose calls return exchanges whatever the prior grant gave for exactly what the new one names |
| GrantOutcomes.GrantsExactlyWhen | adapters/common/grant_ledger.js:604-640 | a grant is refused exactly when its deadline is not after the highest time observed, this reading included, and then only the time is written |
| GrantOutcomes.SweepsExactlyWhen | adapters/common/grant_ledger.js:794-875 | a sweep takes back exactly what has expired by that time, and live and admission are exactly of rows that have not |
| GrantLedger.DiscordChannelsAreClosed | adapters/discord/grant_ledger.js:78-88 | channel grants are closed under renewal with both laws |
| GrantLedger.SinglePlacesAreClosed | adapters/matrix/bot.js:194-196 | so are single-place grants |
| GrantLedger.DiscordRenewalCoversExactlyWhen | adapters/discord/grant_ledger.js:69-82 | for any member of any ledger holding all its row names, beginning a renewal keeps coverage if and only if nothing is orphaned or both are channel grants |
| GrantLedger.RoleChangeLosesTrack | adapters/discord/grant_ledger.js:79 | a concrete run in which a role change leaves the old role held under a row naming another |
| GrantLedger.SweepLeavesNothing | adapters/common/grant_ledger.js:794-832 | because the row names everything live, a completed sweep or compensation leaves no access and no row |
| GrantLedger.AdmissionIsTracked | adapters/common/grant_ledger.js:834-852 | an admission in flight is to a target the row still names |
| GrantLedger.MarkNeverFalls | adapters/common/grant_ledger.js:555-575 | the observed time never falls over any run without a clock reset |
| GrantLedger.DeadlineIsFinal | adapters/common/grant_ledger.js:555-575 | a deadline once judged passed is never again treated as live by grant, admission, live or sweep |
| GrantLedger.GrantTable.SeedRevSeq | adapters/common/grant_ledger.js:932-960 | the revision counter is never lowered and covers every row, or a malformed one is refused |
| GrantLedger.GrantTable.Put | adapters/common/grant_ledger.js:523-536 | the revision written belongs to no row, now or before, and the table goes on being the ledger’s of the state machine |
| GrantLedger.GrantTable.Delete | adapters/common/grant_ledger.js:266 | only the row at the revision goes, as in the state machine |
| GrantLedger.GrantTable.ObserveClock | adapters/common/grant_ledger.js:555-575 | the sample returned is the one written down, at least the reading and at least the mark, as in the state machine |
| TimeGuard.UnregressedIsHighest | core/time_guard.js:124-146 | an unregressed pair of observations is the highest of either period ever seen |
| TimeGuard.MarksSayExactly | core/time_guard.js:124-146 | after any readings each mark is the highest of its kind, and a regression is noted exactly when some reading was below an earlier one of its kind |
| TimeGuard.Guard.Open | core/time_guard.js:28-79 | a process starts afresh on no file or on marks of another schedule, whatever they are, resumes its own, and is refused by a file it cannot read or whose own marks are malformed |
| TimeGuard.Guard.Observe | core/time_guard.js:124-138 | the period returned, the mark moved forward only, the regression sticky, and nothing in memory a restart would not find |
| MembershipVerify.ClaimStore.Add | core/nullifier_sqlite.js:128-140 | the first claim for a tag stays, by the rule the state machine’s spend follows |
| MembershipVerify.ClaimStore.Prune | core/nullifier_sqlite.js:148-152 | a tag is left exactly if it was there and its epoch is not below the cutoff, with its account, and the count returned is how many went |
| MembershipVerify.OneAccountPerTag | core/verifier.js:198-263 | over every interleaving of verifies, pruning, clock movement and restarts, all grants for one (epoch, context, nullifier) go to one account |
| MembershipVerify.ClaimantIsGranted | core/verifier.js:187-204 | and to the account already on record, when there was one |
| MembershipVerify.StepKeeps | core/gateway.js:1051-1062 | each step, pruning included, leaves every grant’s claim on record or its epoch out of reach |
| MembershipVerify.GrantableMeansNotPast | core/gateway.js:1341-1375 | a verdict that may still grant says the highest epoch ever seen is not past the verify’s own |
| MembershipVerify.GrantIsInTime | core/gateway.js:1402-1409 | every grant is made before it expires, on a clock never seen to step back |
| MembershipVerify.RegressionStopsGrants | core/time_guard.js:124-154 | after a backward step nothing is granted again, restarts included |
| MembershipVerify.LostAnswerIsRecovered | core/verifier.js:198-214 | an account whose claim is on record is granted again by a fresh verify while its epoch lasts |
| VerifyOutcomes.FirstClaimIsGranted | core/verifier.js:216-262 | an unspent tag, a valid proof, a clock that never stepped back and its own period: the spend is recorded and the verify granted, whether or not the root aged out during the spend |
| VerifyOutcomes.RaceWithOneselfIsGranted | core/verifier.js:224-258 | so is one whose spend lost the race to an earlier claim of the same account |
| VerifyOutcomes.ChecksExactlyWhen | core/verifier.js:170-182 | each check lets the verify go on exactly when no reading was below an earlier one, the epoch and in two-tier mode the season and tree are still its own and, until the spend, the root is still accepted; and leads from each wait to the one that follows |
| VerifyOutcomes.GrantLastsExactly | core/gateway.js:1402-1409 | the expiry given with a grant is not reached exactly while its epoch and, in two-tier mode, its season are not past |
| VerifyOutcomes.GrantsHavePaths | core/verifier.js:198-262 | in every run each grant was given to a verify for that tag and that named account whose own awaits, in order, were those of a first claim, of a race lost to itself or of a re-grant, every one answered and the proof valid |
| VerifyOutcomes.ClaimsHavePaths | core/verifier.js:216-224 | and each new claim was made by a verify that was admitted, asked, proved and checked |
| LeafSet.CommitmentIsTheMultiset | core/stores.js:54-69 | equal leaf-set commitments are equal multisets, duplicates counted, and the other way round |
| LeafSet.JoinIsInjective | core/stores.js:66-69 | newline-joined one-line leaves can be taken apart again |
| RootWindow.BoundKeeps | core/stores.js:278-311 | the leaf-bound loop removes whole heights, never the newest, ends within the budget or with one height, and gives up a pinned height only after every unpinned one below the newest, oldest first |
| RootWindow.AdoptedIsCurrent | core/stores.js:206-235 | after adopting at or above every retained height, that snapshot is current |
| RootWindow.TrimKeepsTheNewest | core/stores.js:228-234 | trimming keeps whole heights, exactly as many as the window allows, each above every height it drops |
| RootWindow.AdoptedWithoutBound | core/stores.js:206-235 | with no leaf budget, what adopting gives up is the key’s own old record and the heights past the window |
| RootWindow.OtherOrderStays | core/stores.js:125-143 | after an adoption at the top height, the record in the other ordering at that height is still held, leaf budget included |
| RefreshOutcomes.RefreshesExactlyWhen | core/gateway.js:800-912 | a refresh adopts a snapshot exactly when it is signed, its roots are its leaves’, nothing held is above it and everything at its height is of its block and leaf multiset; it is then current, held field by field as it is under the ordering its version stands for, and all else held was held before; otherwise the window is left as it was |
| RefreshOutcomes.BothOrderingsAreHeld | core/gateway.js:504-513 | one list published in both leaf orderings at one height, either first: both are held after both refreshes |
| RootWindow.MemoryIsBounded | core/stores.js:228-311 | over every run of refreshes and ageing the heights held are within the window, and the leaves within their budget unless one height is all there is |
| RootWindow.AdoptKeeps | core/stores.js:212-234 | an admissible adoption keeps one block and one leaf multiset a height |
| RootWindow.OneHeightOneSet | core/gateway.js:838-900 | over every run of refreshes and ageing, two records at one height name one block and hold one leaf multiset |
| RootWindow.TwoPerHeight | core/gateway.js:504-513 | no height ever holds more than two records |
| RootWindow.NeverBelowTheWindow | core/gateway.js:838-848 | a refresh that changes the window adopted at or above every retained height, and is now current |
| Stores.RootWindows.Adopt | core/stores.js:152-235 | the record and snapshot checks in order, then the adoption |
| Stores.RootWindows.EnforceLeafBound | core/stores.js:278-311 | the loop computes the bound |
| Stores.RootWindows.MaxHeight | core/stores.js:325-327 | the highest height of any record |
| Stores.RootWindows.TsOf | core/stores.js:357-366 | the newest timestamp among the records holding the root |
| Stores.RootWindows.IsEligibleWithin | core/stores.js:333-345 | eligible exactly when some record holding the root is within the age |
| Stores.RootWindows.DropOlder | core/stores.js:411-413 | a record is left exactly if it was held and is not older than the cutoff, and those left keep their order |
| Stores.ChallengeStore.Put | core/stores.js:725-732 | accepted while there is room once the expired are gone, every other live challenge left as it was |
| Stores.ChallengeStore.Take | core/stores.js:734-740 | one-time use |
| Stores.ChallengeStore.Restore | core/stores.js:750-758 | put back exactly as it was, within the bound and beside every other live challenge, or refused |
| Stores.ChallengeStore.Keep | core/stores.js:710-712 | one more verify holds its own root and no other count changes; without a root there is nothing to release |
| Stores.ChallengeStore.Release | core/stores.js:714-720 | a verify lets its root go once, however often it asks, and another against the same root keeps it held |
| Stores.ChallengeStore.PinnedRoots | core/stores.js:698-704 | exactly the roots a live challenge was minted against or a verify in flight has not let go |
| Semaphore.SlotsAreRespected | core/stores.js:575-603 | in every interleaving: at most the slots run, at most the queue’s length wait, and nobody waits while a slot is free |
| Semaphore.AdmitsExactlyWhen | core/stores.js:582-595 | in every interleaving a task that comes runs at once exactly when a slot is free, otherwise waits, last, exactly when the queue has room, and is otherwise shed without a trace |
| Semaphore.FirstComeFirstServed | core/stores.js:585-590 | waiters start in the order they arrived |
| Semaphore.EndHandsOnOrFrees | core/stores.js:597-601 | a task that ends hands on or frees exactly one slot |
| Semaphore.Semaphore.Acquire | core/stores.js:582-595 | take a slot, queue, or be shed |
| Semaphore.Semaphore.Release | core/stores.js:597-601 | the finally clause |
| SnapshotMessage.MessagesAgreeExactlyWhen | common/oracle_sig.js:77-124 | two signed messages are the same bytes if and only if the snapshots have one version and agree in every signed field, an absent block hash read as empty, text compared by its scalar values |
| SignedBytes.MessageIs | common/oracle_sig.js:77-124 | the bytes signed are the version’s lines in their order, each field in its own line, numbers in decimal, an absent block hash an empty line |
| SignedBytes.SignableExactlyWhen | common/oracle_sig.js:53-124 | a snapshot has a message exactly when its version is known and it has what the version asks for, every number is safe and no text has a newline |
| SnapshotMessage.WellFormedFieldsAreBound | common/oracle_sig.js:40-57 | over text without lone surrogates, equal messages are equal fields |
| SnapshotMessage.LoneSurrogateIsNotBound | common/oracle_sig.js:58-64 | without that, a lone surrogate and the replacement character sign to the same bytes |
| Text.EncodedAlike | common/oracle_sig.js:100 | UTF-8 bytes determine exactly the scalar values of a string |


