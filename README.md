# pg_quota: a verified model of the disk-usage ledger

pg_quota is a PostgreSQL extension that enforces per-role disk quotas. A
background worker per database keeps a model of the files of that
database:

- a map from file name to `FileSizeEntry` (size, parent relation, the scan
  that last saw it);
- a map from relation file node to `RelSizeEntry` (owner, number of files,
  total size);
- the list `orphanRels`, which holds relations whose owner is not yet
  known;
- a table shared with the backends. It maps (role, database) to
  `RoleSizeEntry`, which holds a total and a quota, where a negative quota
  means none.

A change in one file's size is carried up as a signed delta to its
relation and to the relation owner's row. A rescan stamps every file it
sees with a new generation number and then reclaims the files it did not
see. Resolving an owner moves a relation's whole total onto the owner's
row. The backends use the shared table in the executor permission hook to
refuse an `INSERT` into a table whose owner is over quota.

The project models:

- `rel_path.dfy` (module `RelPath`): the path classifier `isRelDataFile`.
  It is a pure function over `global/%u`, `base/%u/%u` and
  `pg_tblspc/%u/<version>/%u/%u`. It is paired with an independent
  description of the recognised paths (`Layout`), and lemmas prove both
  directions.
- `ledger.dfy` (module `Ledger`): the entry types, the sums over the maps,
  the updates of the shared table, `CheckQuota`, and the filters of the
  directory walk (what a scan *observes*).
- `ledger_ops.dfy` (module `LedgerOps`): each operation of the worker as a
  transition of the whole state. It also holds the ledger invariant
  `Consistent`, which combines:
  - relation totals and counts are the sums over their files;
  - role totals are the sums over the relations they own;
  - every relation is on the orphan list;
  - every known owner has a row.

  Lemmas prove that each transition preserves the invariant, state the
  round trips between transitions, and state what a whole refresh does.
- `fs_model.dfy` (module `FsModel`): the worker's state as a class
  `Model`, and the shared table as a class `QuotaShared`. Every method of
  `Model` keeps the invariant. Most are proved to perform their
  `LedgerOps` transition exactly. Two are specified by a relation instead:
  `ReclaimUnseen` and `Refresh`. The reclaim pass visits a hash table in
  an unspecified order, so the model states what every order leaves
  (`LedgerOps.Refreshed`) and not one particular result.
- `enforcement.dfy` (module `Enforcement`): the permission hook
  `quota_check_ExecCheckRTPerms`, as a recursive function over the range
  table.
- `pg_quota.dfy` (module `PgQuota`): two parts of the worker.
  - The row loop of `load_quotas`, as a method over the rows of the
    configuration table.
  - The main loop of `pg_quota_worker_main`. The environment is a sequence
    of cycles. A cycle says:
    - when each signal arrives: during the wait, after `ResetLatch`, or
      after the SIGHUP test;
    - whether the postmaster dies;
    - what the scan finds;
    - what the catalog and the configuration table answer.

    A SIGTERM or SIGHUP may also arrive before the first loop test. The
    worker returns its trace of steps, which is proved equal to the
    reference function `WorkerTrace`. As ghost outputs it also returns the
    ledger after every completed pass, and as each refresh left it. Each
    pass is proved to lead from one ledger to the next by `PassEffect`: a
    refresh, then owner resolution along the refreshed orphan list, then
    the quota load. Lemmas give the order of the steps and the effect of
    signals on the latch and on reloads.
- `wrappers.dfy`, `pg_types.dfy` and `map_sums.dfy` hold `Option`, the
  PostgreSQL identifiers and constants, and a sum over the values of a map.

Where the code and its comments disagree, the model follows the code:

- A SIGTERM that arrives during the wait does not stop the iteration that
  follows it. The loop test only sees it after `load_quotas`.
- `load_quotas` stores a negative quota as it is. `CheckQuota` then
  treats it as no quota.
- `UpdateRelOwner` unlinks a relation from `orphanRels` only when the new
  owner is `InvalidOid`. So a relation whose owner has been resolved stays
  on the list, which the comment in `UpdateOrphans` does not expect. The
  model keeps this, and proves that every relation is on the list.
- A file is keyed by its bare directory-entry name, not its path. Its
  parent is fixed when the entry is created.
- Role rows are keyed by the worker's database, whatever database the
  relation's file node names.

## Model

| member | source | states |
|---|---|---|
| RelPath.DigitRunOfNumeral | fs_model.c:175-196 | a `%u` conversion consumes a whole digit run and stops at the first non-digit |
| RelPath.ScanNumeral | fs_model.c:175-196 | `%u` over a numeral followed by a non-digit yields the numeral's value and leaves the rest |
| RelPath.ScanSplits | fs_model.c:175-196 | whatever a successful `%u` consumed is a numeral, and what it left does not start with a digit |
| RelPath.SharedFileRecognised | fs_model.c:175-181 | `global/<n><tail>` matches the first pattern as (pg_global, InvalidOid, n) |
| RelPath.DefaultFileRecognised | fs_model.c:175-190 | `base/<d>/<n><tail>` is recognised as (pg_default, d, n) |
| RelPath.TablespaceFileRecognised | fs_model.c:175-197 | `pg_tblspc/<s>/<version>/<d>/<n><tail>` is recognised as (s, d, n) |
| RelPath.MatchGlobal | fs_model.c:175-181 | a match is a path under `global/`, naming a relation of pg_global with database InvalidOid |
| RelPath.MatchBase | fs_model.c:184-190 | a match is a path under `base/`, naming a relation of pg_default |
| RelPath.MatchTablespace | fs_model.c:193-197 | a match is a path under `pg_tblspc/` |
| RelPath.IsRelDataFile | fs_model.c:143-207 | the three patterns tried in order; only paths under `global/`, `base/` or `pg_tblspc/` are recognised. Both directions against the Layout description are stated in LayoutIsRecognised and RecognisedHasLayout |
| RelPath.LayoutIsRecognised | fs_model.c:143-207 | every well-formed path of the three layouts is recognised, as the relation it names, whatever segment or fork suffix follows |
| RelPath.GlobalMatchHasLayout | fs_model.c:175-181 | a path the `global/%u` pattern matches is the rendering of a well-formed shared-file layout |
| RelPath.BaseMatchHasLayout | fs_model.c:184-190 | a path the `base/%u/%u` pattern matches is the rendering of a well-formed default-tablespace layout |
| RelPath.TablespaceMatchHasLayout | fs_model.c:193-196 | a path the tablespace pattern matches is the rendering of a well-formed tablespace layout |
| RelPath.RecognisedHasLayout | fs_model.c:143-207 | conversely, every recognised path is a well-formed layout, and the result is the relation that layout names; nothing else is recognised |
| Ledger.Credit | fs_model.c:457-471 | adding a delta to a role row: the row is created with total 0 and no quota if missing, its total moves by the delta, and every other row is unchanged |
| Ledger.Debit | fs_model.c:376-397 | subtracting from a role row changes only that row's total, and never creates a row |
| Ledger.SetQuota | fs_model.c:656-676 | the row's quota is overwritten, its total is kept (0 for a new row), and every other row is unchanged |
| Ledger.CheckQuota | fs_model.c:715-747 | a role is refused exactly when its row exists, has a quota at least 0 and a total above it; it is allowed whenever the table is not attached |
| Ledger.RemoveFirst | fs_model.c:365-366 | unlinking a node from the orphan list takes out exactly one occurrence of it, if there is one |
| Ledger.ReclaimKeepsThisPass | fs_model.c:541-586 | with every entry older than the bumped generation, recording a pass and then keeping only the entries of this generation leaves exactly the files of the pass |
| Ledger.RelsAreParents | fs_model.c:100-111 | when every file's parent is a relation and every relation counts a file, the relations are exactly the parents of the files |
| Ledger.AcceptFile | fs_model.c:494-519 | an accepted entry is not `.` or `..`, its path is recognised as the observation's relation, that relation is no system relation (relNode at least FirstNormalObjectId), and its stat succeeded with the observed size; it is keyed by its bare name |
| Ledger.IsDatabaseDir | fs_model.c:552-557 | an entry of `base/` is walked only when its name starts with a digit, which rules out `.` and `..` |
| Ledger.AcceptInDatabaseDir | fs_model.c:494-519 | an entry of `base/<d>` is counted exactly when its name starts with a number at least FirstNormalObjectId and its stat succeeds; it is then counted as relation (pg_default, d, that number) under its bare name |
| Ledger.NumberedEntryParsed | fs_model.c:494-505 | `base/<d>/<name>`, for a name that starts with a number, is recognised as that relation of d, and such a name is never `.` or `..` |
| Ledger.UnnumberedEntryRejected | fs_model.c:498-505 | an entry of `base/<d>` whose name does not start with a number is never counted |
| Ledger.BaseLayoutName | fs_model.c:184-190 | a recognised layout that renders as `base/<d>/<name>` forces name to start with a number |
| LedgerOps.RecordFile | fs_model.c:403-475 | the transition of UpdateFileSize; its effect is stated in RecordFileSums, RecordFileRoles, RecordFileConsistent and RecordFileIdempotent, and RemoveFileUndoesRecordFile gives its inverse |
| LedgerOps.RemoveFile | fs_model.c:342-398 | the transition of RemoveFileSize; its effect is stated in RemoveFileSums, RemoveFileKnown, RemoveFileOrphans and RemoveFileConsistent |
| LedgerOps.SetOwner | fs_model.c:592-648 | the transition of UpdateRelOwner; its effect is stated in SetOwnerListed, SetOwnerRoles and SetOwnerConsistent |
| LedgerOps.AssignQuota | fs_model.c:656-676 | the transition of UpdateQuota; AssignQuotaConsistent states that it keeps the invariant, and Ledger.SetQuota what it does to the table |
| LedgerOps.RecordAll | fs_model.c:480-562 | the effect of a scan, its observations recorded in order; stated in RecordAllShape, RecordAllConsistent, RecordAllAppend and RecordAllCons |
| LedgerOps.ResolveOwners | fs_model.c:682-704 | UpdateOrphans along a given list; stated in ResolveOwnersRels, ResolveOwnersRoles, ResolveOwnersConsistent and ResolveAllOrphans |
| LedgerOps.ForgetDatabase | fs_model.c:250-266 | exactly the rows of other databases are kept, unchanged |
| LedgerOps.Refreshed | fs_model.c:529-587 | what any order of the reclaim pass leaves: the ledger is consistent, its files are exactly this scan's, its relations exactly their parents with owners kept, the orphan list is a permutation of the expected one, and only owner totals moved |
| LedgerOps.RecordFileSums | fs_model.c:412-452 | recording a file keeps each relation's count and total equal to the count and sum of its files, and every file's parent a known relation |
| LedgerOps.RecordFileRoles | fs_model.c:448-472 | carrying the delta to the owner's row keeps each role total equal to the sum over the relations it owns, every owner with a row, and moves no quota and no other database's row |
| LedgerOps.RecordFileConsistent | fs_model.c:403-475 | UpdateFileSize keeps the whole ledger invariant and moves only owner totals of this database |
| LedgerOps.LastFileHoldsTotal | fs_model.c:360-364 | a relation with one file has that file's size as its total, so deleting it at zero files drops nothing |
| LedgerOps.RemoveFileSums | fs_model.c:342-372 | forgetting a file keeps each relation's count and total balanced, and deletes a relation with its last file |
| LedgerOps.RemoveFileKnown | fs_model.c:342-372 | forgetting a file leaves every remaining file's parent a known relation, in a scan no later than the current one |
| LedgerOps.RemoveFileBalanced | fs_model.c:349-372 | forgetting a file leaves every surviving relation's count and total equal to its files' |
| LedgerOps.RemoveFileListed | fs_model.c:362-366 | unlinking an ownerless relation with its last file keeps every live relation on the orphan list |
| LedgerOps.RemoveFileRoles | fs_model.c:374-397 | debiting an existing owner row keeps role totals balanced, and moves no quota and no other database's row |
| LedgerOps.RemoveFileConsistent | fs_model.c:342-398 | RemoveFileSize keeps the ledger invariant, and a relation at its last file holds exactly that file's size |
| LedgerOps.SetOwnerListed | fs_model.c:622-645 | an owner change keeps every relation on the orphan list |
| LedgerOps.SetOwnerRoles | fs_model.c:592-648 | moving a relation's total from the old owner's row to the new owner's keeps role totals balanced and every known owner with a row |
| LedgerOps.SetOwnerConsistent | fs_model.c:592-648 | UpdateRelOwner keeps the ledger invariant |
| LedgerOps.AssignQuotaConsistent | fs_model.c:656-676 | UpdateQuota keeps the ledger invariant |
| LedgerOps.ResetConsistent | fs_model.c:212-268 | after initialisation the empty model over the shared table without this database's rows is consistent, and exactly the other databases' rows are kept, unchanged |
| LedgerOps.ConsistentLater | fs_model.c:541 | bumping the generation keeps the ledger invariant |
| LedgerOps.OnlyOwnerTotalsMovedTrans | fs_model.c:529-587 | the guarantee that only owner totals of this database moved composes over successive operations |
| LedgerOps.RemoveFileOrphans | fs_model.c:362-366 | removing a file unlinks from the orphan list exactly the ownerless relation it deletes, if any |
| LedgerOps.StampedRemove | fs_model.c:576-584 | removing an entry of an older scan leaves this scan's entries as they are |
| LedgerOps.ReclaimingStart | fs_model.c:574 | the reclaim pass starts in its loop invariant |
| LedgerOps.ReclaimingStep | fs_model.c:576-585 | removing one file of an older scan keeps the reclaim invariant: the ledger stays consistent, this scan's entries are kept, owners keep their values, and the orphan list loses only the dropped ownerless relations |
| LedgerOps.RefreshOutcome | fs_model.c:529-587 | after a refresh the files are exactly those of the scan, the relations exactly their parents, each relation keeps its owner (a new one has none), the orphan list is the old one with each new relation pushed and each reclaimed ownerless one unlinked, and only owner totals moved |
| LedgerOps.RefreshFiles | fs_model.c:574-586 | when every entry left is of this scan and this scan's entries are those the walk recorded, the file map is exactly this scan's files |
| LedgerOps.RefreshParents | fs_model.c:529-587 | under the invariant the relations are exactly the parents of the files |
| LedgerOps.RefreshOrphans | fs_model.c:529-587 | the relations the reclaim pass drops without an owner are exactly the relations the scan left ownerless and that are now gone |
| LedgerOps.RecordFileIdempotent | fs_model.c:436-452 | observing the same size twice changes nothing the second time |
| LedgerOps.ShrinkUndoesRecordedRel | fs_model.c:412-432 | removing a just-added file restores its relation map: an entry created for it goes again, and an existing one gets its old count and total back |
| LedgerOps.DebitUndoesCreditOwner | fs_model.c:448-472 | debiting what was credited to an existing owner row restores the table |
| LedgerOps.RemoveFileUndoesRecordFile | fs_model.c:342-475 | RemoveFileSize undoes UpdateFileSize of a new file: files, relations, orphan list and role rows are back as they were |
| LedgerOps.RecordAllConsistent | fs_model.c:480-562 | recording every observation of a scan keeps the ledger invariant and moves only owner totals |
| LedgerOps.RecordAllShape | fs_model.c:480-562 | after the walk, the file map holds the observations stamped with this generation, the relations are the old ones plus the scanned ones with owners kept, and the orphan list has the new relations pushed in order |
| LedgerOps.RecordAllAppend | fs_model.c:547-562 | recording a scan in two parts is recording it at once |
| LedgerOps.RecordAllCons | fs_model.c:519 | recording a scan is recording its first observation and then the rest |
| LedgerOps.ScanSplitsAt | fs_model.c:547-562 | a scan consistent with the files splits into a first part and the rest, each consistent when it is recorded |
| LedgerOps.ResolveOwnersConsistent | fs_model.c:682-704 | resolving owners along any list keeps the ledger invariant |
| LedgerOps.ResolveOwnersRels | fs_model.c:682-704 | resolving owners changes no file, no orphan-list entry and no set of relations; a pending relation with a non-invalid answer gets that owner, and every other relation keeps its owner |
| LedgerOps.ResolveOwnersRoles | fs_model.c:682-704 | resolving owners keeps every role row and its quota, leaves other databases' rows unchanged, and only adds rows of this database with no quota |
| LedgerOps.ResolveAllOrphans | fs_model.c:682-704 | resolving along the orphan list gives every relation whose owner the catalog knows that owner, with a row for it; the others keep theirs for the next cycle |
| FsModel.QuotaShared.constructor | fs_model.c:47-61 | the shared table starts with no rows |
| FsModel.Model.constructor | fs_model.c:212-268 | init_fs_model: empty file and relation maps, an empty orphan list, this database's rows taken out of the shared table, and the invariant established |
| FsModel.Model.UpdateFileSize | fs_model.c:403-475 | the new state is the RecordFile transition (file stamped with its size and the generation, a new relation created ownerless and pushed on the orphan list, the delta carried to the relation and a known owner's row), and the invariant is kept |
| FsModel.Model.RemoveFileSize | fs_model.c:342-398 | the new state is the RemoveFile transition, the invariant is kept, and only owner totals move |
| FsModel.Model.RebuildRelSizeMapDir | fs_model.c:480-523 | scanning one directory records, in listing order, exactly the entries the filter accepts, and keeps the invariant |
| FsModel.Model.ScanBaseEntry | fs_model.c:550-561 | an entry of `base/` that is a numbered directory is scanned as a database directory; any other entry changes nothing |
| FsModel.Model.WalkBase | fs_model.c:547-562 | the walk over `base/` records the observations of every database directory, in order, and keeps the invariant |
| FsModel.Model.ReclaimUnseen | fs_model.c:574-586 | after the reclaim pass every remaining file is of this scan, and the reclaim invariant holds |
| FsModel.Model.Refresh | fs_model.c:529-587 | refresh_fs_model bumps the generation; afterwards the files are exactly this scan's, the relations exactly their parents with owners kept, the orphan list is as stated in RefreshOutcome, and the invariant holds; together these are Refreshed of the old ledger |
| FsModel.Model.UpdateRelOwner | fs_model.c:592-648 | the new state is the SetOwner transition: nothing changes for an absent relation or the same owner; otherwise the total moves from the old owner's row to the new owner's, and an ownerless relation goes to the head of the orphan list; the invariant is kept |
| FsModel.Model.UpdateQuota | fs_model.c:656-676 | only the quota of (owner, this database) is overwritten, and the invariant is kept |
| FsModel.Model.UpdateOrphans | fs_model.c:682-704 | the orphan list is not changed, the new state is ResolveOwners along the list as it stood, and the invariant is kept |
| Enforcement.CheckRTPerms | enforcement.c:67-112 | the error is raised only when ereport_on_violation is set, a quiet refusal only when it is not, and an empty range table is permitted |
| Enforcement.IsChecked | enforcement.c:78-86 | the entries the hook checks are relations whose required permissions include INSERT; SkipsUnchecked states that the others are passed over |
| Enforcement.SkipsUnchecked | enforcement.c:78-86 | an entry that is not a relation, or does not need INSERT, is skipped |
| Enforcement.RefusedIffViolation | enforcement.c:72-111 | the statement is stopped exactly when some entry is the first the walk does not pass and its owner is over quota, and it ends in the error exactly when ereport_on_violation is also set |
| Enforcement.UnknownOwnerPermits | enforcement.c:92-94 | the first checked entry with no known owner permits the statement, whatever the later entries are |
| Enforcement.AllPassPermits | enforcement.c:111 | when every checked entry's owner is known and within quota, or no entry is checked, the statement is permitted |
| Enforcement.DecidedByOwners | enforcement.c:88-92 | the decision depends only on the owners of the checked tables, not on who runs the statement |
| PgQuota.ApplyRow | pg_quota.c:122-139 | a row with a NULL column changes nothing; a complete row sets the quota of (role, this database), creating the row if needed, and keeps every total and every other row |
| PgQuota.ApplyRows | pg_quota.c:120-140 | the rows applied in row order; what this leaves is stated in ApplyRowsEffect, LaterRowWins and UnnamedRoleKept |
| PgQuota.ApplyRowsEffect | pg_quota.c:120-140 | after the rows, a row of this database exists exactly when it existed or some row without NULLs names its role; its total is kept, and its quota is that of the last such row |
| PgQuota.LaterRowWins | pg_quota.c:120-140 | a later row for the same role overwrites an earlier one |
| PgQuota.UnnamedRoleKept | pg_quota.c:128-135 | a role that no row with a non-NULL quota names keeps its row as it was; rows with a NULL column change nothing |
| PgQuota.LastQuotaNone | pg_quota.c:128-135 | a role that no row with a non-NULL quota names gets no quota from the rows |
| PgQuota.NegativeQuotaNeverExceeded | pg_quota.c:136-139 | a negative quota is stored as it is and is then never exceeded |
| PgQuota.LoadQuotas | pg_quota.c:90-143 | a missing configuration table changes nothing; otherwise the shared table is the rows applied in order, and the ledger invariant is kept |
| PgQuota.StableScanConsistent | pg_quota.c:248 | when every name stands for a fixed relation, each scan meets the precondition of the walk |
| PgQuota.StableScanParents | pg_quota.c:248 | a scan whose names stand for fixed relations keeps every file's parent the relation of its name |
| PgQuota.Loaded | pg_quota.c:90-143 | the ledger after load_quotas: unchanged when the table is missing, otherwise its role rows with the rows applied in order |
| PgQuota.Reloads | pg_quota.c:238-242 | the SIGHUP test fires when a SIGHUP was pending as the pass began or arrived before the test |
| PgQuota.SighupCarried | pg_quota.c:238-242 | a SIGHUP that arrives after the test has cleared the flag stays pending for the next pass |
| PgQuota.LatchLeftSet | pg_quota.c:223-227 | the next wait finds the latch set exactly when a signal arrived after ResetLatch |
| PgQuota.Terminates | pg_quota.c:213 | the loop test sees got_sigterm when a SIGTERM arrived at any point of the pass |
| PgQuota.PassEffect | pg_quota.c:248-280 | one full pass by way of a refreshed ledger: a ledger the refresh can leave (Refreshed), then owner resolution along its orphan list, then the quota load |
| PgQuota.LoopRest | pg_quota.c:213-292 | what follows pass i: nothing after a postmaster death, the exit after a SIGTERM, else the later passes |
| PgQuota.IterationSteps | pg_quota.c:223-280 | the steps of one pass: the wait, then the exit if the postmaster died; otherwise a reload when a SIGHUP is pending at the test, then rescan, owner resolution and quota load (the order is proved in LoopStepsShape) |
| PgQuota.LoopSteps | pg_quota.c:213-292 | the steps of the loop: each pass, then nothing after a postmaster death, the exit once a SIGTERM has arrived, else the next pass with the latch and SIGHUP flag that the pass left |
| PgQuota.WorkerTrace | pg_quota.c:195-292 | the whole trace: initialise, set the latch, then the exit if a SIGTERM came before the first loop test, else the loop (properties in FirstWaitImmediate, SigtermBeforeLoop, StepOrder) |
| PgQuota.Completed | pg_quota.c:213-292 | the number of passes that run to their end, never more than the cycles |
| PgQuota.Iteration | pg_quota.c:223-280 | one pass: its steps are IterationSteps. On a postmaster death the ledger and generation are unchanged. Otherwise the generation is one higher, and the new ledger is PassEffect of the old one by way of the refreshed ledger. The ledger invariant is kept |
| PgQuota.WorkerMain | pg_quota.c:186-293 | the trace is WorkerTrace. There is one ledger per completed pass plus the initial ledger, which is empty over the shared table without this database's rows. Each pass leads from its ledger to the next by PassEffect, the last ledger is consistent, and the shared table holds its role rows |
| PgQuota.TraceStep | pg_quota.c:213-292 | running pass i moves its steps from the trace still to come to the trace done |
| PgQuota.LoopStepsAt | pg_quota.c:213-292 | the loop from cycle i is that cycle's pass and then what follows it (LoopRest) |
| PgQuota.CompletedAt | pg_quota.c:213-292 | the passes completed from cycle i on: none if the postmaster dies in it, one if a SIGTERM ends the loop after it, else one more than from the next cycle |
| PgQuota.RunExtends | pg_quota.c:248-280 | appending the ledgers of one more pass keeps every recorded pass a PassEffect of its cycle |
| PgQuota.RunPasses | pg_quota.c:248-280 | every recorded pass of the run, stated with PassEffect |
| PgQuota.FirstWaitImmediate | pg_quota.c:207-227 | without a SIGTERM before the loop, the model is initialised and the latch set before the first wait, so the first wait does not sleep |
| PgQuota.SigtermBeforeLoop | pg_quota.c:195-213 | a SIGTERM that arrives before the first loop test ends the worker after initialisation with no pass |
| PgQuota.QuietWaitsSleep | pg_quota.c:223-227 | when no signal arrives after ResetLatch in any pass, no later wait finds the latch set |
| PgQuota.LateSignalWakes | pg_quota.c:61-86 | both handlers set the latch; a signal after ResetLatch (line 227) in a pass that does not end the loop leaves it set, so the next wait does not sleep |
| PgQuota.LateSighupReloadsNext | pg_quota.c:238-242 | a SIGHUP after the reload test is acted on at the top of the next pass, right after its wait |
| PgQuota.LoopStepsShape | pg_quota.c:214-290 | in the loop, a rescan is followed by orphan resolution then quota loading; a reload comes right after a wait and right before a rescan; an exit is the last step |
| PgQuota.StepOrder | pg_quota.c:207-292 | the same order for the whole trace of the worker |
| PgQuota.SigtermFinishesIteration | pg_quota.c:213-292 | a SIGTERM in a cycle the postmaster survives still lets that iteration finish its rescan, orphan resolution and quota load before the exit |
| PgQuota.SigtermTail | pg_quota.c:213-292 | the same for the loop started from any latch state |

## Left out

- Shared-memory setup (`init_fs_model_shmem`, `pg_quota_shmem_startup`) and the `MAX_DB_ROLE_ENTRIES` bound on the shared table: allocation plumbing. The model's table has no capacity limit.
- LWLocks: the model is sequential. There are two oddities in the locking. `RemoveFileSize` writes the shared table under `LW_SHARED`. When the new owner is `InvalidOid`, `UpdateRelOwner` releases a lock it did not re-acquire.
- `%u` in `sscanf` also accepts leading white space and a sign, and wraps at 32 bits. The model reads a non-empty run of decimal digits with an unbounded value.
- Sizes are unbounded integers: `off_t`/`int64` overflow of the totals is not modelled.
- `MAXPGPATH` truncation of `snprintf` is not modelled.
- Directory enumeration and `stat` are inputs. A database directory is a sequence of (name, size or failure) entries, and `base/` is a sequence of (name, listing) entries.
- Catalog lookups (`get_rel_owner`, `get_relfilenode_owner`) are parameters: functions from relation to owner, giving `InvalidOid` when the lookup fails.
- SPI, transactions, the tuple-descriptor check of `load_quotas`, `get_database_name`, logging, `pgstat_report_activity`: foreign calls. The configuration table is `None` when missing, else its rows with NULLs as `None`.
- The worker's latch, `WaitLatch` timeout, signal handlers, `CHECK_FOR_INTERRUPTS`, `ProcessConfigFile` and database connection: process control. Signal arrivals and postmaster death are inputs. Each cycle places every signal in one of three windows: during the wait, after `ResetLatch`, or after the SIGHUP test. A signal before the first loop test is an input of the run. A reload is a step of the trace. The timeout and a signal that interrupts the wait are not told apart: in both cases the wait ends.
- `_PG_init`, the GUCs, worker registration, `get_quota_status` (the reporting function), `init_quota_enforcement` (hook installation) and `pg_quota.h`: configuration and reporting plumbing.
- There is no walk of `global/` or `pg_tblspc/`, because `refresh_fs_model` does not do one either. The classifier still recognises those paths.
- FsModel.Model.UpdateRelOwner: the `Assert` at fs_model.c:617, which says a row exists exactly when the old owner is valid, is not carried. A configuration row for role 0 can create the (InvalidOid, database) row, and the model then debits it as the code does.
- FsModel.Model.UpdateFileSize: requires that a file already known keeps its relation, the `Assert` at fs_model.c:435. Files are keyed by bare name, so two database directories holding the same file name break it. That case is not modelled.
- FsModel.Model.RebuildRelSizeMapDir, FsModel.Model.WalkBase, FsModel.Model.Refresh: require that the scan agrees with the file map on each name's relation (`ScanConsistent`). This is the same `Assert` at fs_model.c:435.
- PgQuota.WorkerMain: requires that every name stands for one relation across all cycles (`NamesStable`), for the same reason. The run covers finitely many cycles, and ends without an exit when they run out.
- FsModel.Model.Refresh: the order of the orphan list after reclaiming is stated as a multiset. The reclaim pass visits a hash table in an unspecified order.
- The orphan list holds relation file nodes, not list nodes. A relation whose owner was resolved, and which is then deleted with its last file, leaves its key on the list. The C list would keep a node of freed memory there.
