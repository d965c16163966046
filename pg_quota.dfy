/**
 * The background worker (pg_quota.c): loading the quota configuration,
 * and the order of the steps of its main loop.
 */
module PgQuota {
  import opened Wrappers
  import opened PgTypes
  import opened Ledger
  import opened LedgerOps
  import opened FsModel

  /* ----- load_quotas ----- */

  /** A row of quota.config: roleid and quota, each possibly NULL. */
  datatype ConfigRow = ConfigRow(roleid: Option<Oid>, quota: Option<int>)

  /** The shared table after one row: a row with a NULL column changes nothing. */
  function ApplyRow(roles: RoleMap, db: Oid, row: ConfigRow): (r: RoleMap)
    ensures row.roleid.None? || row.quota.None? ==> r == roles
    ensures row.roleid.Some? && row.quota.Some? ==>
              && r.Keys == roles.Keys + {RoleKey(row.roleid.value, db)}
              && r[RoleKey(row.roleid.value, db)].quota == row.quota.value
              && (forall k :: k in roles ==> r[k].totalsize == roles[k].totalsize)
              && (forall k :: k in roles && k != RoleKey(row.roleid.value, db) ==> r[k] == roles[k])
  {
    if row.roleid.Some? && row.quota.Some? then SetQuota(roles, RoleKey(row.roleid.value, db), row.quota.value)
    else roles
  }

  /** The shared table after the rows, applied in row order. */
  function ApplyRows(roles: RoleMap, db: Oid, rows: seq<ConfigRow>): RoleMap
    decreases |rows|
  {
    if |rows| == 0 then roles
    else ApplyRow(ApplyRows(roles, db, rows[..|rows| - 1]), db, rows[|rows| - 1])
  }

  /** The quota the last complete row for role o gives, if there is one. */
  function LastQuota(rows: seq<ConfigRow>, o: Oid): Option<int>
    decreases |rows|
  {
    if |rows| == 0 then None
    else
      var row := rows[|rows| - 1];
      if row.roleid == Some(o) && row.quota.Some? then row.quota
      else LastQuota(rows[..|rows| - 1], o)
  }

  /**
   * What loading does to each row of the table: a row of this database
   * exists afterwards when it existed or some complete row names its role;
   * its quota is the last such row's, its total is kept (0 for a new row);
   * the rows of other databases are untouched.
   */
  lemma {:induction false} ApplyRowsEffect(roles: RoleMap, db: Oid, rows: seq<ConfigRow>, k: RoleKey)
    ensures var r := ApplyRows(roles, db, rows);
            && (k in r <==> k in roles || (k.dbid == db && LastQuota(rows, k.rolid).Some?))
            && (k in r ==>
                  && r[k].totalsize == (if k in roles then roles[k].totalsize else 0)
                  && r[k].quota == (if k.dbid == db && LastQuota(rows, k.rolid).Some?
                                    then LastQuota(rows, k.rolid).value else roles[k].quota))
    decreases |rows|
  {
    if |rows| > 0 {
      ApplyRowsEffect(roles, db, rows[..|rows| - 1], k);
    }
  }

  /** A later row for the same role overrides an earlier one. */
  lemma LaterRowWins(roles: RoleMap, db: Oid, rows: seq<ConfigRow>, o: Oid, q: int)
    ensures var r := ApplyRows(roles, db, rows + [ConfigRow(Some(o), Some(q))]);
            RoleKey(o, db) in r && r[RoleKey(o, db)].quota == q
  {
    var rows1 := rows + [ConfigRow(Some(o), Some(q))];
    assert rows1[..|rows1| - 1] == rows;
  }

  /** A role no complete row names keeps its row, or its absence, as it was. */
  lemma UnnamedRoleKept(roles: RoleMap, db: Oid, rows: seq<ConfigRow>, k: RoleKey)
    requires forall i :: 0 <= i < |rows| && rows[i].quota.Some? ==> rows[i].roleid != Some(k.rolid)
    ensures var r := ApplyRows(roles, db, rows);
            (k in r <==> k in roles) && (k in roles ==> r[k] == roles[k])
  {
    LastQuotaNone(rows, k.rolid);
    ApplyRowsEffect(roles, db, rows, k);
  }

  lemma {:induction false} LastQuotaNone(rows: seq<ConfigRow>, o: Oid)
    requires forall i :: 0 <= i < |rows| && rows[i].quota.Some? ==> rows[i].roleid != Some(o)
    ensures LastQuota(rows, o) == None
    decreases |rows|
  {
    if |rows| > 0 {
      var front := rows[..|rows| - 1];
      forall i | 0 <= i < |front| && front[i].quota.Some?
        ensures front[i].roleid != Some(o)
      {
        assert front[i] == rows[i];
      }
      LastQuotaNone(front, o);
    }
  }

  /**
   * Quotas are not range-checked: a negative quota is stored as it is,
   * and the role is then never over quota.
   */
  lemma NegativeQuotaNeverExceeded(roles: RoleMap, db: Oid, rows: seq<ConfigRow>, o: Oid)
    requires LastQuota(rows, o).Some? && LastQuota(rows, o).value < 0
    ensures var r := ApplyRows(roles, db, rows);
            RoleKey(o, db) in r && r[RoleKey(o, db)].quota == LastQuota(rows, o).value
            && CheckQuota(Some(r), db, o)
  {
    ApplyRowsEffect(roles, db, rows, RoleKey(o, db));
  }

  /**
   * load_quotas: None stands for a missing configuration table, which
   * changes nothing; otherwise every row without a NULL column sets that
   * role's quota, in row order.
   */
  method LoadQuotas(m: Model, config: Option<seq<ConfigRow>>)
    modifies m.shared
    ensures m.shared.entries == match config
                                case None => old(m.shared.entries)
                                case Some(rows) => ApplyRows(old(m.shared.entries), m.myDatabaseId, rows)
    ensures m.Snapshot() == Loaded(old(m.Snapshot()), m.myDatabaseId, config)
    ensures old(m.Valid()) ==> m.Valid()
  {
    if config.None? {
      return;
    }
    var rows := config.value;
    var i := 0;
    while i < |rows|
      invariant 0 <= i <= |rows|
      invariant m.shared.entries == ApplyRows(old(m.shared.entries), m.myDatabaseId, rows[..i])
      invariant old(m.Valid()) ==> m.Valid()
    {
      var row := rows[i];
      assert rows[..i + 1][..i] == rows[..i];
      if row.roleid.Some? {
        if row.quota.Some? {
          m.UpdateQuota(row.roleid.value, row.quota.value);
        }
      }
      i := i + 1;
    }
    assert rows[..|rows|] == rows;
  }

  /* ----- The worker's main loop ----- */

  /** A step of the worker, as it shows in its trace. */
  datatype Step =
    | InitModel           // init_fs_model
    | SetLatch            // the latch set once before the loop
    | Wait(latchSet: bool) // WaitLatch, and whether the latch was already set
    | Reload              // ProcessConfigFile after a SIGHUP
    | Rescan              // refresh_fs_model
    | ResolveOrphans      // UpdateOrphans
    | ReadQuotas          // load_quotas
    | Exit                // proc_exit

  /**
   * When, within one pass of the loop, a signal arrives. Both handlers set
   * their flag and the latch; ResetLatch right after the wait clears a
   * latch set during the wait, but not one set later. The SIGHUP flag is
   * tested once, after ResetLatch.
   */
  datatype Phase =
    | DuringWait     // before ResetLatch
    | BeforeReload   // after ResetLatch, before the SIGHUP test
    | AfterReload    // after the SIGHUP test, before the loop test

  /**
   * What the environment does in one pass: when SIGHUPs and SIGTERMs
   * arrive, whether the postmaster dies during the wait, what the scan of
   * base/ finds, the catalog's answer for relation owners, and the rows of
   * the configuration table (None when it is missing).
   */
  datatype Cycle = Cycle(
    sighup: set<Phase>, sigterm: set<Phase>, postmasterDied: bool,
    base: seq<BaseEntry>, ownerOf: RelFileNode -> Oid, config: Option<seq<ConfigRow>>)

  /** The SIGHUP test fires: a SIGHUP was pending when the pass began, or came before the test. */
  predicate Reloads(c: Cycle, pendingSighup: bool) {
    pendingSighup || DuringWait in c.sighup || BeforeReload in c.sighup
  }

  /** A SIGHUP after the test stays pending for the next pass. */
  predicate SighupCarried(c: Cycle) {
    AfterReload in c.sighup
  }

  /** A signal after ResetLatch leaves the latch set for the next wait. */
  predicate LatchLeftSet(c: Cycle) {
    || BeforeReload in c.sighup || AfterReload in c.sighup
    || BeforeReload in c.sigterm || AfterReload in c.sigterm
  }

  /** The loop test after the pass finds got_sigterm set. */
  predicate Terminates(c: Cycle) {
    c.sigterm != {}
  }

  /** The steps of one pass; one in which the postmaster dies ends after the wait. */
  function IterationSteps(c: Cycle, latch: bool, pendingSighup: bool): seq<Step> {
    if c.postmasterDied then [Wait(latch), Exit]
    else [Wait(latch)] + (if Reloads(c, pendingSighup) then [Reload] else []) + [Rescan, ResolveOrphans, ReadQuotas]
  }

  /**
   * The steps of the loop over the cycles: a pass always runs to its end
   * unless the postmaster dies, and the loop ends at its test once a
   * SIGTERM has arrived. latch and pendingSighup are the latch and the
   * SIGHUP flag as the pass begins.
   */
  function LoopSteps(cycles: seq<Cycle>, latch: bool, pendingSighup: bool): seq<Step>
    decreases |cycles|
  {
    if |cycles| == 0 then []
    else
      var c := cycles[0];
      IterationSteps(c, latch, pendingSighup)
        + (if c.postmasterDied then []
           else if Terminates(c) then [Exit]
           else LoopSteps(cycles[1..], LatchLeftSet(c), SighupCarried(c)))
  }

  /**
   * The whole trace of the worker. startSighup and startSigterm stand for
   * signals that arrive once the handlers are installed and before the
   * first loop test; the latch is set then in any case.
   */
  function WorkerTrace(cycles: seq<Cycle>, startSighup: bool, startSigterm: bool): seq<Step> {
    [InitModel, SetLatch] + (if startSigterm then [Exit] else LoopSteps(cycles, true, startSighup))
  }

  /** The number of passes of the loop that run to their end. */
  function Completed(cycles: seq<Cycle>): (n: nat)
    ensures n <= |cycles|
    decreases |cycles|
  {
    if |cycles| == 0 || cycles[0].postmasterDied then 0
    else if Terminates(cycles[0]) then 1
    else 1 + Completed(cycles[1..])
  }

  /** The ledger after load_quotas: a missing table changes nothing, otherwise the rows are applied in order. */
  function Loaded(s: State, db: Oid, config: Option<seq<ConfigRow>>): State {
    match config
    case None => s
    case Some(rows) => s.(roles := ApplyRows(s.roles, db, rows))
  }

  /**
   * One full pass leads from s0 to s by way of s1, g being the generation
   * of its scan: s1 is a ledger the refresh can leave, and s is what owner
   * resolution along the orphan list of s1, then the quota load, make of it.
   */
  ghost predicate PassEffect(s0: State, g: nat, db: Oid, c: Cycle, s1: State, s: State) {
    && Refreshed(s0, ScanObservations(c.base), g, db, s1)
    && s == Loaded(ResolveOwners(s1, db, s1.orphans, c.ownerOf), db, c.config)
  }

  /** Every relation a name stands for in the scans is the one relOf gives. */
  ghost predicate NamesStable(cycles: seq<Cycle>, relOf: string -> RelFileNode) {
    forall k, i :: 0 <= k < |cycles| && 0 <= i < |ScanObservations(cycles[k].base)| ==>
      ScanObservations(cycles[k].base)[i].rnode == relOf(ScanObservations(cycles[k].base)[i].name)
  }

  /** Every file belongs to the relation its name stands for. */
  ghost predicate ParentsByName(files: FileMap, relOf: string -> RelFileNode) {
    forall n :: n in files ==> files[n].parent == relOf(n)
  }

  /** With names standing for fixed relations, a scan is consistent with the files. */
  lemma StableScanConsistent(files: FileMap, obs: seq<Observation>, relOf: string -> RelFileNode)
    requires ParentsByName(files, relOf)
    requires forall i :: 0 <= i < |obs| ==> obs[i].rnode == relOf(obs[i].name)
    ensures ScanConsistent(files, obs)
  {
  }

  /** Recording such a scan keeps files under the relations their names stand for. */
  lemma {:induction false} StableScanParents(files: FileMap, obs: seq<Observation>, g: nat, relOf: string -> RelFileNode)
    requires ParentsByName(files, relOf)
    requires forall i :: 0 <= i < |obs| ==> obs[i].rnode == relOf(obs[i].name)
    ensures ParentsByName(ApplyObservations(files, obs, g), relOf)
    decreases |obs|
  {
    if |obs| > 0 {
      var rest := obs[1..];
      forall i | 0 <= i < |rest|
        ensures rest[i].rnode == relOf(rest[i].name)
      {
        assert rest[i] == obs[i + 1];
      }
      StableScanParents(files[obs[0].name := Stamp(obs[0], g)], rest, g, relOf);
    }
  }

  /**
   * One pass of the loop body of pg_quota_worker_main: wait, leave if the
   * postmaster died, reload after a SIGHUP, rescan, resolve owners, load
   * quotas. latch and pendingSighup are the latch and the SIGHUP flag as
   * the pass begins. refreshed is the ledger as the refresh leaves it.
   */
  method Iteration(m: Model, c: Cycle, latch: bool, pendingSighup: bool, relOf: string -> RelFileNode)
      returns (steps: seq<Step>, exited: bool, ghost refreshed: State)
    requires m.Valid() && ParentsByName(m.files, relOf)
    requires forall i :: 0 <= i < |ScanObservations(c.base)| ==>
               ScanObservations(c.base)[i].rnode == relOf(ScanObservations(c.base)[i].name)
    modifies m, m.shared
    ensures steps == IterationSteps(c, latch, pendingSighup)
    ensures exited == c.postmasterDied
    ensures exited ==> m.Snapshot() == old(m.Snapshot()) && m.generation == old(m.generation)
    ensures !exited ==> (m.generation == old(m.generation) + 1
                         && PassEffect(old(m.Snapshot()), m.generation, m.myDatabaseId, c, refreshed, m.Snapshot()))
    ensures m.Valid() && ParentsByName(m.files, relOf)
  {
    steps := [Wait(latch)];
    if c.postmasterDied {
      steps := steps + [Exit];
      return steps, true, m.Snapshot();
    }
    if Reloads(c, pendingSighup) {
      steps := steps + [Reload];
    }
    ghost var head := steps;
    ghost var s0 := m.Snapshot();
    ghost var obs := ScanObservations(c.base);
    StableScanConsistent(m.files, obs, relOf);
    m.Refresh(c.base);
    StableScanParents(map[], obs, m.generation, relOf);
    ghost var s1 := m.Snapshot();
    assert Refreshed(s0, obs, m.generation, m.myDatabaseId, s1);
    m.UpdateOrphans(c.ownerOf);
    ResolveOwnersRels(s1, m.myDatabaseId, s1.orphans, c.ownerOf);
    ghost var s2 := m.Snapshot();
    assert s2 == ResolveOwners(s1, m.myDatabaseId, s1.orphans, c.ownerOf);
    LoadQuotas(m, c.config);
    steps := steps + [Rescan, ResolveOrphans, ReadQuotas];
    assert head == [Wait(latch)] + (if Reloads(c, pendingSighup) then [Reload] else []);
    exited := false;
    refreshed := s1;
  }

  /**
   * pg_quota_worker_main, driven by the cycles: initialise the model, set
   * the latch so that the first wait does not sleep, then run passes until
   * the loop test sees a SIGTERM (or the postmaster dies). The run also
   * ends, without an exit, when the cycles run out. relOf says which
   * relation each file name stands for. The ghost run is the ledger after
   * initialisation and after each completed pass, and mids[i] the ledger
   * as the refresh of pass i left it.
   */
  method WorkerMain(shared: QuotaShared, db: Oid, startSighup: bool, startSigterm: bool,
                    cycles: seq<Cycle>, relOf: string -> RelFileNode)
      returns (trace: seq<Step>, ghost run: seq<State>, ghost mids: seq<State>)
    requires NamesStable(cycles, relOf)
    modifies shared
    ensures trace == WorkerTrace(cycles, startSighup, startSigterm)
    ensures |run| == 1 + (if startSigterm then 0 else Completed(cycles))
    ensures run[0] == State(map[], map[], [], ForgetDatabase(old(shared.entries), db))
    ensures |mids| == |run| - 1
    ensures forall i :: 0 <= i < |run| - 1 ==> PassEffect(run[i], i + 1, db, cycles[i], mids[i], run[i + 1])
    ensures Consistent(run[|run| - 1], |run| - 1, db)
    ensures shared.entries == run[|run| - 1].roles
  {
    var m := new Model(shared, db);
    run := [m.Snapshot()];
    mids := [];
    trace := [InitModel, SetLatch];
    var latch := true;
    var gotSighup := startSighup;
    var gotSigterm := startSigterm;
    var i := 0;
    assert cycles[0..] == cycles;
    while !gotSigterm && i < |cycles|
      invariant 0 <= i <= |cycles|
      invariant m.shared == shared && m.myDatabaseId == db
      invariant m.Valid() && ParentsByName(m.files, relOf)
      invariant |run| == i + 1 && m.generation == i && run[i] == m.Snapshot()
      invariant run[0] == State(map[], map[], [], ForgetDatabase(old(shared.entries), db))
      invariant |mids| == i
      invariant forall j :: 0 <= j < i ==> PassAt(run, mids, db, cycles, j)
      invariant trace + (if gotSigterm then [Exit] else LoopSteps(cycles[i..], latch, gotSighup))
                == WorkerTrace(cycles, startSighup, startSigterm)
      invariant (if startSigterm then 0 else Completed(cycles))
                == i + (if gotSigterm then 0 else Completed(cycles[i..]))
      decreases |cycles| - i
    {
      var c := cycles[i];
      NamesStableAt(cycles, relOf, i);
      var steps, exited, refreshed := Iteration(m, c, latch, gotSighup, relOf);
      TraceStep(trace, cycles, i, latch, gotSighup, steps);
      CompletedAt(cycles, i);
      trace := trace + steps;
      if exited {
        RunPasses(run, mids, db, cycles);
        return;
      }
      ghost var after := m.Snapshot();
      RunExtends(run, mids, after, refreshed, db, cycles, i);
      run := run + [after];
      mids := mids + [refreshed];
      gotSigterm := Terminates(c);
      latch := LatchLeftSet(c);
      gotSighup := SighupCarried(c);
      i := i + 1;
    }
    RunPasses(run, mids, db, cycles);
    if gotSigterm {
      trace := trace + [Exit];
    } else {
      assert cycles[i..] == [];
      assert trace + [] == trace;
    }
  }

  /** What follows pass i of the loop: nothing if the postmaster died, the exit after a SIGTERM, else the next passes. */
  function LoopRest(cycles: seq<Cycle>, i: int): seq<Step>
    requires 0 <= i < |cycles|
  {
    var c := cycles[i];
    if c.postmasterDied then []
    else if Terminates(c) then [Exit]
    else LoopSteps(cycles[i + 1..], LatchLeftSet(c), SighupCarried(c))
  }

  /** Running pass i moves its steps from what is left of the trace to what is done. */
  lemma TraceStep(done: seq<Step>, cycles: seq<Cycle>, i: int, latch: bool, pendingSighup: bool, steps: seq<Step>)
    requires 0 <= i < |cycles| && steps == IterationSteps(cycles[i], latch, pendingSighup)
    ensures done + LoopSteps(cycles[i..], latch, pendingSighup) == (done + steps) + LoopRest(cycles, i)
  {
    LoopStepsAt(cycles, i, latch, pendingSighup);
    assert done + (steps + LoopRest(cycles, i)) == (done + steps) + LoopRest(cycles, i);
  }

  /** Pass j of the run: the ledger after it is the effect of cycle j on the ledger before it. */
  ghost predicate PassAt(run: seq<State>, mids: seq<State>, db: Oid, cycles: seq<Cycle>, j: int) {
    && 0 <= j && j + 1 < |run| && j < |mids| && j < |cycles|
    && PassEffect(run[j], j + 1, db, cycles[j], mids[j], run[j + 1])
  }

  /** Appending the ledgers of pass i keeps every recorded pass an effect of its cycle. */
  lemma RunExtends(run: seq<State>, mids: seq<State>, s: State, s1: State, db: Oid, cycles: seq<Cycle>, i: int)
    requires |run| == i + 1 && |mids| == i && 0 <= i < |cycles|
    requires forall j :: 0 <= j < i ==> PassAt(run, mids, db, cycles, j)
    requires PassEffect(run[i], i + 1, db, cycles[i], s1, s)
    ensures forall j :: 0 <= j < i + 1 ==> PassAt(run + [s], mids + [s1], db, cycles, j)
  {
    forall j | 0 <= j < i + 1
      ensures PassAt(run + [s], mids + [s1], db, cycles, j)
    {
      if j < i {
        PassAtAppend(run, mids, s, s1, db, cycles, j);
      } else {
        PassAtLast(run, mids, s, s1, db, cycles);
      }
    }
  }

  lemma PassAtAppend(run: seq<State>, mids: seq<State>, s: State, s1: State, db: Oid, cycles: seq<Cycle>, j: int)
    requires PassAt(run, mids, db, cycles, j)
    ensures PassAt(run + [s], mids + [s1], db, cycles, j)
  {
    assert (run + [s])[j] == run[j] && (run + [s])[j + 1] == run[j + 1] && (mids + [s1])[j] == mids[j];
  }

  lemma PassAtLast(run: seq<State>, mids: seq<State>, s: State, s1: State, db: Oid, cycles: seq<Cycle>)
    requires 0 < |run| <= |cycles| && |mids| == |run| - 1
    requires PassEffect(run[|run| - 1], |run|, db, cycles[|run| - 1], s1, s)
    ensures PassAt(run + [s], mids + [s1], db, cycles, |run| - 1)
  {
    assert (run + [s])[|run| - 1] == run[|run| - 1] && (run + [s])[|run|] == s && (mids + [s1])[|run| - 1] == s1;
  }

  /** Every pass of the run, in the terms of PassEffect. */
  lemma RunPasses(run: seq<State>, mids: seq<State>, db: Oid, cycles: seq<Cycle>)
    requires |run| <= |cycles| + 1 && |mids| == |run| - 1
    requires forall j :: 0 <= j < |run| - 1 ==> PassAt(run, mids, db, cycles, j)
    ensures forall j :: 0 <= j < |run| - 1 ==> PassEffect(run[j], j + 1, db, cycles[j], mids[j], run[j + 1])
  {
    forall j | 0 <= j < |run| - 1
      ensures PassEffect(run[j], j + 1, db, cycles[j], mids[j], run[j + 1])
    {
      assert PassAt(run, mids, db, cycles, j);
    }
  }

  /** The steps from cycle i on: cycle i's pass, then what follows it. */
  lemma LoopStepsAt(cycles: seq<Cycle>, i: int, latch: bool, pendingSighup: bool)
    requires 0 <= i < |cycles|
    ensures LoopSteps(cycles[i..], latch, pendingSighup) == IterationSteps(cycles[i], latch, pendingSighup) + LoopRest(cycles, i)
  {
    assert cycles[i..][0] == cycles[i] && cycles[i..][1..] == cycles[i + 1..];
  }

  /** The completed passes from cycle i on: none if the postmaster dies in it, one if it ends the loop. */
  lemma CompletedAt(cycles: seq<Cycle>, i: int)
    requires 0 <= i < |cycles|
    ensures Completed(cycles[i..])
         == if cycles[i].postmasterDied then 0 else if Terminates(cycles[i]) then 1 else 1 + Completed(cycles[i + 1..])
  {
    assert cycles[i..][0] == cycles[i] && cycles[i..][1..] == cycles[i + 1..];
  }

  lemma NamesStableAt(cycles: seq<Cycle>, relOf: string -> RelFileNode, k: int)
    requires NamesStable(cycles, relOf) && 0 <= k < |cycles|
    ensures forall i :: 0 <= i < |ScanObservations(cycles[k].base)| ==>
              ScanObservations(cycles[k].base)[i].rnode == relOf(ScanObservations(cycles[k].base)[i].name)
  {
  }

  /* ----- Properties of the trace ----- */

  /** The model is initialised and the latch set before the first wait, which therefore does not sleep. */
  lemma FirstWaitImmediate(cycles: seq<Cycle>, startSighup: bool)
    requires |cycles| > 0
    ensures WorkerTrace(cycles, startSighup, false)[..3] == [InitModel, SetLatch, Wait(true)]
  {
  }

  /** A SIGTERM before the first loop test ends the worker without a pass. */
  lemma SigtermBeforeLoop(cycles: seq<Cycle>, startSighup: bool)
    ensures WorkerTrace(cycles, startSighup, true) == [InitModel, SetLatch, Exit]
  {
  }

  /** When no signal ever arrives after ResetLatch, no later wait finds the latch set. */
  lemma {:induction false} QuietWaitsSleep(cycles: seq<Cycle>, pendingSighup: bool, i: int)
    requires forall k :: 0 <= k < |cycles| ==> !LatchLeftSet(cycles[k])
    requires 0 <= i < |LoopSteps(cycles, false, pendingSighup)|
    ensures LoopSteps(cycles, false, pendingSighup)[i] != Wait(true)
    decreases |cycles|
  {
    if |cycles| > 0 {
      var c := cycles[0];
      var head := IterationSteps(c, false, pendingSighup);
      if i >= |head| && !c.postmasterDied && !Terminates(c) {
        var rest := cycles[1..];
        forall k | 0 <= k < |rest|
          ensures !LatchLeftSet(rest[k])
        {
          assert rest[k] == cycles[k + 1];
        }
        QuietWaitsSleep(rest, SighupCarried(c), i - |head|);
      }
    }
  }

  /** A signal after ResetLatch, in a pass that does not end the loop, makes the next wait immediate. */
  lemma LateSignalWakes(cycles: seq<Cycle>, latch: bool, pendingSighup: bool)
    requires |cycles| >= 2 && !cycles[0].postmasterDied && !Terminates(cycles[0])
    requires LatchLeftSet(cycles[0])
    ensures var t, n := LoopSteps(cycles, latch, pendingSighup), |IterationSteps(cycles[0], latch, pendingSighup)|;
            n < |t| && t[n] == Wait(true)
  {
    var head := IterationSteps(cycles[0], latch, pendingSighup);
    var tail := LoopSteps(cycles[1..], true, SighupCarried(cycles[0]));
    assert LoopSteps(cycles, latch, pendingSighup) == head + tail;
    assert tail[0] == Wait(true);
  }

  /** A SIGHUP after the reload test is acted on at the top of the next pass. */
  lemma LateSighupReloadsNext(cycles: seq<Cycle>, latch: bool, pendingSighup: bool)
    requires |cycles| >= 2 && !cycles[0].postmasterDied && !Terminates(cycles[0])
    requires SighupCarried(cycles[0]) && !cycles[1].postmasterDied
    ensures var t, n := LoopSteps(cycles, latch, pendingSighup), |IterationSteps(cycles[0], latch, pendingSighup)|;
            n + 1 < |t| && t[n + 1] == Reload
  {
    var head := IterationSteps(cycles[0], latch, pendingSighup);
    var tail := LoopSteps(cycles[1..], LatchLeftSet(cycles[0]), true);
    assert LoopSteps(cycles, latch, pendingSighup) == head + tail;
    assert tail[1] == Reload;
  }

  lemma {:induction false} LoopStepsShape(cycles: seq<Cycle>, latch: bool, pendingSighup: bool, i: int)
    requires 0 <= i < |LoopSteps(cycles, latch, pendingSighup)|
    ensures var t := LoopSteps(cycles, latch, pendingSighup);
            && (t[i] == Rescan ==> i + 2 < |t| && t[i + 1] == ResolveOrphans && t[i + 2] == ReadQuotas)
            && (t[i] == Reload ==> i + 1 < |t| && t[i + 1] == Rescan && i > 0 && t[i - 1].Wait?)
            && (t[i] == Exit ==> i == |t| - 1)
    decreases |cycles|
  {
    var c := cycles[0];
    var head := IterationSteps(c, latch, pendingSighup);
    var t := LoopSteps(cycles, latch, pendingSighup);
    if !c.postmasterDied && !Terminates(c) {
      var tail := LoopSteps(cycles[1..], LatchLeftSet(c), SighupCarried(c));
      assert t == head + tail;
      if i >= |head| {
        LoopStepsShape(cycles[1..], LatchLeftSet(c), SighupCarried(c), i - |head|);
      }
    }
  }

  /**
   * In each pass the rescan comes first, then owner resolution, then the
   * quota load; a reload comes just after the wait and before the rescan,
   * never during it; the worker exits only at the very end.
   */
  lemma StepOrder(cycles: seq<Cycle>, startSighup: bool, startSigterm: bool, i: int)
    requires 0 <= i < |WorkerTrace(cycles, startSighup, startSigterm)|
    ensures var t := WorkerTrace(cycles, startSighup, startSigterm);
            && (t[i] == Rescan ==> i + 2 < |t| && t[i + 1] == ResolveOrphans && t[i + 2] == ReadQuotas)
            && (t[i] == Reload ==> i + 1 < |t| && t[i + 1] == Rescan && t[i - 1].Wait?)
            && (t[i] == Exit ==> i == |t| - 1)
  {
    if i >= 2 && !startSigterm {
      LoopStepsShape(cycles, true, startSighup, i - 2);
    }
  }

  /**
   * A SIGTERM that arrives during a pass does not cut it short: the
   * rescan, owner resolution and quota load still run before the exit.
   */
  lemma SigtermFinishesIteration(cycles: seq<Cycle>, startSighup: bool, k: int)
    requires 0 <= k < |cycles|
    requires forall j :: 0 <= j < k ==> !Terminates(cycles[j]) && !cycles[j].postmasterDied
    requires Terminates(cycles[k]) && !cycles[k].postmasterDied
    ensures var t := WorkerTrace(cycles, startSighup, false);
            |t| >= 4 && t[|t| - 4..] == [Rescan, ResolveOrphans, ReadQuotas, Exit]
  {
    SigtermTail(cycles, true, startSighup, k);
  }

  lemma {:induction false} SigtermTail(cycles: seq<Cycle>, latch: bool, pendingSighup: bool, k: int)
    requires 0 <= k < |cycles|
    requires forall j :: 0 <= j < k ==> !Terminates(cycles[j]) && !cycles[j].postmasterDied
    requires Terminates(cycles[k]) && !cycles[k].postmasterDied
    ensures var t := LoopSteps(cycles, latch, pendingSighup);
            |t| >= 4 && t[|t| - 4..] == [Rescan, ResolveOrphans, ReadQuotas, Exit]
    decreases k
  {
    var c := cycles[0];
    if k > 0 {
      var rest := cycles[1..];
      forall j | 0 <= j < k - 1
        ensures !Terminates(rest[j]) && !rest[j].postmasterDied
      {
        assert rest[j] == cycles[j + 1];
      }
      SigtermTail(rest, LatchLeftSet(c), SighupCarried(c), k - 1);
    }
  }
}
