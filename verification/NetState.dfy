/**
 * The one network transaction, and what each stretch of network_manager.c that runs under its
 * lock does to it. Requests are one such stretch; the worker's process() is a chain of them with
 * a hardware push or a store write in between.
 */
module NetState {
  import opened Bytes
  import opened Options
  import DC = DeviceConfig
  import Jobs

  // CONFIG_NETWORK_MANAGER_*, in seconds: any values of the ranges the build allows. Nothing keeps the
  // default of a confirmation timeout between its two limits.
  type CandidateTtl = x: nat | 30 <= x <= 3600 witness 300
  type ConfirmDefault = x: nat | 30 <= x <= 900 witness 120
  type ConfirmMin = x: nat | 10 <= x <= 300 witness 60
  type ConfirmMax = x: nat | 60 <= x <= 3600 witness 300

  const CANDIDATE_TTL: CandidateTtl
  const CONFIRM_DEFAULT: ConfirmDefault
  const CONFIRM_MIN: ConfirmMin
  const CONFIRM_MAX: ConfirmMax

  const NETWORK_APPLY: nat := 2
  const NETWORK_DISCARD: nat := 3

  datatype State = Staged | Applying | Awaiting | Committed | RollingBack | RolledBack | Failed | Expired

  predicate Terminal(s: State) { s.Committed? || s.RolledBack? || s.Failed? || s.Expired? }

  /** change_in_progress_locked() */
  predicate Moving(s: State) { s.Applying? || s.Awaiting? || s.RollingBack? }

  datatype Reason = Requested | TimedOut | ApplyFailed | CommitFailed

  datatype Error = ResourceExpired | StaleRevision | InternalError

  /** struct transaction; `deadline` is 0 when none runs. The text of its id is Id(serial). */
  datatype Txn = Txn(
    serial: nat, state: State, base: nat, candidate: DC.Config, credential: DC.SecretUpdate,
    job: Option<nat>, deadline: int, error: Option<Error>,
    pushed: bool, commitRequested: bool, reason: Reason, claimed: bool)

  /** Where the worker stands in process(), and what it carries from one section to the next. */
  datatype Pc =
    | Idle | AtPush | AtApply | Pushing(serial: nat) | AtCommit | Committing(serial: nat)
    | CommitDone(serial: nat, ok: bool) | AtRollback | Restoring(serial: nat) | RollbackDone(serial: nat)

  /**
   * The manager's own variables, then its neighbours': the store's copies in RAM, the job table,
   * the coprocessor claims for an apply that are held, the clock. `hardware` is the configuration
   * last handed to push_config(), `landed` what every candidate that reached the committed
   * generation was.
   */
  datatype Net = Net(
    txn: Option<Txn>, counter: nat, pushCommitted: bool,
    ram: DC.Ram, jobs: Jobs.Table, held: int, now: int,
    hardware: DC.Config, landed: map<nat, DC.Config>, pc: Pc)

  /** The answer to a request. */
  datatype Reply =
    | Done | Accepted(job: nat) | Busy | Stale | Internal | Invalid | NotFound | WrongState
    | Unhealthy | Claimed | RateLimited | KeyConflict

  // ---- The store, as one call sees it -------------------------------------------------------

  function HexDigit(d: nat): Byte
    requires d < 16
  {
    if d < 10 then 48 + d else 87 + d
  }

  function Hex(n: nat, digits: nat): seq<Byte> {
    if digits == 0 then [] else Hex(n / 16, digits - 1) + [HexDigit(n % 16)]
  }

  /** "txn_%08x" */
  function Id(serial: nat): seq<Byte> { [116, 120, 110, 95] + Hex(serial, 8) }

  /** "restore_defaults" */
  const RESTORE_ID: seq<Byte> := [114, 101, 115, 116, 111, 114, 101, 95, 100, 101, 102, 97, 117, 108, 116, 115]

  function StoreBegin(ram: DC.Ram, u: DC.Update, base: nat, txn: seq<Byte>, written: bool): (DC.Ram, DC.Rc) {
    var refusal := DC.BeginRefusal(ram, u, base, txn);
    if refusal != DC.Ok then (ram, refusal)
    else if written then (ram.(pending := Some(DC.Proposed(ram.committed, u, txn))), DC.Ok)
    else (ram, DC.IoError)
  }

  function StoreCommit(ram: DC.Ram, txn: seq<Byte>, written: bool): (DC.Ram, DC.Rc) {
    if ram.pending.None? then (ram, DC.NotFound)
    else if !DC.SameTxn(ram.pending.value.txn, txn) then (ram, DC.Invalid)
    else if written then (DC.Ram(ram.pending.value, None), DC.Ok)
    else (ram, DC.IoError)
  }

  function StoreRollback(ram: DC.Ram, txn: seq<Byte>, erased: bool): (DC.Ram, DC.Rc) {
    if ram.pending.None? then (ram, DC.NotFound)
    else if !DC.SameTxn(ram.pending.value.txn, txn) then (ram, DC.Invalid)
    else if erased then (ram.(pending := None), DC.Ok)
    else (ram, DC.IoError)
  }

  /** Short of a power cut, which ends this run, that is what the store on its flash does. */
  lemma TheStoreDoesThat(d: DC.Device, u: DC.Update, base: nat, txn: seq<Byte>, write: DC.Io, erase: DC.Io)
    requires d.On? && !write.powerLost && !erase.powerLost
    ensures var (d', rc) := DC.Begin(d, u, base, txn, write, erase);
            var written := write.ok && write.left == DC.Holds(DC.Proposed(d.ram.committed, u, txn));
            d'.On? && (d'.ram, rc) == StoreBegin(d.ram, u, base, txn, written)
    ensures var (d', rc) := DC.Commit(d, txn, write, erase);
            var written := write.ok && d.ram.pending.Some? && write.left == DC.Holds(d.ram.pending.value);
            d'.On? && (d'.ram, rc) == StoreCommit(d.ram, txn, written)
    ensures var (d', rc) := DC.Rollback(d, txn, erase);
            d'.On? && (d'.ram, rc) == StoreRollback(d.ram, txn, erase.ok)
  {
  }

  // ---- The helpers --------------------------------------------------------------------------

  /** fail_job(); of the three codes only an internal error is worth a retry. */
  function FailJob(jobs: Jobs.Table, id: nat, code: Error, now: int): Jobs.Table {
    Jobs.Fail(jobs, id, code.InternalError?, now).0
  }

  /** The job a transaction names; 0, which no job has, for none. */
  function JobOf(t: Txn): nat { if t.job.Some? then t.job.value else 0 }

  /** finish() */
  function Finish(n: Net, state: State, error: Option<Error>): Net
    requires n.txn.Some?
  {
    var t := n.txn.value;
    n.(held := if t.claimed then n.held - 1 else n.held,
       txn := Some(t.(claimed := false, state := state, deadline := 0, commitRequested := false,
                      error := error, credential := DC.Keep)))
  }

  /** begin_rollback_locked() */
  function BeginRollback(n: Net, reason: Reason): Net
    requires n.txn.Some?
  {
    var t := n.txn.value;
    n.(jobs := if t.job.Some? then Jobs.SetState(n.jobs, t.job.value, Jobs.Running, n.now).0 else n.jobs,
       txn := Some(t.(state := RollingBack, deadline := 0, reason := reason,
                      error := if reason.TimedOut? then Some(ResourceExpired) else t.error)))
  }

  /** expire_locked() */
  function Expire(n: Net): Net {
    if n.txn.None? || n.txn.value.deadline <= 0 || n.now < n.txn.value.deadline then n
    else
      match n.txn.value.state
      case Staged => Finish(n, Expired, Some(ResourceExpired))
      case Applying => if n.txn.value.commitRequested then n else BeginRollback(n, TimedOut)
      case Awaiting => if n.txn.value.commitRequested then n else BeginRollback(n, TimedOut)
      case _ => n
  }

  predicate Matches(n: Net, serial: nat) { n.txn.Some? && n.txn.value.serial == serial }

  predicate InFlight(n: Net) { n.txn.Some? && !Terminal(n.txn.value.state) }

  predicate Is(n: Net, s: State) { n.txn.Some? && n.txn.value.state == s }

  // ---- The requests -------------------------------------------------------------------------

  /** What staging keeps of a new password. */
  function Truncated(u: DC.SecretUpdate): DC.SecretUpdate {
    if u.Replace? && |u.value| > DC.SECRET_MAX then DC.Replace(u.value[..DC.SECRET_MAX]) else u
  }

  /** network_stage_config(); `valid` is the verdict of the validation. */
  function Stage(n0: Net, rest: seq<Byte>, password: DC.SecretUpdate, base: nat, statusOk: bool, valid: bool): (Net,
      Reply) {
    var n := Expire(n0);
    var committed := n.ram.committed;
    if InFlight(n) then (n, Busy)
    else if base != committed.revision then (n, Stale)
    else if !statusOk then (n, Internal)
    else if !valid then (n, Invalid)
    else
      var wifiSet := password.Replace? || (password.Keep? && committed.config.wifiPasswordSet);
      var candidate := DC.Config(rest, wifiSet, committed.config.adminPasswordSet);
      var t := Txn(n.counter + 1, Staged, base, candidate, Truncated(password), None, n.now + CANDIDATE_TTL * 1000,
                   None, false, false, Requested, false);
      (n.(txn := Some(t), counter := n.counter + 1), Done)
  }

  function Timeout(asked: nat): nat { if asked == 0 then CONFIRM_DEFAULT else asked }

  /** The journal is written before anything else happens; without it the transaction fails. */
  function Journalled(n: Net, job: nat, timeout: nat, written: bool): (Net, Reply)
    requires n.txn.Some?
  {
    var t := n.txn.value;
    var (ram, rc) := StoreBegin(n.ram, DC.Update(t.candidate, t.credential, DC.Keep), t.base, Id(t.serial), written);
    var m := n.(held := n.held + 1, ram := ram);
    if rc == DC.Ok then
      (m.(jobs := Jobs.SetState(n.jobs, job, Jobs.Running, n.now).0,
          txn := Some(t.(claimed := true, job := Some(job), state := Applying, deadline := n.now + timeout * 1000))),
       Accepted(job))
    else
      var code := if rc == DC.StaleRevision then StaleRevision else InternalError;
      (Finish(m.(jobs := FailJob(n.jobs, job, code, n.now), txn := Some(t.(claimed := true, job := Some(job)))),
              Failed, Some(code)),
       if code.StaleRevision? then Stale else Internal)
  }

  /** The part of network_apply() that comes after the claim was granted; without a new job it is given back. */
  function Granted(n: Net, timeout: nat, key: string, hash: nat, written: bool, cutoff: int): (Net, Reply)
    requires n.txn.Some?
  {
    var (jobs, created) := Jobs.Create(n.jobs, Jobs.Params(NETWORK_APPLY, false, key, hash), n.now, cutoff);
    var m := n.(jobs := jobs);
    match created
    case Old(job) => (m, Accepted(job))
    case KeyConflict => (m, KeyConflict)
    case Exhausted => (m, RateLimited)
    case New(job) => Journalled(m, job, timeout, written)
  }

  /** network_apply(); `granted` is the coprocessor manager's answer to the claim. */
  function Apply(n0: Net, id: nat, asked: nat, key: string, hash: nat, granted: bool, written: bool,
      cutoff: int): (Net, Reply) {
    var (jobs, seen) := Jobs.FindByKey(n0.jobs, key, hash, cutoff);
    match seen
    case Existing(job) => (n0.(jobs := jobs), Accepted(job))
    case Conflict => (n0.(jobs := jobs), KeyConflict)
    case Nothing =>
      var n := Expire(n0.(jobs := jobs));
      if !Matches(n, id) then (n, NotFound)
      else if n.txn.value.state != Staged then (n, WrongState)
      else if !(CONFIRM_MIN <= Timeout(asked) <= CONFIRM_MAX) then (n, Invalid)
      else if !granted then (n, Claimed)
      else Granted(n, Timeout(asked), key, hash, written, cutoff)
  }

  /** network_confirm() */
  function Confirm(n0: Net, id: nat, statusOk: bool, healthy: bool): (Net, Reply) {
    var n := Expire(n0);
    if !Matches(n, id) then (n, NotFound)
    else
      var t := n.txn.value;
      if t.state.Awaiting? && t.commitRequested then (n, Accepted(JobOf(t)))
      else if !t.state.Awaiting? then (n, WrongState)
      else if !statusOk then (n, Internal)
      else if !healthy then (n, Unhealthy)
      else (n.(txn := Some(t.(commitRequested := true)),
               jobs := Jobs.SetState(n.jobs, JobOf(t), Jobs.Running, n.now).0),
            Accepted(JobOf(t)))
  }

  /** The discarding of a candidate that was never applied. */
  function Discard(n: Net, key: string, hash: nat, cutoff: int): (Net, Reply)
    requires n.txn.Some?
  {
    var (jobs, created) := Jobs.Create(n.jobs, Jobs.Params(NETWORK_DISCARD, false, key, hash), n.now, cutoff);
    if !created.New? then (n.(jobs := jobs), RateLimited)
    else
      var running := Jobs.SetState(jobs, created.id, Jobs.Running, n.now).0;
      var done := Jobs.SetState(running, created.id, Jobs.Succeeded, n.now).0;
      (Finish(n.(jobs := done, txn := Some(n.txn.value.(job := Some(created.id)))), RolledBack, None),
          Accepted(created.id))
  }

  /** network_rollback() */
  function Rollback(n0: Net, id: nat, key: string, hash: nat, cutoff: int): (Net, Reply) {
    var (jobs, seen) := Jobs.FindByKey(n0.jobs, key, hash, cutoff);
    match seen
    case Existing(job) => (n0.(jobs := jobs), Accepted(job))
    case Conflict => (n0.(jobs := jobs), KeyConflict)
    case Nothing =>
      var n := Expire(n0.(jobs := jobs));
      if !Matches(n, id) then (n, NotFound)
      else
        var t := n.txn.value;
        if t.state.Staged? then Discard(n, key, hash, cutoff)
        else if t.state.Applying? || t.state.Awaiting? then
          if t.commitRequested then (n, WrongState)
          else (BeginRollback(n, Requested), Accepted(JobOf(t)))
        else (n, WrongState)
  }

  /** network_manager_restore_defaults(); `rest` is the factory configuration with the profile kept. */
  function Restore(n: Net, rest: seq<Byte>, begun: bool, written: bool): (Net, Reply) {
    if InFlight(n) then (n, Busy)
    else
      var u := DC.Update(DC.Config(rest, false, false), DC.Clear, DC.Keep);
      var (ram, rc) := StoreBegin(n.ram, u, n.ram.committed.revision, RESTORE_ID, begun);
      if rc != DC.Ok then (n.(ram := ram), Internal)
      else
        var (ram', rc') := StoreCommit(ram, RESTORE_ID, written);
        if rc' != DC.Ok then (n.(ram := ram'), Internal)
        else (n.(ram := ram', pushCommitted := true), Done)
  }

  // ---- The worker ---------------------------------------------------------------------------

  /** process_committed_push(): the section, and the handing over that follows it. */
  function CommittedPush(n: Net): Net {
    if !n.pushCommitted then n.(pc := AtApply)
    else n.(pushCommitted := false, hardware := n.ram.committed.config, pc := AtApply)
  }

  /** The first section of process_apply(). */
  function ApplyBegin(n: Net): Net {
    if !Is(n, Applying) || n.txn.value.pushed then n.(pc := AtCommit)
    else
      var t := n.txn.value;
      n.(txn := Some(t.(pushed := true)), hardware := t.candidate, pc := Pushing(t.serial))
  }

  /** The second, once the push came back. */
  function ApplyEnd(n: Net, serial: nat, ok: bool): Net {
    var m := n.(pc := AtCommit);
    if !Matches(m, serial) || !Is(m, Applying) then m
    else if !ok then BeginRollback(m, ApplyFailed)
    else
      m.(txn := Some(m.txn.value.(state := Awaiting)),
         jobs := Jobs.SetState(m.jobs, JobOf(m.txn.value), Jobs.WaitingConfirmation, m.now).0)
  }

  /** The first section of process_commit(). */
  function CommitBegin(n: Net): Net {
    if !Is(n, Awaiting) || !n.txn.value.commitRequested then n.(pc := AtRollback)
    else n.(pc := Committing(n.txn.value.serial))
  }

  /** The store's commit, without the lock. */
  function CommitStore(n: Net, serial: nat, written: bool): Net {
    var (ram, rc) := StoreCommit(n.ram, Id(serial), written);
    n.(ram := ram, pc := CommitDone(serial, rc == DC.Ok),
       landed := if rc == DC.Ok then n.landed[serial := ram.committed.config] else n.landed)
  }

  /** The second section. */
  function CommitEnd(n: Net, serial: nat, ok: bool): Net {
    var m := n.(pc := AtRollback);
    if !Matches(m, serial) || !Is(m, Awaiting) then m
    else if ok then
      Finish(m.(jobs := Jobs.SetState(m.jobs, JobOf(m.txn.value), Jobs.Succeeded, m.now).0,
                txn := Some(m.txn.value.(pushed := false))),
             Committed, None)
    else BeginRollback(m.(txn := Some(m.txn.value.(commitRequested := false))), CommitFailed)
  }

  /** The first section of process_rollback(), and the handing over that follows it. */
  function RollbackBegin(n: Net): Net {
    if !Is(n, RollingBack) then n.(pc := Idle)
    else n.(hardware := if n.txn.value.pushed then n.ram.committed.config else n.hardware,
            pc := Restoring(n.txn.value.serial))
  }

  function RollbackStore(n: Net, serial: nat, erased: bool): Net {
    n.(ram := StoreRollback(n.ram, Id(serial), erased).0, pc := RollbackDone(serial))
  }

  /** The second section. */
  function RollbackEnd(n: Net, serial: nat): Net {
    var m := n.(pc := Idle);
    if !Matches(m, serial) || !Is(m, RollingBack) then m
    else
      var job := JobOf(m.txn.value);
      var k := m.(txn := Some(m.txn.value.(pushed := false)));
      match m.txn.value.reason
      case Requested => Finish(k.(jobs := Jobs.SetState(m.jobs, job, Jobs.Succeeded, m.now).0), RolledBack, None)
      case TimedOut => Finish(k.(jobs := FailJob(m.jobs, job, ResourceExpired, m.now)), RolledBack,
          Some(ResourceExpired))
      case _ => Finish(k.(jobs := FailJob(m.jobs, job, InternalError, m.now)), Failed, Some(InternalError))
  }

  /** The worker's next move; `ok` is how the hardware or the store answers it. */
  function Work(n: Net, ok: bool): Net {
    match n.pc
    case Idle => Expire(n).(pc := AtPush)
    case AtPush => CommittedPush(n)
    case AtApply => ApplyBegin(n)
    case Pushing(s) => ApplyEnd(n, s, ok)
    case AtCommit => CommitBegin(n)
    case Committing(s) => CommitStore(n, s, ok)
    case CommitDone(s, done) => CommitEnd(n, s, done)
    case AtRollback => RollbackBegin(n)
    case Restoring(s) => RollbackStore(n, s, ok)
    case RollbackDone(s) => RollbackEnd(n, s)
  }

  // ---- Runs ---------------------------------------------------------------------------------

  datatype Step =
    | StageR(rest: seq<Byte>, password: DC.SecretUpdate, base: nat, statusOk: bool, valid: bool)
    | ApplyR(id: nat, asked: nat, key: string, hash: nat, granted: bool, written: bool, cutoff: int)
    | ConfirmR(id: nat, statusOk: bool, healthy: bool)
    | RollbackR(id: nat, key: string, hash: nat, cutoff: int)
    | GetR
    | RestoreR(rest: seq<Byte>, begun: bool, written: bool)
    | BootR
    | Tick(ms: nat)
    | OtherJob(call: Jobs.Call)
    | Worker(ok: bool)

  function Next(n: Net, s: Step): Net {
    match s
    case StageR(rest, password, base, statusOk, valid) => Stage(n, rest, password, base, statusOk, valid).0
    case ApplyR(id, asked, key, hash, granted, written, cutoff) => Apply(n, id, asked, key, hash, granted, written,
        cutoff).0
    case ConfirmR(id, statusOk, healthy) => Confirm(n, id, statusOk, healthy).0
    case RollbackR(id, key, hash, cutoff) => Rollback(n, id, key, hash, cutoff).0
    case GetR => Expire(n)
    case RestoreR(rest, begun, written) => Restore(n, rest, begun, written).0
    case BootR => n.(pushCommitted := true)
    case Tick(ms) => n.(now := n.now + ms)
    case OtherJob(call) => n.(jobs := Jobs.Apply(n.jobs, call, n.now))
    case Worker(ok) => Work(n, ok)
  }

  /** Other threads create jobs and cancel any; they move no job but their own. */
  predicate Allowed(n: Net, s: Step) {
    s.OtherJob? && n.txn.Some? && n.txn.value.job.Some? ==> Jobs.LeavesToOwner(s.call, n.txn.value.job.value)
  }

  function Run(n: Net, run: seq<Step>): Net
    decreases |run|
  {
    if run == [] then n else Run(Next(n, run[0]), run[1..])
  }

  predicate AllowedRun(n: Net, run: seq<Step>)
    decreases |run|
  {
    run == [] || (Allowed(n, run[0]) && AllowedRun(Next(n, run[0]), run[1..]))
  }
}
