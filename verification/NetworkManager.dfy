/** network_manager.c: its variables, and the stretches of code that hold its lock. */
module NetworkManager {
  import opened Bytes
  import opened Options
  import opened NetState
  import opened NetTransaction
  import DC = DeviceConfig
  import Jobs

  class Manager {
    var txn: Option<Txn>
    var idCounter: nat
    var pushCommitted: bool
    // The store, the job table, the claims held, the clock and the interfaces.
    var ram: DC.Ram
    var jobs: Jobs.Table
    var held: int
    var now: int
    var hardware: DC.Config
    // The worker's program counter and locals; what was ever committed.
    var pc: Pc
    ghost var landed: map<nat, DC.Config>

    ghost function View(): Net
      reads this
    {
      Net(txn, idCounter, pushCommitted, ram, jobs, held, now, hardware, landed, pc)
    }

    constructor (ram: DC.Ram, jobs: Jobs.Table, now: int, hardware: DC.Config)
      ensures View() == Net(None, 0, false, ram, jobs, 0, now, hardware, map[], Idle)
    {
      this.txn, this.idCounter, this.pushCommitted, this.pc := None, 0, false, Idle;
      this.ram, this.jobs, this.held, this.now, this.hardware, this.landed := ram, jobs, 0, now, hardware, map[];
    }

    /** release_locked() */
    method Release()
      requires txn.Some?
      modifies `txn, `held
      ensures held == if old(txn).value.claimed then old(held) - 1 else old(held)
      ensures txn == Some(old(txn).value.(claimed := false))
    {
      if !txn.value.claimed {
        return;
      }
      txn := Some(txn.value.(claimed := false));
      held := held - 1;
    }

    method End(state: State, error: Option<Error>)
      requires txn.Some?
      modifies `txn, `held
      ensures View() == Finish(old(View()), state, error)
    {
      Release();
      txn := Some(txn.value.(state := state, deadline := 0, commitRequested := false, error := error));
      txn := Some(txn.value.(credential := DC.Keep));
    }

    method BeginRollback(reason: Reason)
      requires txn.Some?
      modifies `txn, `jobs
      ensures View() == NetState.BeginRollback(old(View()), reason)
    {
      txn := Some(txn.value.(state := RollingBack, deadline := 0, reason := reason));
      if reason == TimedOut {
        txn := Some(txn.value.(error := Some(ResourceExpired)));
      }
      if txn.value.job.Some? {
        jobs := Jobs.SetState(jobs, txn.value.job.value, Jobs.Running, now).0;
      }
    }

    /** expire_locked() */
    method Expire() returns (steps: nat)
      modifies `txn, `jobs, `held
      ensures View() == NetState.Expire(old(View()))
      ensures steps == if View() == old(View()) then 0 else 1
    {
      if txn.None? || txn.value.deadline <= 0 || now < txn.value.deadline {
        return 0;
      }
      match txn.value.state
      case Staged =>
        End(Expired, Some(ResourceExpired));
        return 1;
      case Applying | Awaiting =>
        if txn.value.commitRequested {
          return 0;
        }
        BeginRollback(TimedOut);
        return 1;
      case _ =>
        return 0;
    }

    /** network_stage_config() */
    method StageConfig(rest: seq<Byte>, password: DC.SecretUpdate, base: nat, statusOk: bool, valid: bool)
      returns (r: Reply)
      modifies this
      ensures (View(), r) == Stage(old(View()), rest, password, base, statusOk, valid)
    {
      var _ := Expire();
      if txn.Some? && !Terminal(txn.value.state) {
        return Busy;
      }
      if base != ram.committed.revision {
        return Stale;
      }
      if !statusOk {
        return Internal;
      }
      if !valid {
        return Invalid;
      }
      var wifiSet := match password
        case Replace(_) => true
        case Keep => ram.committed.config.wifiPasswordSet
        case Clear => false;
      idCounter := idCounter + 1;
      txn := Some(Txn(idCounter, Staged, base, DC.Config(rest, wifiSet, ram.committed.config.adminPasswordSet),
                      Truncated(password), None, 0, None, false, false, Requested, false));
      txn := Some(txn.value.(deadline := now + CANDIDATE_TTL * 1000));
      return Done;
    }

    /** network_apply() */
    method ApplyTransaction(id: nat, asked: nat, key: string, hash: nat, granted: bool, written: bool, cutoff: int)
      returns (r: Reply)
      requires ClaimOk(View())
      modifies this
      ensures (View(), r) == Apply(old(View()), id, asked, key, hash, granted, written, cutoff)
    {
      hide Jobs.FindByKey, Jobs.Create, Jobs.SetState, Jobs.Fail, StoreBegin, Id;
      var seen;
      jobs, seen := Jobs.FindByKey(jobs, key, hash, cutoff).0, Jobs.FindByKey(jobs, key, hash, cutoff).1;
      match seen {
        case Existing(job) => return Accepted(job);
        case Conflict => return KeyConflict;
        case Nothing =>
      }
      var _ := Expire();
      if txn.None? || txn.value.serial != id {
        return NotFound;
      }
      if txn.value.state != Staged {
        return WrongState;
      }
      var timeout := if asked == 0 then CONFIRM_DEFAULT else asked;
      if timeout < CONFIRM_MIN || timeout > CONFIRM_MAX {
        return Invalid;
      }
      if !granted {
        return Claimed;
      }
      r := ApplyGranted(timeout, key, hash, written, cutoff);
    }

    /** ... once its claim was granted. */
    method ApplyGranted(timeout: nat, key: string, hash: nat, written: bool, cutoff: int) returns (r: Reply)
      requires txn.Some? && !txn.value.claimed
      modifies this
      ensures (View(), r) == Granted(old(View()), timeout, key, hash, written, cutoff)
    {
      hide Jobs.Create, Jobs.SetState, Jobs.Fail, StoreBegin, Id;
      var before := txn;
      txn := Some(txn.value.(claimed := true));
      held := held + 1;
      var params := Jobs.Params(NETWORK_APPLY, false, key, hash);
      var created;
      jobs, created := Jobs.Create(jobs, params, now, cutoff).0, Jobs.Create(jobs, params, now, cutoff).1;
      match created {
        case Old(job) =>
          Release();
          return Accepted(job);
        case KeyConflict =>
          Release();
          return KeyConflict;
        case Exhausted =>
          Release();
          return RateLimited;
        case New(_) =>
      }
      var job := created.id;
      var update := DC.Update(txn.value.candidate, txn.value.credential, DC.Keep);
      var rc;
      ram, rc := StoreBegin(ram, update, txn.value.base, Id(txn.value.serial), written).0,
                 StoreBegin(ram, update, txn.value.base, Id(txn.value.serial), written).1;
      if rc != DC.Ok {
        var code := if rc == DC.StaleRevision then StaleRevision else InternalError;
        jobs := FailJob(jobs, job, code, now);
        txn := Some(txn.value.(job := Some(job)));
        End(Failed, Some(code));
        return if rc == DC.StaleRevision then Stale else Internal;
      }
      jobs := Jobs.SetState(jobs, job, Jobs.Running, now).0;
      txn := Some(txn.value.(job := Some(job), state := Applying));
      txn := Some(txn.value.(deadline := now + timeout * 1000));
      return Accepted(job);
    }

    /** network_confirm() */
    method ConfirmTransaction(id: nat, statusOk: bool, healthy: bool) returns (r: Reply)
      modifies this
      ensures (View(), r) == Confirm(old(View()), id, statusOk, healthy)
    {
      var _ := Expire();
      if txn.None? || txn.value.serial != id {
        return NotFound;
      }
      if txn.value.state == Awaiting && txn.value.commitRequested {
        return Accepted(JobOf(txn.value));
      }
      if txn.value.state != Awaiting {
        return WrongState;
      }
      if !statusOk {
        return Internal;
      }
      if !healthy {
        return Unhealthy;
      }
      txn := Some(txn.value.(commitRequested := true));
      jobs := Jobs.SetState(jobs, JobOf(txn.value), Jobs.Running, now).0;
      return Accepted(JobOf(txn.value));
    }

    /** network_rollback() */
    method RollbackTransaction(id: nat, key: string, hash: nat, cutoff: int) returns (r: Reply)
      modifies this
      ensures (View(), r) == Rollback(old(View()), id, key, hash, cutoff)
    {
      hide Jobs.FindByKey, Jobs.Create, Jobs.SetState, Jobs.Fail, NetState.Expire;
      var seen;
      jobs, seen := Jobs.FindByKey(jobs, key, hash, cutoff).0, Jobs.FindByKey(jobs, key, hash, cutoff).1;
      match seen {
        case Existing(job) => return Accepted(job);
        case Conflict => return KeyConflict;
        case Nothing =>
      }
      var _ := Expire();
      if txn.None? || txn.value.serial != id {
        return NotFound;
      }
      match txn.value.state
      case Staged =>
        var params := Jobs.Params(NETWORK_DISCARD, false, key, hash);
        var created;
        jobs, created := Jobs.Create(jobs, params, now, cutoff).0, Jobs.Create(jobs, params, now, cutoff).1;
        if !created.New? {
          return RateLimited;
        }
        jobs := Jobs.SetState(jobs, created.id, Jobs.Running, now).0;
        jobs := Jobs.SetState(jobs, created.id, Jobs.Succeeded, now).0;
        txn := Some(txn.value.(job := Some(created.id)));
        End(RolledBack, None);
        return Accepted(created.id);
      case Applying | Awaiting =>
        if txn.value.commitRequested {
          return WrongState;
        }
        BeginRollback(Requested);
        return Accepted(JobOf(txn.value));
      case _ =>
        return WrongState;
    }

    /** network_manager_restore_defaults() */
    method RestoreDefaults(rest: seq<Byte>, begun: bool, written: bool) returns (r: Reply)
      modifies this
      ensures (View(), r) == Restore(old(View()), rest, begun, written)
    {
      if txn.Some? && !Terminal(txn.value.state) {
        return Busy;
      }
      var u := DC.Update(DC.Config(rest, false, false), DC.Clear, DC.Keep);
      var rc;
      ram, rc := StoreBegin(ram, u, ram.committed.revision, RESTORE_ID, begun).0,
                 StoreBegin(ram, u, ram.committed.revision, RESTORE_ID, begun).1;
      if rc == DC.Ok {
        ram, rc := StoreCommit(ram, RESTORE_ID, written).0, StoreCommit(ram, RESTORE_ID, written).1;
      }
      if rc == DC.Ok {
        pushCommitted := true;
        return Done;
      }
      return Internal;
    }

    /** network_manager_boot() */
    method Boot()
      modifies `pushCommitted
      ensures View() == Next(old(View()), BootR)
    {
      pushCommitted := true;
    }

    // ---- One call of process(), from lock to lock -------------------------------------------

    method ProcessExpire()
      requires pc.Idle?
      modifies this
      ensures View() == Work(old(View()), true)
    {
      var _ := Expire();
      pc := AtPush;
    }

    method ProcessCommittedPush()
      requires pc.AtPush?
      modifies this
      ensures View() == Work(old(View()), true)
    {
      pc := AtApply;
      if !pushCommitted {
        return;
      }
      pushCommitted := false;
      hardware := ram.committed.config;
    }

    method ProcessApplyBegin()
      requires pc.AtApply?
      modifies this
      ensures View() == Work(old(View()), true)
    {
      pc := AtCommit;
      if txn.None? || txn.value.state != Applying || txn.value.pushed {
        return;
      }
      txn := Some(txn.value.(pushed := true));
      hardware := txn.value.candidate;
      pc := Pushing(txn.value.serial);
    }

    method ProcessApplyEnd(ok: bool)
      requires pc.Pushing?
      modifies this
      ensures View() == Work(old(View()), ok)
    {
      var serial := pc.serial;
      pc := AtCommit;
      if txn.Some? && txn.value.serial == serial && txn.value.state == Applying {
        if !ok {
          BeginRollback(ApplyFailed);
        } else {
          txn := Some(txn.value.(state := Awaiting));
          jobs := Jobs.SetState(jobs, JobOf(txn.value), Jobs.WaitingConfirmation, now).0;
        }
      }
    }

    method ProcessCommitBegin()
      requires pc.AtCommit?
      modifies this
      ensures View() == Work(old(View()), true)
    {
      if txn.None? || txn.value.state != Awaiting || !txn.value.commitRequested {
        pc := AtRollback;
        return;
      }
      pc := Committing(txn.value.serial);
    }

    /** device_config_pending_commit(), between the two sections. */
    method ProcessCommitStore(written: bool)
      requires pc.Committing?
      modifies this
      ensures View() == Work(old(View()), written)
    {
      var serial := pc.serial;
      var rc;
      ram, rc := StoreCommit(ram, Id(serial), written).0, StoreCommit(ram, Id(serial), written).1;
      pc := CommitDone(serial, rc == DC.Ok);
      if rc == DC.Ok {
        landed := landed[serial := ram.committed.config];
      }
    }

    method ProcessCommitEnd()
      requires pc.CommitDone?
      modifies this
      ensures View() == Work(old(View()), true)
    {
      var serial, ok := pc.serial, pc.ok;
      pc := AtRollback;
      if txn.Some? && txn.value.serial == serial && txn.value.state == Awaiting {
        if ok {
          jobs := Jobs.SetState(jobs, JobOf(txn.value), Jobs.Succeeded, now).0;
          txn := Some(txn.value.(pushed := false));
          End(Committed, None);
        } else {
          txn := Some(txn.value.(commitRequested := false));
          BeginRollback(CommitFailed);
        }
      }
    }

    method ProcessRollbackBegin()
      requires pc.AtRollback?
      modifies this
      ensures View() == Work(old(View()), true)
    {
      if txn.None? || txn.value.state != RollingBack {
        pc := Idle;
        return;
      }
      if txn.value.pushed {
        hardware := ram.committed.config;
      }
      pc := Restoring(txn.value.serial);
    }

    /** device_config_pending_rollback(), between the two sections. */
    method ProcessRollbackStore(erased: bool)
      requires pc.Restoring?
      modifies this
      ensures View() == Work(old(View()), erased)
    {
      ram := StoreRollback(ram, Id(pc.serial), erased).0;
      pc := RollbackDone(pc.serial);
    }

    method ProcessRollbackEnd()
      requires pc.RollbackDone?
      modifies this
      ensures View() == Work(old(View()), true)
    {
      var serial := pc.serial;
      pc := Idle;
      if txn.Some? && txn.value.serial == serial && txn.value.state == RollingBack {
        txn := Some(txn.value.(pushed := false));
        match txn.value.reason
        case Requested =>
          jobs := Jobs.SetState(jobs, JobOf(txn.value), Jobs.Succeeded, now).0;
          End(RolledBack, None);
        case TimedOut =>
          jobs := FailJob(jobs, JobOf(txn.value), ResourceExpired, now);
          End(RolledBack, Some(ResourceExpired));
        case _ =>
          jobs := FailJob(jobs, JobOf(txn.value), InternalError, now);
          End(Failed, Some(InternalError));
      }
    }
  }
}
