/**
 * What holds of the network transaction in every run: any number of requests, at any point
 * between two sections of the worker, whatever the hardware and the store answer.
 */
module NetTransaction {
  import opened Bytes
  import opened Options
  import opened NetState
  import DC = DeviceConfig
  import Jobs

  // ---- The invariant --------------------------------------------------------------------------

  /** The state of the job that goes with a transaction. */
  function Mirror(t: Txn): Jobs.State {
    match t.state
    case Applying => Jobs.Running
    case Awaiting => if t.commitRequested then Jobs.Running else Jobs.WaitingConfirmation
    case RollingBack => Jobs.Running
    case Committed => Jobs.Succeeded
    case RolledBack => if t.error.None? then Jobs.Succeeded else Jobs.Failed
    case _ => Jobs.Failed
  }

  /** A moving transaction has its job, which nobody can cancel; an ended one's is gone or tells the outcome. */
  predicate JobOk(t: Txn, found: Option<Jobs.Job>) {
    && (Moving(t.state) ==> t.job.Some? && found.Some? && !found.value.cancellable)
    && (t.job.Some? && found.Some? ==> found.value.state == Mirror(t))
    && (t.state.Staged? || t.state.Expired? ==> t.job.None?)
  }

  ghost predicate JobsOk(n: Net) {
    && Jobs.Valid(n.jobs)
    && (n.txn.Some? ==>
          && JobOk(n.txn.value, Jobs.Find(n.jobs, JobOf(n.txn.value)))
          && (n.txn.value.job.Some? ==> n.txn.value.job.value <= n.jobs.counter))
  }

  /** The coprocessor is claimed exactly while a change is in progress. */
  predicate ClaimOk(n: Net) {
    var moving := n.txn.Some? && Moving(n.txn.value.state);
    && n.held == (if moving then 1 else 0)
    && (n.txn.Some? ==> n.txn.value.claimed == moving)
  }

  predicate ShapeOk(n: Net) {
    && 0 <= n.now
    && (n.txn.Some? ==>
          var t := n.txn.value;
          && t.serial <= n.counter
          && (t.state.Staged? || t.state.Applying? || t.state.Awaiting? ==> 0 < t.deadline)
          && (t.state.RollingBack? || Terminal(t.state) ==> t.deadline == 0)
          && (t.commitRequested ==> t.state.Awaiting?)
          && (t.state.Staged? || Terminal(t.state) ==> !t.pushed)
          && (t.state.Applying? ==> (t.pushed <==> n.pc.Pushing?))
          && (t.state.Awaiting? ==> t.pushed))
  }

  /** What the worker carries across an unlocked stretch is still so when it comes back. */
  predicate PcOk(n: Net) {
    match n.pc
    case Pushing(s) => Matches(n, s) && n.txn.value.pushed && (Is(n, Applying) || Is(n, RollingBack))
    case Committing(s) => Matches(n, s) && Is(n, Awaiting) && n.txn.value.commitRequested
    case CommitDone(s, _) => Matches(n, s) && Is(n, Awaiting) && n.txn.value.commitRequested
    case Restoring(s) => Matches(n, s) && Is(n, RollingBack)
    case RollbackDone(s) => Matches(n, s) && Is(n, RollingBack)
    case _ => true
  }

  predicate HasJournal(n: Net)
    requires n.txn.Some?
  {
    var t := n.txn.value;
    && n.ram.pending.Some?
    && n.ram.pending.value.txn == Id(t.serial)
    && n.ram.pending.value.config == t.candidate
    && n.ram.pending.value.base == t.base == n.ram.committed.revision
  }

  /** A change in progress is in the journal until its commit or its rollback has been written. */
  predicate JournalOk(n: Net) {
    n.txn.Some? && Moving(n.txn.value.state) ==>
      match n.pc
      case CommitDone(_, true) => n.ram.pending.None? && n.ram.committed.config == n.txn.value.candidate
      case RollbackDone(_) => n.ram.pending.None? || HasJournal(n)
      case _ => HasJournal(n)
  }

  /** The flags of a staged candidate agree with what the store will derive. */
  predicate StoreOk(n: Net) {
    && DC.Sealed(n.ram.committed)
    && (n.ram.pending.Some? ==> DC.Sealed(n.ram.pending.value)
                                && n.ram.pending.value.revision == n.ram.committed.revision + 1)
    && (n.txn.Some? ==> n.txn.value.base <= n.ram.committed.revision)
    && (Is(n, Staged) && n.txn.value.base == n.ram.committed.revision ==>
          var t := n.txn.value;
          && t.candidate.wifiPasswordSet ==
               (t.credential.Replace? || (t.credential.Keep? && n.ram.committed.config.wifiPasswordSet))
          && t.candidate.adminPasswordSet == n.ram.committed.config.adminPasswordSet)
  }

  /** COMMITTED is what is reported exactly of the candidates that became the committed generation. */
  predicate LandedOk(n: Net) {
    && (forall s | s in n.landed :: s <= n.counter)
    && (n.txn.Some? ==>
          var t := n.txn.value;
          && (t.serial in n.landed <==> t.state.Committed? || n.pc == CommitDone(t.serial, true))
          && (t.serial in n.landed ==> n.landed[t.serial] == t.candidate))
  }

  /** A transaction that is about to end undone has had the committed configuration put back. */
  predicate RestoredOk(n: Net) {
    (n.pc.Restoring? || n.pc.RollbackDone?) && n.txn.Some? && n.txn.value.pushed ==>
      n.hardware == n.ram.committed.config
  }

  ghost predicate Inv(n: Net) {
    && JobsOk(n) && ClaimOk(n) && ShapeOk(n) && PcOk(n)
    && JournalOk(n) && StoreOk(n) && LandedOk(n) && RestoredOk(n)
  }

  /** After the boot: nothing staged, the committed configuration still to be pushed. */
  ghost predicate Start(n: Net) {
    && n.txn.None? && n.held == 0 && n.pushCommitted && n.pc.Idle? && n.landed == map[] && 0 <= n.now
    && Jobs.Valid(n.jobs) && DC.Sealed(n.ram.committed) && n.ram.pending.None?
  }

  lemma StartInv(n: Net)
    requires Start(n)
    ensures Inv(n)
  {
  }

  // ---- The helpers keep it ------------------------------------------------------------------------

  lemma BeginRollbackKeeps(n: Net, reason: Reason)
    requires Inv(n) && (Is(n, Applying) || (Is(n, Awaiting) && !n.txn.value.commitRequested))
    ensures Inv(BeginRollback(n, reason)) && Is(BeginRollback(n, reason), RollingBack)
  {
    hide Jobs.Valid, Jobs.Find, Jobs.SetState, DC.Sealed, Id;
    Jobs.SetStateEffect(n.jobs, n.txn.value.job.value, Jobs.Running, n.now);
  }

  lemma ExpireKeeps(n: Net)
    requires Inv(n)
    ensures Inv(Expire(n)) && Expire(n).pc == n.pc && Expire(n).ram == n.ram
  {
    hide Jobs.Valid, Jobs.Find, Jobs.SetState, DC.Sealed, Id;
    if Expire(n) != n && !Is(n, Staged) {
      BeginRollbackKeeps(n, TimedOut);
    }
  }

  // ---- The requests keep it -----------------------------------------------------------------------

  lemma StageKeeps(n: Net, rest: seq<Byte>, password: DC.SecretUpdate, base: nat, statusOk: bool, valid: bool)
    requires Inv(n)
    ensures Inv(Stage(n, rest, password, base, statusOk, valid).0)
  {
    hide Jobs.Valid, Jobs.Find, DC.Sealed, Id, Expire;
    ExpireKeeps(n);
  }

  /** Looking a key up changes no full record. */
  lemma LookupKeeps(n: Net, key: string, hash: nat, cutoff: int)
    requires Inv(n)
    ensures Inv(n.(jobs := Jobs.FindByKey(n.jobs, key, hash, cutoff).0))
  {
    Jobs.SameRecords(n.jobs, Jobs.FindByKey(n.jobs, key, hash, cutoff).0);
    hide Jobs.Valid, Jobs.Find, DC.Sealed, Id, Jobs.FindByKey;
  }

  /** What the store takes in is what was staged. */
  lemma BegunIsStaged(n: Net, written: bool)
    requires Inv(n) && Is(n, Staged)
    ensures var t := n.txn.value;
            var (ram, rc) := StoreBegin(n.ram, DC.Update(t.candidate, t.credential, DC.Keep), t.base, Id(t.serial),
                written);
            && ram.committed == n.ram.committed
            && (if rc != DC.Ok then ram == n.ram
                else
                  && ram.pending.Some? && DC.Sealed(ram.pending.value)
                  && ram.pending.value == DC.Proposed(n.ram.committed,
                       DC.Update(t.candidate, t.credential, DC.Keep), Id(t.serial))
                  && ram.pending.value.config == t.candidate && t.base == n.ram.committed.revision)
  {
    hide Jobs.Valid, Jobs.Find, Id, DC.TxnIdValid;
  }

  /** A job in the queue that nobody can cancel, made for the staged transaction. */
  ghost predicate Queued(n: Net, job: nat) {
    && Is(n, Staged) && job <= n.jobs.counter && Jobs.Find(n.jobs, job).Some?
    && Jobs.Find(n.jobs, job).value.state == Jobs.Queued && !Jobs.Find(n.jobs, job).value.cancellable
  }

  /** A new job disturbs no transaction. */
  lemma CreateKeeps(n: Net, kind: nat, key: string, hash: nat, cutoff: int)
    requires Inv(n) && Is(n, Staged)
    ensures var (jobs, created) := Jobs.Create(n.jobs, Jobs.Params(kind, false, key, hash), n.now, cutoff);
            Inv(n.(jobs := jobs)) && (created.New? ==> Queued(n.(jobs := jobs), created.id))
  {
    Jobs.CreateKeepsActive(n.jobs, Jobs.Params(kind, false, key, hash), n.now, cutoff);
    hide Jobs.Valid, Jobs.Find, Jobs.Create, DC.Sealed, Id;
  }

  lemma JournalledKeeps(n: Net, job: nat, timeout: nat, written: bool)
    requires Inv(n) && Queued(n, job) && CONFIRM_MIN <= timeout
    ensures Inv(Journalled(n, job, timeout, written).0)
  {
    hide Jobs.Valid, Jobs.Find, Jobs.SetState, Jobs.Fail, DC.Sealed, Id, StoreBegin;
    Jobs.SetStateEffect(n.jobs, job, Jobs.Running, n.now);
    Jobs.FailEffect(n.jobs, job, true, n.now);
    Jobs.FailEffect(n.jobs, job, false, n.now);
    BegunIsStaged(n, written);
  }

  lemma ApplyKeeps(n: Net, s: Step)
    requires Inv(n) && s.ApplyR?
    ensures Inv(Next(n, s))
  {
    hide Inv, Queued, Expire, Jobs.FindByKey, Jobs.Create, Journalled;
    LookupKeeps(n, s.key, s.hash, s.cutoff);
    var m := n.(jobs := Jobs.FindByKey(n.jobs, s.key, s.hash, s.cutoff).0);
    ExpireKeeps(m);
    var e := Expire(m);
    if Is(e, Staged) {
      CreateKeeps(e, NETWORK_APPLY, s.key, s.hash, s.cutoff);
      var (jobs, created) := Jobs.Create(e.jobs, Jobs.Params(NETWORK_APPLY, false, s.key, s.hash), e.now, s.cutoff);
      if created.New? && CONFIRM_MIN <= Timeout(s.asked) {
        JournalledKeeps(e.(jobs := jobs), created.id, Timeout(s.asked), s.written);
      }
    }
  }

  lemma ConfirmKeeps(n: Net, s: Step)
    requires Inv(n) && s.ConfirmR?
    ensures Inv(Next(n, s))
  {
    hide Jobs.Valid, Jobs.Find, Jobs.SetState, DC.Sealed, Id, Expire;
    ExpireKeeps(n);
    var e := Expire(n);
    if e.txn.Some? {
      Jobs.SetStateEffect(e.jobs, JobOf(e.txn.value), Jobs.Running, e.now);
    }
  }

  lemma DiscardKeeps(n: Net, key: string, hash: nat, cutoff: int)
    requires Inv(n) && Is(n, Staged)
    ensures Inv(Discard(n, key, hash, cutoff).0)
  {
    hide Jobs.Valid, Jobs.Find, Jobs.SetState, Jobs.Create, DC.Sealed, Id;
    CreateKeeps(n, NETWORK_DISCARD, key, hash, cutoff);
    var (jobs, created) := Jobs.Create(n.jobs, Jobs.Params(NETWORK_DISCARD, false, key, hash), n.now, cutoff);
    if created.New? {
      Jobs.SetStateEffect(jobs, created.id, Jobs.Running, n.now);
      Jobs.SetStateEffect(Jobs.SetState(jobs, created.id, Jobs.Running, n.now).0, created.id, Jobs.Succeeded, n.now);
    }
  }

  lemma RollbackKeeps(n: Net, s: Step)
    requires Inv(n) && s.RollbackR?
    ensures Inv(Next(n, s))
  {
    hide Inv, Expire, Jobs.FindByKey, Discard, BeginRollback;
    LookupKeeps(n, s.key, s.hash, s.cutoff);
    var m := n.(jobs := Jobs.FindByKey(n.jobs, s.key, s.hash, s.cutoff).0);
    ExpireKeeps(m);
    var e := Expire(m);
    if Is(e, Staged) {
      DiscardKeeps(e, s.key, s.hash, s.cutoff);
    } else if (Is(e, Applying) || Is(e, Awaiting)) && !e.txn.value.commitRequested {
      BeginRollbackKeeps(e, Requested);
    }
  }

  lemma RestoreKeeps(n: Net, s: Step)
    requires Inv(n) && s.RestoreR?
    ensures Inv(Next(n, s))
  {
    hide Jobs.Valid, Jobs.Find, Id, DC.TxnIdValid;
  }

  /** Other threads' jobs never touch the transaction's. */
  lemma OtherJobKeeps(n: Net, s: Step)
    requires Inv(n) && s.OtherJob? && Allowed(n, s)
    ensures Inv(Next(n, s))
  {
    hide Jobs.Valid, Jobs.Find, Jobs.Apply, DC.Sealed, Id;
    Jobs.ApplyKeepsValid(n.jobs, s.call, n.now);
    Jobs.CounterGrows(n.jobs, s.call, n.now);
    if n.txn.Some? && n.txn.value.job.Some? {
      var id := n.txn.value.job.value;
      if Moving(n.txn.value.state) {
        Jobs.OutOfReach(n.jobs, s.call, n.now, id);
      } else if Jobs.Find(n.jobs, id).Some? {
        Jobs.TerminalIsFinal(n.jobs, s.call, n.now, id);
      } else {
        Jobs.NeverAgain(n.jobs, s.call, n.now, id);
      }
    }
  }

  // ---- The worker keeps it ------------------------------------------------------------------------

  lemma ApplyEndKeeps(n: Net, serial: nat, ok: bool)
    requires Inv(n) && n.pc == Pushing(serial)
    ensures Inv(ApplyEnd(n, serial, ok))
  {
    hide Jobs.Valid, Jobs.Find, Jobs.SetState, DC.Sealed, Id;
    Jobs.SetStateEffect(n.jobs, JobOf(n.txn.value), Jobs.WaitingConfirmation, n.now);
    Jobs.SetStateEffect(n.jobs, JobOf(n.txn.value), Jobs.Running, n.now);
  }

  lemma CommitStoreKeeps(n: Net, serial: nat, written: bool)
    requires Inv(n) && n.pc == Committing(serial)
    ensures Inv(CommitStore(n, serial, written))
    ensures CommitStore(n, serial, written).pc == CommitDone(serial, written)
  {
    hide Jobs.Valid, Jobs.Find, DC.Sealed, Id;
  }

  lemma CommitEndKeeps(n: Net, serial: nat, ok: bool)
    requires Inv(n) && n.pc == CommitDone(serial, ok)
    ensures Inv(CommitEnd(n, serial, ok))
  {
    hide Jobs.Valid, Jobs.Find, Jobs.SetState, DC.Sealed, Id;
    Jobs.SetStateEffect(n.jobs, JobOf(n.txn.value), Jobs.Succeeded, n.now);
    Jobs.SetStateEffect(n.jobs, JobOf(n.txn.value), Jobs.Running, n.now);
  }

  lemma RollbackEndKeeps(n: Net, serial: nat)
    requires Inv(n) && n.pc == RollbackDone(serial)
    ensures Inv(RollbackEnd(n, serial))
  {
    hide Jobs.Valid, Jobs.Find, Jobs.SetState, Jobs.Fail, DC.Sealed, Id;
    var job := JobOf(n.txn.value);
    Jobs.SetStateEffect(n.jobs, job, Jobs.Succeeded, n.now);
    Jobs.FailEffect(n.jobs, job, true, n.now);
    Jobs.FailEffect(n.jobs, job, false, n.now);
  }

  lemma WorkKeeps(n: Net, ok: bool)
    requires Inv(n)
    ensures Inv(Work(n, ok))
  {
    hide Jobs.Valid, Jobs.Find, Jobs.SetState, Jobs.Fail, DC.Sealed, Id, ApplyEnd, CommitStore, CommitEnd,
        RollbackEnd, Expire;
    match n.pc
    case Idle => ExpireKeeps(n);
    case Pushing(s) => ApplyEndKeeps(n, s, ok);
    case Committing(s) => CommitStoreKeeps(n, s, ok);
    case CommitDone(s, done) => CommitEndKeeps(n, s, done);
    case RollbackDone(s) => RollbackEndKeeps(n, s);
    case _ =>
  }

  lemma NextKeeps(n: Net, s: Step)
    requires Inv(n) && Allowed(n, s)
    ensures Inv(Next(n, s))
  {
    match s
    case StageR(rest, password, base, statusOk, valid) => StageKeeps(n, rest, password, base, statusOk, valid);
    case ApplyR(_, _, _, _, _, _, _) => ApplyKeeps(n, s);
    case ConfirmR(_, _, _) => ConfirmKeeps(n, s);
    case RollbackR(_, _, _, _) => RollbackKeeps(n, s);
    case GetR => ExpireKeeps(n);
    case RestoreR(_, _, _) => RestoreKeeps(n, s);
    case OtherJob(_) => OtherJobKeeps(n, s);
    case Worker(ok) => WorkKeeps(n, ok);
    case _ =>
      hide Jobs.Valid, Jobs.Find, DC.Sealed, Id;
  }

  lemma {:induction false} RunKeeps(n: Net, run: seq<Step>)
    requires Inv(n) && AllowedRun(n, run)
    ensures Inv(Run(n, run))
    decreases |run|
  {
    if run != [] {
      NextKeeps(n, run[0]);
      RunKeeps(Next(n, run[0]), run[1..]);
    }
  }
}
