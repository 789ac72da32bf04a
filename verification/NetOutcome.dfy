/** The promises of the network transaction, over whole runs. */
module NetOutcome {
  import opened Options
  import opened NetState
  import opened NetTransaction
  import DC = DeviceConfig
  import Jobs

  // ---- States ---------------------------------------------------------------------------------

  /** The transitions network_manager.h allows. */
  predicate Legal(from: State, to: State) {
    || from == to
    || (from.Staged? && (to.Applying? || to.RolledBack? || to.Expired? || to.Failed?))
    || (from.Applying? && (to.Awaiting? || to.RollingBack?))
    || (from.Awaiting? && (to.Committed? || to.RollingBack?))
    || (from.RollingBack? && (to.RolledBack? || to.Failed?))
  }

  /** A transaction only gives way to another when it is over, or is a candidate whose time is up. */
  predicate MayBeReplaced(n: Net) {
    n.txn.None? || Terminal(n.txn.value.state) || (Is(n, Staged) && n.txn.value.deadline <= n.now)
  }

  predicate LegalMove(n: Net, m: Net) {
    && (n.txn.Some? ==> m.txn.Some?) && n.counter <= m.counter
    && (if n.txn.Some? && m.txn.value.serial == n.txn.value.serial then Legal(n.txn.value.state, m.txn.value.state)
        else MayBeReplaced(n) && (m.txn.Some? ==> Is(m, Staged) && m.txn.value.serial == n.counter + 1))
  }

  lemma WorkIsLegal(n: Net, ok: bool)
    requires Inv(n)
    ensures LegalMove(n, Work(n, ok))
  {
    hide JobsOk, JournalOk, StoreOk, LandedOk, RestoredOk, StoreBegin, StoreCommit, StoreRollback, Jobs.SetState,
        Jobs.Fail;
  }

  lemma EveryMoveIsLegal(n: Net, s: Step)
    requires Inv(n)
    ensures LegalMove(n, Next(n, s))
  {
    hide JobsOk, JournalOk, StoreOk, LandedOk, RestoredOk, StoreBegin, StoreCommit, StoreRollback;
    hide Jobs.Create, Jobs.SetState, Jobs.Fail, Jobs.FindByKey, Jobs.Apply, Work;
    match s
    case StageR(_, _, _, _, _) =>
    case ApplyR(_, _, _, _, _, _, _) =>
    case RollbackR(_, _, _, _) =>
    case Worker(ok) => WorkIsLegal(n, ok);
    case _ =>
  }

  /** A confirmed change ends committed; only a commit the store could not write undoes it. */
  lemma ConfirmedIsHonoured(n: Net, s: Step)
    requires Inv(n) && Is(n, Awaiting) && n.txn.value.commitRequested
    ensures var m := Next(n, s);
            && m.txn.Some? && m.txn.value.serial == n.txn.value.serial
            && (m.txn.value.state.Awaiting? ==> m.txn.value.commitRequested)
            && (m.txn.value.state.Committed? ==> n.pc == CommitDone(n.txn.value.serial, true) && s.Worker?)
            && (m.txn.value.state.RollingBack? ==> n.pc == CommitDone(n.txn.value.serial, false) && s.Worker?)
            && (m.txn.value.state.Awaiting? || m.txn.value.state.Committed? || m.txn.value.state.RollingBack?)
  {
    hide JobsOk, JournalOk, StoreOk, LandedOk, RestoredOk, StoreBegin, StoreCommit, StoreRollback;
    hide Jobs.Create, Jobs.SetState, Jobs.Fail, Jobs.FindByKey, Jobs.Apply;
    match s
    case StageR(_, _, _, _, _) =>
    case ApplyR(_, _, _, _, _, _, _) =>
    case RollbackR(_, _, _, _) =>
    case Worker(_) =>
    case _ =>
  }

  /** What the commit tells the worker is what the store did: the candidate is in force, or nothing changed. */
  lemma CommitIsTheStores(n: Net, ok: bool)
    requires Inv(n) && n.pc.Committing?
    ensures var m := Next(n, Worker(ok));
            && m.pc == CommitDone(n.txn.value.serial, ok)
            && (if ok then
                  && m.ram.committed.config == n.txn.value.candidate && m.ram.pending.None?
                  && m.ram.committed.revision == n.ram.committed.revision + 1
                  && m.landed == n.landed[n.txn.value.serial := n.txn.value.candidate]
                else m.ram == n.ram && m.landed == n.landed)
  {
    hide JobsOk, LandedOk, RestoredOk, Id;
  }

  /** The invariant, read by somebody who takes the lock at any point of any run. */
  lemma AtEveryRelease(n0: Net, run: seq<Step>)
    requires Start(n0) && AllowedRun(n0, run) && Run(n0, run).txn.Some?
    ensures var n := Run(n0, run);
            var t := n.txn.value;
            var job := Jobs.Find(n.jobs, JobOf(t));
            && n.held == (if Moving(t.state) then 1 else 0)
            && (Moving(t.state) ==>
                  && job.Some? && !job.value.cancellable && !Jobs.Terminal(job.value.state)
                  && (job.value.state.WaitingConfirmation? <==> t.state.Awaiting? && !t.commitRequested)
                  && (!n.pc.CommitDone? && !n.pc.RollbackDone? ==> HasJournal(n)))
            && (Terminal(t.state) && t.job.Some? && job.Some? ==> job.value.state == Mirror(t))
            && (t.state.Committed? || n.pc == CommitDone(t.serial, true) <==> t.serial in n.landed)
            && (t.serial in n.landed ==> n.landed[t.serial] == t.candidate)
  {
    StartInv(n0);
    RunKeeps(n0, run);
    hide Jobs.Valid, Jobs.Find, DC.Sealed, Run, AllowedRun;
  }

  // ---- Deadlines ------------------------------------------------------------------------------

  /** Transaction x is over, and possibly forgotten. */
  predicate Settled(n: Net, x: nat) {
    x <= n.counter && (n.txn.None? || n.txn.value.serial != x || Terminal(n.txn.value.state))
  }

  /** Its deadline has passed, or its end has been decided already. */
  predicate Overdue(n: Net) {
    && n.txn.Some? && Moving(n.txn.value.state)
    && (n.txn.value.state.RollingBack? || n.txn.value.commitRequested || n.txn.value.deadline <= n.now)
  }

  /** What the sections of process() behind the worker have left of an overdue transaction x. */
  predicate Due(n: Net, x: nat) {
    Settled(n, x) ||
    (Matches(n, x) &&
      match n.pc
      case AtPush => Is(n, RollingBack) || n.txn.value.commitRequested
      case AtApply => Is(n, RollingBack) || n.txn.value.commitRequested
      case AtCommit => Is(n, RollingBack) || n.txn.value.commitRequested
      case Committing(_) => true
      case CommitDone(_, _) => true
      case AtRollback => Is(n, RollingBack)
      case Restoring(_) => true
      case RollbackDone(_) => true
      case _ => false)
  }

  lemma PassBegins(n: Net, ok: bool)
    requires Inv(n) && n.pc.Idle? && Overdue(n)
    ensures Due(Next(n, Worker(ok)), n.txn.value.serial)
  {
    hide JobsOk, JournalOk, StoreOk, LandedOk, RestoredOk, Jobs.SetState;
  }

  lemma PassGoesOn(n: Net, s: Step, x: nat)
    requires Inv(n) && Due(n, x) && !(s.Worker? && n.pc.Idle?)
    ensures Due(Next(n, s), x)
  {
    hide JobsOk, JournalOk, StoreOk, LandedOk, RestoredOk, StoreBegin, StoreCommit, StoreRollback;
    hide Jobs.Create, Jobs.SetState, Jobs.Fail, Jobs.FindByKey, Jobs.Apply;
    if Settled(n, x) {
      hide PcOk, ClaimOk;
      EveryMoveIsLegal(n, s);
      hide Next, Inv;
    } else if s.Worker? {
    } else {
    }
  }

  /** No second process() begins. */
  predicate SamePass(n: Net, run: seq<Step>)
    decreases |run|
  {
    run == [] || (!(run[0].Worker? && n.pc.Idle?) && SamePass(Next(n, run[0]), run[1..]))
  }

  lemma {:induction false} PassKeepsDue(n: Net, run: seq<Step>, x: nat)
    requires Inv(n) && AllowedRun(n, run) && SamePass(n, run) && Due(n, x)
    ensures Due(Run(n, run), x)
    decreases |run|
  {
    if run != [] {
      hide Inv, Due, Next, Allowed;
      NextKeeps(n, run[0]);
      PassGoesOn(n, run[0], x);
      PassKeepsDue(Next(n, run[0]), run[1..], x);
    }
  }

  /**
   * One call of process() that starts with an overdue transaction returns with it over, whatever
   * the hardware and the store answer and whoever interferes.
   */
  lemma OverdueEnds(n: Net, ok: bool, run: seq<Step>)
    requires Inv(n) && n.pc.Idle? && Overdue(n)
    requires AllowedRun(Next(n, Worker(ok)), run) && SamePass(Next(n, Worker(ok)), run)
    requires Run(Next(n, Worker(ok)), run).pc.Idle?
    ensures Settled(Run(Next(n, Worker(ok)), run), n.txn.value.serial)
  {
    NextKeeps(n, Worker(ok));
    PassBegins(n, ok);
    PassKeepsDue(Next(n, Worker(ok)), run, n.txn.value.serial);
  }

  /** The moves the worker has left before process() returns. */
  function Left(pc: Pc): nat {
    match pc
    case Idle => 0
    case RollbackDone(_) => 1
    case Restoring(_) => 2
    case AtRollback => 3
    case CommitDone(_, _) => 4
    case Committing(_) => 5
    case AtCommit => 6
    case Pushing(_) => 7
    case AtApply => 8
    case AtPush => 9
  }

  function Moves(run: seq<Step>): nat {
    if run == [] then 0 else (if run[0].Worker? then 1 else 0) + Moves(run[1..])
  }

  lemma StepLeft(n: Net, s: Step)
    ensures if s.Worker? then n.pc.Idle? || Left(Next(n, s).pc) < Left(n.pc) else Next(n, s).pc == n.pc
  {
    hide StoreBegin, StoreCommit, StoreRollback, Jobs.Create, Jobs.SetState, Jobs.Fail, Jobs.FindByKey, Jobs.Apply;
  }

  /** ... and it does return, after nine moves of its own at most. */
  lemma {:induction false} PassReturns(n: Net, run: seq<Step>)
    requires SamePass(n, run)
    ensures Moves(run) + Left(Run(n, run).pc) <= Left(n.pc)
    decreases |run|
  {
    if run != [] {
      hide Next;
      StepLeft(n, run[0]);
      PassReturns(Next(n, run[0]), run[1..]);
    }
  }

  // ---- What the hardware runs ---------------------------------------------------------------------

  /** The candidate that reached the interfaces and has not been undone. */
  function Pushed(n: Net): Option<DC.Config> {
    if n.txn.Some? && n.txn.value.pushed then Some(n.txn.value.candidate) else None
  }

  /** The candidate from its push to its commit, anything while it is undone; else the committed one. */
  predicate HardwareOk(n: Net) {
    if Pushed(n).Some? then Is(n, RollingBack) || n.hardware == Pushed(n).value
    else n.pushCommitted || n.hardware == n.ram.committed.config
  }

  /** The worker is about to push the committed configuration over a pushed candidate. */
  predicate Clobbers(n: Net) {
    n.pc.AtPush? && n.pushCommitted && Pushed(n).Some?
  }

  /** ... that is not on its way back, and is another one. */
  predicate Harmful(n: Net) {
    Clobbers(n) && !Is(n, RollingBack) && Pushed(n).value != n.ram.committed.config
  }

  /** The requests about a transaction touch neither what is pushed, nor what is committed. */
  lemma RequestsPushNothing(n: Net, s: Step)
    requires Inv(n) && !s.Worker? && !s.RestoreR?
    ensures var m := Next(n, s);
            && m.hardware == n.hardware && m.ram.committed == n.ram.committed && m.pc == n.pc
            && Pushed(m) == Pushed(n) && (!s.BootR? ==> m.pushCommitted == n.pushCommitted)
  {
    hide JobsOk, JournalOk, StoreOk, LandedOk, RestoredOk, DC.BeginRefusal, DC.Proposed;
    hide Jobs.Create, Jobs.SetState, Jobs.Fail, Jobs.FindByKey, Jobs.Apply;
    match s
    case StageR(_, _, _, _, _) =>
    case ApplyR(_, _, _, _, _, _, _) =>
    case RollbackR(_, _, _, _) =>
    case _ =>
  }

  lemma HardwareWork(n: Net, ok: bool)
    requires Inv(n) && HardwareOk(n)
    ensures HardwareOk(Work(n, ok)) <==> !Harmful(n)
  {
    hide JobsOk, StoreOk, LandedOk, ClaimOk, Id, Jobs.SetState, Jobs.Fail;
    match n.pc
    case CommitDone(_, _) => hide StoreCommit, StoreRollback;
    case RollbackDone(_) => hide StoreCommit, StoreRollback;
    case _ =>
  }

  /** One push can take the pushed candidate from the hardware, and nothing else can. */
  lemma OnlyHarmfulPushes(n: Net, s: Step)
    requires Inv(n) && HardwareOk(n)
    ensures HardwareOk(Next(n, s)) <==> !(s.Worker? && Harmful(n))
  {
    if s.RestoreR? {
      hide JobsOk, LandedOk, JournalOk, StoreOk, StoreBegin, StoreCommit;
    } else if s.Worker? {
      hide Work, Inv, Harmful;
      HardwareWork(n, s.ok);
    } else {
      hide Next, Inv;
      RequestsPushNothing(n, s);
    }
  }

  /** The pushes since the last harmful one: whether they have made up for it. */
  predicate LostAfter(n: Net, s: Step, lost: bool) {
    if !s.Worker? then lost
    else
      match n.pc
      case AtPush => if n.pushCommitted then Harmful(n) else lost
      case AtApply => lost && !(Is(n, Applying) && !n.txn.value.pushed)
      case AtRollback => lost && !(Is(n, RollingBack) && n.txn.value.pushed)
      case _ => lost
  }

  /** The last push of a run was the committed configuration over another candidate, which was not undone. */
  predicate Lost(n: Net, run: seq<Step>, lost: bool)
    decreases |run|
  {
    if run == [] then lost else Lost(Next(n, run[0]), run[1..], LostAfter(n, run[0], lost))
  }

  predicate HardwareIs(n: Net, lost: bool) {
    if !lost then HardwareOk(n)
    else if Pushed(n).Some? then
      !n.pc.Restoring? && !n.pc.RollbackDone? && (Is(n, RollingBack) || n.hardware != Pushed(n).value)
    else n.pushCommitted || n.hardware != n.ram.committed.config
  }

  lemma LostWork(n: Net, ok: bool)
    requires Inv(n) && HardwareIs(n, true)
    ensures HardwareIs(Work(n, ok), LostAfter(n, Worker(ok), true))
  {
    hide JobsOk, StoreOk, LandedOk, ClaimOk, Id, Jobs.SetState, Jobs.Fail;
    match n.pc
    case CommitDone(_, _) => hide StoreCommit, StoreRollback;
    case RollbackDone(_) => hide StoreCommit, StoreRollback;
    case _ =>
  }

  lemma LostStep(n: Net, s: Step, lost: bool)
    requires Inv(n) && HardwareIs(n, lost)
    ensures HardwareIs(Next(n, s), LostAfter(n, s, lost))
  {
    if !lost {
      OnlyHarmfulPushes(n, s);
      hide Inv, Next, HardwareOk;
      if s.Worker? && Harmful(n) {
        HarmfulIsLost(n, s);
      }
    } else if s.RestoreR? {
      hide JobsOk, LandedOk, JournalOk, StoreOk, StoreBegin, StoreCommit;
    } else if s.Worker? {
      hide Work, Inv, LostAfter;
      LostWork(n, s.ok);
    } else {
      hide Next, Inv;
      RequestsPushNothing(n, s);
    }
  }

  lemma HarmfulIsLost(n: Net, s: Step)
    requires Harmful(n) && s.Worker?
    ensures HardwareIs(Next(n, s), true)
  {
  }

  lemma {:induction false} LostRun(n: Net, run: seq<Step>, lost: bool)
    requires Inv(n) && HardwareIs(n, lost) && AllowedRun(n, run)
    ensures HardwareIs(Run(n, run), Lost(n, run, lost))
    decreases |run|
  {
    if run != [] {
      hide Inv, HardwareIs, Next, Allowed, LostAfter;
      NextKeeps(n, run[0]);
      LostStep(n, run[0], lost);
      LostRun(Next(n, run[0]), run[1..], LostAfter(n, run[0], lost));
    }
  }

  /**
   * Whenever no transaction is under way and no push is owed, the hardware has what is committed, exactly
   * unless the last push put an older configuration over the one that was then committed.
   */
  lemma HardwareFollowsUnlessLost(n0: Net, run: seq<Step>)
    requires Start(n0) && AllowedRun(n0, run)
    ensures var n := Run(n0, run);
            !InFlight(n) && !n.pushCommitted ==> (n.hardware == n.ram.committed.config <==> !Lost(n0, run, false))
  {
    hide Run, AllowedRun, Lost;
    StartInv(n0);
    LostRun(n0, run, false);
    RunKeeps(n0, run);
  }

  /** No push of the committed configuration runs over a pushed candidate. */
  predicate NeverClobbers(n: Net, run: seq<Step>)
    decreases |run|
  {
    run == [] || (!(run[0].Worker? && Clobbers(n)) && NeverClobbers(Next(n, run[0]), run[1..]))
  }

  lemma {:induction false} NeverClobberedNeverLost(n: Net, run: seq<Step>)
    requires NeverClobbers(n, run)
    ensures !Lost(n, run, false)
    decreases |run|
  {
    if run != [] {
      hide Next;
      NeverClobberedNeverLost(Next(n, run[0]), run[1..]);
    }
  }

  lemma HardwareFollowsCommitted(n0: Net, run: seq<Step>)
    requires Start(n0) && AllowedRun(n0, run) && NeverClobbers(n0, run)
    ensures var n := Run(n0, run);
            !InFlight(n) && !n.pushCommitted ==> n.hardware == n.ram.committed.config
  {
    HardwareFollowsUnlessLost(n0, run);
    NeverClobberedNeverLost(n0, run);
  }

  /** A change that ends undone leaves the committed configuration on the hardware in any case. */
  lemma UndoneMeansRestored(n: Net, ok: bool)
    requires Inv(n) && n.pc.RollbackDone? && n.txn.value.pushed
    ensures var m := Next(n, Worker(ok));
            && (Is(m, RolledBack) || Is(m, Failed)) && m.hardware == m.ram.committed.config
  {
    hide JobsOk, JournalOk, StoreOk, LandedOk, Jobs.SetState, Jobs.Fail;
  }

  /**
   * What the callers can do about it: ask for a push of the committed configuration neither while
   * a candidate is on the hardware nor between the worker's two pushes.
   */
  predicate Disciplined(n: Net, s: Step) {
    && (s.BootR? ==> !n.pc.AtApply? && Pushed(n).None?)
    && (s.RestoreR? ==> !n.pc.AtApply?)
  }

  predicate DisciplinedRun(n: Net, run: seq<Step>)
    decreases |run|
  {
    run == [] || (Disciplined(n, run[0]) && DisciplinedRun(Next(n, run[0]), run[1..]))
  }

  predicate NoStrayPush(n: Net) {
    n.pushCommitted ==> !n.pc.AtApply? && Pushed(n).None?
  }

  lemma DisciplineStep(n: Net, s: Step)
    requires Inv(n) && NoStrayPush(n) && Disciplined(n, s)
    ensures NoStrayPush(Next(n, s)) && !Clobbers(n)
  {
    if s.Worker? || s.RestoreR? {
      hide JobsOk, JournalOk, StoreOk, LandedOk, RestoredOk, StoreBegin, StoreCommit, StoreRollback, Jobs.SetState,
          Jobs.Fail;
    } else {
      hide Next, Inv;
      RequestsPushNothing(n, s);
    }
  }

  lemma {:induction false} DisciplineNeverClobbers(n: Net, run: seq<Step>)
    requires Inv(n) && NoStrayPush(n) && AllowedRun(n, run) && DisciplinedRun(n, run)
    ensures NeverClobbers(n, run)
    decreases |run|
  {
    if run != [] {
      hide Inv, NoStrayPush, Next, Allowed, Clobbers, Disciplined;
      NextKeeps(n, run[0]);
      DisciplineStep(n, run[0]);
      DisciplineNeverClobbers(Next(n, run[0]), run[1..]);
    }
  }

  /** The worker's own thread makes both calls between two passes, and boot() before the first of them. */
  predicate FromTheWorker(n: Net, s: Step, worked: bool) {
    && (s.BootR? ==> n.pc.Idle? && !worked)
    && (s.RestoreR? ==> n.pc.Idle?)
  }

  predicate FromTheWorkerRun(n: Net, run: seq<Step>, worked: bool)
    decreases |run|
  {
    run == [] || (FromTheWorker(n, run[0], worked)
        && FromTheWorkerRun(Next(n, run[0]), run[1..], worked || run[0].Worker?))
  }

  lemma {:induction false} FromTheWorkerIsDisciplined(n: Net, run: seq<Step>, worked: bool)
    requires Inv(n) && AllowedRun(n, run) && FromTheWorkerRun(n, run, worked)
    requires !worked ==> Pushed(n).None?
    ensures DisciplinedRun(n, run)
    decreases |run|
  {
    if run != [] {
      hide Inv, Next, Allowed;
      NextKeeps(n, run[0]);
      if !run[0].Worker? {
        PushedStays(n, run[0]);
      }
      FromTheWorkerIsDisciplined(Next(n, run[0]), run[1..], worked || run[0].Worker?);
    }
  }

  lemma PushedStays(n: Net, s: Step)
    requires Inv(n) && !s.Worker?
    ensures Pushed(Next(n, s)) == Pushed(n)
  {
    if s.RestoreR? {
      hide JobsOk, LandedOk, JournalOk, StoreOk, StoreBegin, StoreCommit;
    } else {
      hide Next, Inv;
      RequestsPushNothing(n, s);
    }
  }

  /** So called, the hardware follows in every run, whatever is requested and whatever fails. */
  lemma HardwareFollows(n0: Net, run: seq<Step>)
    requires Start(n0) && AllowedRun(n0, run) && FromTheWorkerRun(n0, run, false)
    ensures var n := Run(n0, run);
            !InFlight(n) && !n.pushCommitted ==> n.hardware == n.ram.committed.config
  {
    hide Run, AllowedRun, DisciplinedRun, FromTheWorkerRun;
    StartInv(n0);
    FromTheWorkerIsDisciplined(n0, run, false);
    HardwareFollowsDisciplined(n0, run);
  }

  /** boot() must come before the first pass: between two it has the next pass clobber a pushed candidate. */
  lemma BootClobbers(n: Net)
    requires Inv(n) && n.pc.Idle? && Is(n, Awaiting) && n.now < n.txn.value.deadline
    ensures Clobbers(Next(Next(n, BootR), Worker(true)))
  {
  }

  /** With disciplined callers the hardware follows in every run. */
  lemma HardwareFollowsDisciplined(n0: Net, run: seq<Step>)
    requires Start(n0) && AllowedRun(n0, run) && DisciplinedRun(n0, run)
    ensures var n := Run(n0, run);
            !InFlight(n) && !n.pushCommitted ==> n.hardware == n.ram.committed.config
  {
    hide Run, AllowedRun, NeverClobbers, DisciplinedRun;
    StartInv(n0);
    DisciplineNeverClobbers(n0, run);
    HardwareFollowsCommitted(n0, run);
  }

  /** Without them it may not: a clobbered change can still be confirmed and reported committed. */
  lemma ClobberedChangeCommits(n: Net) returns (run: seq<Step>)
    requires Inv(n) && Clobbers(n) && Is(n, Awaiting)
    requires n.txn.value.commitRequested || n.now < n.txn.value.deadline
    requires n.txn.value.candidate != n.ram.committed.config
    ensures AllowedRun(n, run)
    ensures var m := Run(n, run);
            && Matches(m, n.txn.value.serial) && Is(m, Committed) && !m.pushCommitted
            && m.ram.committed.config == n.txn.value.candidate && m.hardware == n.ram.committed.config
  {
    hide JobsOk, LandedOk, RestoredOk, Id, Jobs.SetState;
    var n1 := if n.txn.value.commitRequested then n else Next(n, ConfirmR(n.txn.value.serial, true, true));
    assert Matches(n1, n.txn.value.serial) && Is(n1, Awaiting) && n1.txn.value.commitRequested;
    assert n1.ram == n.ram && n1.pc == n.pc && n1.pushCommitted;
    var w := Worker(true);
    var n2 := Next(n1, w);
    var n3 := Next(n2, w);
    var n4 := Next(n3, w);
    var n5 := Next(n4, w);
    var n6 := Next(n5, w);
    assert n4.pc == Committing(n.txn.value.serial) && HasJournal(n4);
    assert n5.pc == CommitDone(n.txn.value.serial, true);
    var tail := [w, w, w, w, w];
    FiveMoves(n1, w);
    run := if n.txn.value.commitRequested then tail else [ConfirmR(n.txn.value.serial, true, true)] + tail;
    if !n.txn.value.commitRequested {
      assert run[1..] == tail;
    }
  }

  lemma RunFrom(n: Net, s: Step, rest: seq<Step>)
    ensures Run(n, [s] + rest) == Run(Next(n, s), rest)
    ensures AllowedRun(n, [s] + rest) <==> Allowed(n, s) && AllowedRun(Next(n, s), rest)
  {
    assert ([s] + rest)[1..] == rest;
  }

  lemma FiveMoves(n: Net, w: Step)
    requires w.Worker?
    ensures AllowedRun(n, [w, w, w, w, w])
    ensures Run(n, [w, w, w, w, w]) == Next(Next(Next(Next(Next(n, w), w), w), w), w)
  {
    hide Next;
    var n1 := Next(n, w);
    var n2 := Next(n1, w);
    var n3 := Next(n2, w);
    var n4 := Next(n3, w);
    RunFrom(n, w, [w, w, w, w]);
    RunFrom(n1, w, [w, w, w]);
    RunFrom(n2, w, [w, w]);
    RunFrom(n3, w, [w]);
    RunFrom(n4, w, []);
    assert [w, w, w, w, w] == [w] + [w, w, w, w] && [w, w, w, w] == [w] + [w, w, w];
    assert [w, w, w] == [w] + [w, w] && [w, w] == [w] + [w] && [w] == [w] + [];
  }

  // ---- A run that clobbers ----------------------------------------------------------------------

  const PLAIN: DC.Config := DC.Config([], false, false)
  const CHANGED: DC.Config := DC.Config([1], false, false)

  /** A device after its boot, with room for one job. */
  function Booted(): Net {
    Net(None, 0, true, DC.Ram(DC.DEFAULTS, None), Jobs.Table([None], [], 0), 0, 0, PLAIN, map[], Idle)
  }

  /** Factory defaults restored between the worker's two pushes, and a change applied at once. */
  const MOVE := Worker(true)
  const RESTORE := RestoreR([], true, true)
  const STAGE := StageR([1], DC.Keep, 1, true, true)
  const APPLY := ApplyR(1, CONFIRM_MIN, "", 0, true, true, 0)
  const UNLUCKY: seq<Step> := [MOVE, MOVE, RESTORE, STAGE, APPLY] + [MOVE, MOVE, MOVE, MOVE, MOVE]

  lemma {:induction false} HexIsValid(n: nat, digits: nat)
    ensures |Hex(n, digits)| == digits && forall i | 0 <= i < digits :: DC.TxnChar(Hex(n, digits)[i])
  {
    if digits > 0 {
      HexIsValid(n / 16, digits - 1);
    }
  }

  /** The store accepts the id of every transaction. */
  lemma IdIsValid(serial: nat)
    ensures DC.TxnIdValid(Id(serial))
  {
    HexIsValid(serial, 8);
  }

  lemma UnluckyStage()
    ensures var n := Next(Next(Next(Next(Booted(), MOVE), MOVE), RESTORE), STAGE);
            && n.ram.committed.config == PLAIN && n.pc.AtApply? && n.pushCommitted
            && UnluckyStaged(n)
  {
    var n2 := Booted().(pushCommitted := false, pc := AtApply);
    var restored := DC.Record(1, 0, RESTORE_ID, PLAIN, DC.Secrets([], []));
    assert DC.TxnIdValid(RESTORE_ID);
    var n3 := n2.(ram := DC.Ram(restored, None), pushCommitted := true);
    assert Next(Next(Booted(), MOVE), MOVE) == n2;
    assert Next(n2, RESTORE) == n3;
  }

  predicate UnluckyStaged(n: Net) {
    && n.jobs == Jobs.Table([None], [], 0) && n.now == 0 && DC.Sealed(n.ram.committed)
    && n.txn == Some(Txn(1, Staged, 1, CHANGED, DC.Keep, None, CANDIDATE_TTL * 1000, None, false, false, Requested,
         false))
    && n.ram.pending.None? && n.ram.committed.revision == 1 && n.ram.committed.secrets == DC.Secrets([], [])
  }

  /** With defaults restored while the worker is between its two pushes, the next one will clobber. */
  lemma UnluckyRun()
    requires CONFIRM_MIN <= CONFIRM_MAX
    ensures Start(Booted()) && AllowedRun(Booted(), UNLUCKY)
    ensures var n := Run(Booted(), UNLUCKY);
            && Clobbers(n) && Is(n, Awaiting) && n.now < n.txn.value.deadline
            && n.txn.value.candidate == CHANGED && n.ram.committed.config == PLAIN
  {
    UnluckyStage();
    hide Next;
    var n1 := Next(Booted(), MOVE);
    var n2 := Next(n1, MOVE);
    var n3 := Next(n2, RESTORE);
    var n4 := Next(n3, STAGE);
    var n5 := Next(n4, APPLY);
    UnluckyApply(n4);
    UnluckyPush(n5);
    FiveMoves(n5, MOVE);
    hide UnluckyStaged;
    var rest := [MOVE, MOVE, MOVE, MOVE, MOVE];
    RunFrom(Booted(), MOVE, [MOVE, RESTORE, STAGE, APPLY]);
    RunFrom(n1, MOVE, [RESTORE, STAGE, APPLY]);
    RunFrom(n2, RESTORE, [STAGE, APPLY]);
    RunFrom(n3, STAGE, [APPLY]);
    RunFrom(n4, APPLY, []);
    assert [MOVE] + [MOVE, RESTORE, STAGE, APPLY] == [MOVE, MOVE, RESTORE, STAGE, APPLY];
    assert [MOVE] + [RESTORE, STAGE, APPLY] == [MOVE, RESTORE, STAGE, APPLY];
    assert [RESTORE] + [STAGE, APPLY] == [RESTORE, STAGE, APPLY] && [STAGE] + [APPLY] == [STAGE, APPLY];
    assert [APPLY] + [] == [APPLY];
    RunConcat(Booted(), [MOVE, MOVE, RESTORE, STAGE, APPLY], rest);
  }

  lemma UnluckyApply(n: Net)
    requires UnluckyStaged(n) && CONFIRM_MIN <= CONFIRM_MAX
    ensures var m := Next(n, APPLY);
            && Is(m, Applying) && m.txn.value.candidate == CHANGED && !m.txn.value.pushed
                 && m.txn.value.deadline == CONFIRM_MIN * 1000
            && !m.txn.value.commitRequested
            && m.ram.committed == n.ram.committed && m.pc == n.pc && m.pushCommitted == n.pushCommitted && m.now == 0
  {
    IdIsValid(1);
    hide Id, DC.TxnIdValid, Jobs.SetState;
    var (jobs, created) := Jobs.Create(n.jobs, Jobs.Params(NETWORK_APPLY, false, "", 0), 0, 0);
    assert created == Jobs.New(1);
  }

  lemma UnluckyPush(n: Net)
    requires Is(n, Applying) && !n.txn.value.pushed && n.now == 0 && n.txn.value.deadline == CONFIRM_MIN * 1000
        && n.pc.AtApply?
    requires !n.txn.value.commitRequested
    ensures var m := Next(Next(Next(Next(Next(n, MOVE), MOVE), MOVE), MOVE), MOVE);
            && Is(m, Awaiting) && m.pc.AtPush? && m.txn.value.pushed && m.now == 0
                 && m.txn.value.deadline == CONFIRM_MIN * 1000
            && m.txn.value.candidate == n.txn.value.candidate
            && m.ram == n.ram && m.pushCommitted == n.pushCommitted
  {
    hide Jobs.SetState;
    var m2 := Next(Next(n, MOVE), MOVE);
    assert Is(m2, Awaiting) && m2.pc.AtCommit? && m2.txn.value.pushed;
  }

  lemma {:induction false} RunConcat(n: Net, a: seq<Step>, b: seq<Step>)
    ensures Run(n, a + b) == Run(Run(n, a), b)
    ensures AllowedRun(n, a + b) <==> AllowedRun(n, a) && AllowedRun(Run(n, a), b)
    decreases |a|
  {
    hide Next, Allowed;
    if a == [] {
      assert a + b == b;
    } else {
      RunConcat(Next(n, a[0]), a[1..], b);
      RunFrom(n, a[0], a[1..] + b);
      assert a + b == [a[0]] + (a[1..] + b);
    }
  }

  /** A change reported committed, nothing left to push, and the hardware runs something else. */
  lemma CommittedIsNotInForce() returns (run: seq<Step>)
    requires CONFIRM_MIN <= CONFIRM_MAX
    ensures Start(Booted()) && AllowedRun(Booted(), run)
    ensures var n := Run(Booted(), run);
            && Is(n, Committed) && !n.pushCommitted && n.hardware != n.ram.committed.config
  {
    hide Run, AllowedRun, Next;
    UnluckyRun();
    StartInv(Booted());
    RunKeeps(Booted(), UNLUCKY);
    var rest := ClobberedChangeCommits(Run(Booted(), UNLUCKY));
    run := UNLUCKY + rest;
    RunConcat(Booted(), UNLUCKY, rest);
  }
}
