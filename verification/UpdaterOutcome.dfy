/** What an install comes to, over whole runs from power-on: for its job, for the chip, and after a restart. */
module UpdaterOutcome {
  import opened Options
  import opened Updater
  import opened UpdaterSafety
  import Jobs

  /** The device with the power just on: whatever journal is on storage, whatever jobs there are. */
  function PowerOn(stored: Option<Journal>, table: Jobs.Table): State {
    State(false, BLANK, false, false, Idle, 0, Preflight, NOTHING, NO_WORK, stored, table, false, false)
  }

  ghost predicate Reaches(a: State, b: State) { exists es :: Possible(a, es) && Run(a, es) == b }

  /** Some run from power-on leads here. */
  ghost predicate Reachable(s: State) {
    exists stored, table :: Jobs.Valid(table) && Reaches(PowerOn(stored, table), s)
  }

  lemma PowerOnFits(stored: Option<Journal>, table: Jobs.Table)
    requires Jobs.Valid(table)
    ensures Inv(PowerOn(stored, table))
  {
    hide Jobs.Valid, Jobs.Find;
  }

  lemma ReachableFits(s: State)
    requires Reachable(s)
    ensures Inv(s)
  {
    hide Inv, Next, Enabled;
    var stored, table :| Jobs.Valid(table) && Reaches(PowerOn(stored, table), s);
    var es :| Possible(PowerOn(stored, table), es) && Run(PowerOn(stored, table), es) == s;
    PowerOnFits(stored, table);
    RunKeeps(PowerOn(stored, table), es);
  }

  // ---- The point of no return ----------------------------------------------------------------------

  /**
   * The loader's begin is called on a job that is running, and that no request of anyone else, however
   * many there are, will cancel or evict.
   */
  lemma BeginIsBeyondCancel(s: State, calls: seq<(Jobs.Call, int)>)
    requires Reachable(s) && s.pc.BeginFlash?
    requires forall c | c in calls :: Jobs.LeavesToOwner(c.0, s.job)
    ensures Jobs.Find(s.table, s.job).Some? && Jobs.Find(s.table, s.job).value.state.Running?
    ensures Jobs.Find(Jobs.Calls(s.table, calls), s.job) == Jobs.Find(s.table, s.job)
  {
    hide Jobs.Find, Jobs.Calls, Jobs.Valid;
    ReachableFits(s);
    assert Jobs.Active(s.table, s.job);
    Jobs.NeverEvictedNorCancelled(s.table, calls, s.job);
  }

  /** A chip that was touched, and a cancelled job, never go together. */
  lemma TouchedIsNeverCancelled(s: State)
    requires Reachable(s) && InRun(s) && s.work.touched
    ensures Jobs.Find(s.table, s.job).Some? ==> !Jobs.Find(s.table, s.job).value.state.Cancelled?
    ensures !IsAborting(s.pc) && s.pc != End(None)
  {
    hide Jobs.Find, Jobs.Valid;
    ReachableFits(s);
  }

  // ---- The outcome ---------------------------------------------------------------------------------

  /** What the last update says once the run has ended: a success wrote and verified everything. */
  lemma OutcomeIsTheJobs(s: State, a: Answer)
    requires Reachable(s) && s.pc.End? && s.pc.summary.Some?
    ensures var j := Jobs.Find(s.table, s.job);
            var last := Step(s, a).journal.last;
            && last.Some? && last.value.job == s.job && !Step(s, a).journal.active
            && (last.value.ending.Succeeded? ==>
                  (j.Some? ==> j.value.state.Succeeded?) && s.work.verified && s.work.off == s.work.size)
            && (last.value.ending.Failed? ==>
                  && (last.value.recoveryRequired <==> s.work.touched)
                  && (j.Some? ==> j.value.state.Failed? || (j.value.state.Cancelled? && !s.work.touched)))
            && !last.value.ending.Interrupted?
  {
    hide Jobs.Find, Jobs.Valid;
    ReachableFits(s);
  }

  /** A failed install fails its job exactly if no cancel has come after the last look for one. */
  lemma FailsUnlessCancelled(s: State, a: Answer)
    requires Reachable(s) && s.pc.FailJob?
    ensures var j, j' := Jobs.Find(s.table, s.job), Jobs.Find(Step(s, a).table, s.job);
            && (j'.Some? && j'.value.state.Failed? <==> !Cancelled(s.table, s.job))
            && (Cancelled(s.table, s.job) ==> j' == j && !s.work.touched)
            && Step(s, a).pc.End? && Step(s, a).pc.summary.Some? && Step(s, a).pc.summary.value.ending.Failed?
  {
    hide Jobs.Find, Jobs.Valid, Jobs.Fail;
    ReachableFits(s);
    Jobs.FailEffect(s.table, s.job, true, a.now);
  }

  /** On every path the image and the loader are closed once each if they were opened, and not otherwise. */
  lemma ClosedExactlyOnce(s: State)
    requires Reachable(s) && !InRun(s)
    ensures s.held.closes == s.held.opens <= 1 && s.held.handbacks == s.held.sessions <= 1
    ensures !s.held.image && !s.held.loader
  {
    hide Jobs.Find, Jobs.Valid;
    ReachableFits(s);
  }

  // ---- After a restart -----------------------------------------------------------------------------

  /** The restart finds an install under way, and calls it interrupted. */
  predicate Reports(off: State, job: nat, recovery: bool) {
    var j := Loaded(off, true);
    j.active && Reported(j).last == Some(Summary(job, Interrupted, recovery, j.phase))
  }

  /**
   * When the power goes after the loader's begin was called, the restart asks for recovery exactly if a
   * save at that phase or later has reached storage; and so does every restart after it.
   */
  lemma RestartAsksForRecovery(s: State, table: Jobs.Table, io: Io)
    requires Reachable(s) && InRun(s) && s.work.touched
    ensures Reports(Off(s, table), s.job, true) <==> s.named
    ensures var r := Init(Off(s, table), true, io);
            && (s.named ==> r.stored.Some? && Reported(r.stored.value).last == Reported(s.stored.value).last)
            && (s.named && !io.cut ==> r.ready && !r.journal.active && r.journal.last == Reported(s.stored.value).last)
  {
    hide Jobs.Find, Jobs.Valid;
    ReachableFits(s);
  }

  /** A save that is not cut off succeeds. */
  predicate Reliable(e: Event) {
    match e
    case InitE(_, io) => io.cut || (io.done && io.ok)
    case StartSavedE(io) => io.cut || (io.done && io.ok)
    case RunE(a) => a.io.cut || (a.io.done && a.io.ok)
    case _ => true
  }

  ghost predicate ReliablyReaches(a: State, b: State) {
    exists es :: Possible(a, es) && (forall i | 0 <= i < |es| :: Reliable(es[i])) && Run(a, es) == b
  }

  predicate BeforeFirstSave(pc: Pc) {
    pc.Claim? || pc == Enter(Preflight) || (pc.Save? && pc.phase.Preflight?) || IsAborting(pc) || pc == End(None)
  }

  /** What reliable saves add: the journal on storage is this install's, and as far as the run. */
  predicate Sound(s: State) {
    && (InRun(s) && !s.pc.Save? && Erasing(s.phase) ==> s.named)
    && (s.pc.Save? && Erasing(s.pc.phase) && !s.pc.phase.Begin? ==> s.named)
    && (s.pending || InRun(s) ==>
          && (s.overwritten <==> !(s.stored.Some? && s.stored.value.active))
          && (!s.overwritten ==> s.stored.value.job == s.journal.job))
    && (InRun(s) && !BeforeFirstSave(s.pc) ==> !s.overwritten)
  }

  lemma RequestsSound(s: State, e: Event)
    requires Kept(s) && Sound(s) && Enabled(s, e) && Reliable(e) && !e.RunE?
    ensures Sound(Next(s, e))
  {
    hide HeldFits, DoneFits, ForInstall, Jobs.Valid, Jobs.Find, Jobs.Apply, Jobs.LeavesToOwner;
  }

  lemma SavesSound(s: State, a: Answer)
    requires Kept(s) && Sound(s) && Reliable(RunE(a)) && (s.pc.Save? || s.pc.EndSave? || s.pc.End?)
    ensures Sound(Step(s, a))
  {
    hide HeldFits, DoneFits, Jobs.Valid, Jobs.Find;
  }

  lemma StepSound(s: State, a: Answer)
    requires Kept(s) && Sound(s) && !s.pc.Save? && !s.pc.EndSave? && !s.pc.End?
    ensures Sound(Step(s, a))
  {
    hide HeldFits, DoneFits, Jobs.Valid, Jobs.Find, Jobs.SetState, Jobs.SetCancellable, Jobs.Fail, Cancelled;
  }

  lemma NextSound(s: State, e: Event)
    requires Inv(s) && Sound(s) && Enabled(s, e) && Reliable(e)
    ensures Sound(Next(s, e))
  {
    hide Step, Sound, JournalFits, HeldFits, DoneFits, NamedFits, JobFits, Init, Off, Start, StartSaved;
    if !e.RunE? {
      RequestsSound(s, e);
    } else if s.pc.Save? || s.pc.EndSave? || s.pc.End? {
      SavesSound(s, e.answer);
    } else {
      StepSound(s, e.answer);
    }
  }

  lemma {:induction false} RunSound(s: State, es: seq<Event>)
    requires Inv(s) && Sound(s) && Possible(s, es) && forall i | 0 <= i < |es| :: Reliable(es[i])
    ensures Inv(Run(s, es)) && Sound(Run(s, es))
    decreases |es|
  {
    hide Inv, Sound, Next, Enabled, Reliable;
    if es != [] {
      NextKeeps(s, es[0]);
      NextSound(s, es[0]);
      RunSound(Next(s, es[0]), es[1..]);
    }
  }

  /**
   * With saves that succeed: wherever the power goes between acceptance and end, the restart reports this
   * install as interrupted, unless the last save of the run before it came after its own; and once the
   * chip was touched, as one to recover from.
   */
  lemma RestartReportsAccepted(stored: Option<Journal>, table: Jobs.Table, s: State, off: Jobs.Table)
    requires Jobs.Valid(table) && ReliablyReaches(PowerOn(stored, table), s) && (s.pending || InRun(s))
    ensures !s.overwritten <==> exists recovery :: Reports(Off(s, off), s.journal.job, recovery)
    ensures InRun(s) && !BeforeFirstSave(s.pc) ==> !s.overwritten
    ensures InRun(s) && s.work.touched ==> Reports(Off(s, off), s.job, true)
  {
    hide Jobs.Find, Jobs.Valid;
    ReliableFits(stored, table, s);
    if !s.overwritten {
      assert Reports(Off(s, off), s.journal.job, Erasing(s.stored.value.phase));
    }
  }

  lemma ReliableFits(stored: Option<Journal>, table: Jobs.Table, s: State)
    requires Jobs.Valid(table) && ReliablyReaches(PowerOn(stored, table), s)
    ensures Inv(s) && Sound(s)
  {
    hide Inv, Next, Enabled, Reliable, Jobs.Valid;
    var es :| Possible(PowerOn(stored, table), es) && (forall i | 0 <= i < |es| :: Reliable(es[i]))
        && Run(PowerOn(stored, table), es) == s;
    PowerOnFits(stored, table);
    RunSound(PowerOn(stored, table), es);
  }

  /** Nobody asks for an install between the end of a run and its last save. */
  ghost predicate Patient(s: State, es: seq<Event>)
    requires Possible(s, es)
    decreases |es|
  {
    es != [] ==> (es[0].StartE? ==> !s.pc.EndSave?) && Patient(Next(s, es[0]), es[1..])
  }

  predicate Apart(s: State) { (s.pc.EndSave? ==> !s.pending && !s.starting)
      && (s.pending || InRun(s) ==> !s.overwritten) }

  /** ... then no accepted install is overwritten. */
  lemma {:induction false} PatientIsNeverOverwritten(s: State, es: seq<Event>)
    requires Inv(s) && Apart(s) && Possible(s, es) && Patient(s, es)
    ensures Apart(Run(s, es))
    decreases |es|
  {
    hide Inv, Apart, Next, Enabled;
    if es != [] {
      NextKeeps(s, es[0]);
      NextApart(s, es[0]);
      PatientIsNeverOverwritten(Next(s, es[0]), es[1..]);
    }
  }

  lemma NextApart(s: State, e: Event)
    requires Inv(s) && Apart(s) && Enabled(s, e) && (e.StartE? ==> !s.pc.EndSave?)
    ensures Apart(Next(s, e))
  {
    hide HeldFits, DoneFits, JobFits, NamedFits, ForInstall, Jobs.Valid, Jobs.Find, Jobs.Apply, Jobs.LeavesToOwner;
    hide Jobs.SetState, Jobs.SetCancellable, Jobs.Fail, Cancelled;
  }

  // ---- Runs that go wrong --------------------------------------------------------------------------

  lemma {:induction false} RunOne(s: State, es: seq<Event>, e: Event)
    requires Possible(s, es) && Enabled(Run(s, es), e)
    ensures Possible(s, es + [e]) && Run(s, es + [e]) == Next(Run(s, es), e)
    decreases |es|
  {
    hide Next, Enabled;
    if es == [] {
      assert [e][1..] == [] && es + [e] == [e];
    } else {
      RunOne(Next(s, es[0]), es[1..], e);
      assert (es + [e])[1..] == es[1..] + [e];
    }
  }

  /** Some run in which no save failed leads here. */
  ghost predicate ReliablyReachable(s: State) {
    exists stored, table :: Jobs.Valid(table) && ReliablyReaches(PowerOn(stored, table), s)
  }

  lemma ReliablyNext(s: State, e: Event)
    requires ReliablyReachable(s) && Enabled(s, e) && Reliable(e)
    ensures ReliablyReachable(Next(s, e))
  {
    hide Next, Enabled, Reliable, Jobs.Valid;
    var stored, table :| Jobs.Valid(table) && ReliablyReaches(PowerOn(stored, table), s);
    var a := PowerOn(stored, table);
    var es :| Possible(a, es) && (forall i | 0 <= i < |es| :: Reliable(es[i])) && Run(a, es) == s;
    RunOne(a, es, e);
    assert ReliablyReaches(a, Next(s, e));
  }

  lemma ReachableNext(s: State, e: Event)
    requires Reachable(s) && Enabled(s, e)
    ensures Reachable(Next(s, e))
  {
    hide Next, Enabled, Jobs.Valid;
    var stored, table :| Jobs.Valid(table) && Reaches(PowerOn(stored, table), s);
    var es :| Possible(PowerOn(stored, table), es) && Run(PowerOn(stored, table), es) == s;
    RunOne(PowerOn(stored, table), es, e);
  }

  const GOOD: Io := Io(true, true, false)
  const LOST: Io := Io(false, false, false)

  function Yes(io: Io): Answer { Answer(true, true, false, false, 1, false, true, io, 0) }

  predicate Waits(t: Jobs.Table, job: nat) {
    job <= t.counter && Jobs.Find(t, job).Some? && Jobs.Find(t, job).value.state.Queued?
        && Jobs.Find(t, job).value.cancellable
  }

  /** An install that has just been accepted on a device that never had one. */
  predicate JustAccepted(s: State, t: Jobs.Table, job: nat) {
    && s.ready && s.pending && !s.starting && s.pc.Idle? && s.table == t
    && s.journal.active && s.journal.job == job && s.journal.phase.Preflight? && s.stored == Some(s.journal)
  }

  lemma Accepted(t: Jobs.Table, job: nat) returns (s: State)
    requires Jobs.Valid(t) && Waits(t, job)
    ensures Reachable(s) && ReliablyReachable(s) && JustAccepted(s, t, job)
  {
    hide Jobs.Valid, Jobs.Find;
    s := PowerOn(None, t);
    assert Reaches(s, s) && ReliablyReaches(s, s) by {
      assert Possible(s, []) && Run(s, []) == s;
    }
    s := Did(s, InitE(true, GOOD));
    s := Did(s, StartE(1, job, false));
    s := Did(s, StartSavedE(GOOD));
  }

  lemma Did(s: State, e: Event) returns (t: State)
    requires Reachable(s) && Enabled(s, e)
    ensures Reachable(t) && t == Next(s, e)
    ensures ReliablyReachable(s) && Reliable(e) ==> ReliablyReachable(t)
  {
    hide Reachable, ReliablyReachable, Next, Enabled, Reliable;
    t := Next(s, e);
    ReachableNext(s, e);
    if ReliablyReachable(s) && Reliable(e) {
      ReliablyNext(s, e);
    }
  }

  /** The run takes a job that waits, and looks for a cancel. */
  lemma Taken(t: Jobs.Table, job: nat) returns (s: State)
    requires Jobs.Valid(t) && Waits(t, job)
    ensures Reachable(s) && s.pc.OpenImage? && s.job == job && s.ready && Jobs.Find(s.table, job).Some?
    ensures Jobs.Find(s.table, job).value.state.Running? && Jobs.Find(s.table, job).value.cancellable
  {
    hide Jobs.Valid, Jobs.Find, Reachable, Jobs.SetState;
    s := Accepted(t, job);
    s := Did(s, RunE(Yes(GOOD)));
    SetStateOf(s.table, job, Jobs.Running, 0);
    ReachableFits(s);
    s := Did(s, RunE(Yes(GOOD)));
    s := Did(s, RunE(Yes(GOOD)));
    s := Did(s, RunE(Yes(GOOD)));
    s := Did(s, RunE(Yes(GOOD)));
  }

  /** ... and comes to the point of no return. */
  lemma Connected(t: Jobs.Table, job: nat) returns (s: State)
    requires Jobs.Valid(t) && Waits(t, job)
    ensures Reachable(s) && s.pc.NoReturn? && s.job == job && s.ready && Jobs.Find(s.table, job).Some?
    ensures Jobs.Find(s.table, job).value.state.Running?
  {
    hide Jobs.Valid, Jobs.Find, Reachable;
    s := Taken(t, job);
    s := Did(s, RunE(Yes(GOOD)));
    s := Did(s, RunE(Yes(GOOD)));
    s := Did(s, RunE(Yes(GOOD)));
    s := Did(s, RunE(Yes(GOOD)));
    s := Did(s, RunE(Yes(GOOD)));
    s := Did(s, RunE(Yes(GOOD)));
  }

  /**
   * Losing a save can lose more than the report of an interruption: when the save at the begin phase
   * fails, the erasing starts all the same, and a restart says that nothing needs recovery.
   */
  lemma LostSaveHidesErasure(t: Jobs.Table, job: nat, off: Jobs.Table) returns (s: State)
    requires Jobs.Valid(t) && Waits(t, job)
    ensures Reachable(s) && InRun(s) && s.job == job && s.work.touched && !s.named
    ensures !Reports(Off(s, off), job, true)
  {
    hide Jobs.Valid, Jobs.Find, Reachable, Jobs.SetCancellable;
    s := Connected(t, job);
    ReachableFits(s);
    SetCancellableOf(s.table, job, 0);
    s := Did(s, RunE(Yes(GOOD)));
    s := Did(s, RunE(Yes(GOOD)));
    ReachableFits(s);
    s := Did(s, RunE(Yes(LOST)));
    s := Did(s, RunE(Yes(LOST)));
    RestartAsksForRecovery(s, off, GOOD);
  }

  /** A cancel after the last look, and then a failure. */
  lemma CancelledLate(t: Jobs.Table, job: nat) returns (s: State)
    requires Jobs.Valid(t) && Waits(t, job)
    ensures Reachable(s) && s.pc.FailJob? && s.job == job && Jobs.Find(s.table, job).Some?
    ensures Jobs.Find(s.table, job).value.state.Cancelled?
  {
    hide Jobs.Valid, Jobs.Find, Reachable, ReliablyReachable, Jobs.Cancel;
    s := Taken(t, job);
    ReachableFits(s);
    CancelOf(s.table, job, 0);
    s := Did(s, JobE(Jobs.CancelCall(job), 0));
    s := Did(s, RunE(Yes(GOOD).(ok := false)));
    s := Did(s, RunE(Yes(GOOD)));
    s := Did(s, RunE(Yes(GOOD)));
  }

  /** The job is cancelled then, and the last update says failed. */
  lemma CancelledButFailed(t: Jobs.Table, job: nat) returns (s: State)
    requires Jobs.Valid(t) && Waits(t, job)
    ensures Reachable(s) && Jobs.Find(s.table, job).Some? && Jobs.Find(s.table, job).value.state.Cancelled?
    ensures !s.journal.active && s.journal.last.Some?
    ensures s.journal.last.value.job == job && s.journal.last.value.ending.Failed?
        && !s.journal.last.value.recoveryRequired
  {
    hide Jobs.Valid, Jobs.Find, Reachable, ReliablyReachable, Jobs.Fail;
    s := CancelledLate(t, job);
    ReachableFits(s);
    FailsUnlessCancelled(s, Yes(GOOD));
    s := Did(s, RunE(Yes(GOOD)));
    OutcomeIsTheJobs(s, Yes(GOOD));
    s := Did(s, RunE(Yes(GOOD)));
  }

  /** A run that finds its job cancelled comes to its last save. */
  lemma EndsCancelled(t: Jobs.Table, first: nat, second: nat) returns (s: State)
    requires Jobs.Valid(t) && Waits(t, first) && Waits(t, second) && first != second
    ensures ReliablyReachable(s) && Reachable(s) && s.pc.EndSave? && s.ready && !s.journal.active
        && Waits(s.table, second)
  {
    hide Jobs.Valid, Jobs.Find, Reachable, ReliablyReachable, Jobs.SetState, Jobs.Cancel;
    s := Accepted(t, first);
    CancelOf(t, first, 0);
    Jobs.TouchesOneJob(t, Jobs.CancelCall(first), 0);
    s := Did(s, JobE(Jobs.CancelCall(first), 0));
    SetStateOf(s.table, first, Jobs.Running, 0);
    s := Did(s, RunE(Yes(GOOD)));
    s := Did(s, RunE(Yes(GOOD)));
    s := Did(s, RunE(Yes(GOOD)));
    s := Did(s, RunE(Yes(GOOD)));
    s := Did(s, RunE(Yes(GOOD)));
  }

  /**
   * An install is accepted between the end of a cancelled run and that run's last save, which then
   * overwrites it: every save succeeds, and a restart reports nothing.
   */
  lemma LateSaveOverwrites(t: Jobs.Table, first: nat, second: nat, off: Jobs.Table) returns (s: State)
    requires Jobs.Valid(t) && Waits(t, first) && Waits(t, second) && first != second
    ensures ReliablyReachable(s) && s.pending && s.journal.job == second && s.overwritten
    ensures forall recovery :: !Reports(Off(s, off), second, recovery)
  {
    hide Jobs.Valid, Jobs.Find, Reachable, ReliablyReachable;
    s := EndsCancelled(t, first, second);
    ReachableFits(s);
    s := Did(s, StartE(2, second, false));
    s := Did(s, StartSavedE(GOOD));
    s := Did(s, RunE(Yes(GOOD)));
  }
}
