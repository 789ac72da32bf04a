/** What holds of an install in every run: its job, what it holds, and what a restart says of it. */
module UpdaterSafety {
  import opened Options
  import opened Updater
  import Jobs

  // ---- Where a step belongs --------------------------------------------------------------------------

  /** The phase the journal shows while the run is at pc. */
  function PhaseAt(pc: Pc): Option<Phase> {
    match pc
    case Claim => Some(Preflight)
    case Enter(p) => Some(Before(p))
    case Save(p, _) => Some(p)
    case Look(p) => Some(p)
    case OpenImage => Some(Preflight)
    case CheckUart => Some(Preflight)
    case OpenLoader => Some(Entering)
    case NoReturn => Some(Entering)
    case BeginFlash => Some(Begin)
    case Chunk => Some(Writing)
    case Finish => Some(Verifying)
    case CloseImage => Some(Reconnecting)
    case CloseLoader => Some(Reconnecting)
    case Health => Some(HealthCheck)
    case Succeed => Some(Complete)
    case _ => None
  }

  function Before(p: Phase): Phase {
    match p
    case Preflight => Preflight
    case Entering => Preflight
    case Begin => Entering
    case Writing => Begin
    case Verifying => Writing
    case Reconnecting => Verifying
    case HealthCheck => Reconnecting
    case Complete => HealthCheck
  }

  predicate IsFailing(pc: Pc) { pc.FailLoader? || pc.FailImage? || pc.FailJob? }

  predicate IsAborting(pc: Pc) { pc.AbortLoader? || pc.AbortImage? }

  /** The image is open for reading. */
  predicate HoldsImage(pc: Pc) {
    match pc
    case CheckUart => true
    case Enter(p) => 0 < Rank(p) <= Rank(Reconnecting)
    case Save(p, _) => 0 < Rank(p) <= Rank(Reconnecting)
    case Look(p) => p.Entering?
    case OpenLoader => true
    case NoReturn => true
    case BeginFlash => true
    case Chunk => true
    case Finish => true
    case CloseImage => true
    case _ => false
  }

  predicate HoldsLoader(pc: Pc) {
    match pc
    case NoReturn => true
    case Enter(p) => Rank(Begin) <= Rank(p) <= Rank(Reconnecting)
    case Save(p, _) => Rank(Begin) <= Rank(p) <= Rank(Reconnecting)
    case BeginFlash => true
    case Chunk => true
    case Finish => true
    case CloseImage => true
    case CloseLoader => true
    case _ => false
  }

  /** Past the point of no return, short of the job's end. */
  predicate Locked(s: State) {
    match s.pc
    case Enter(p) => Erasing(p)
    case Save(p, _) => Erasing(p)
    case BeginFlash => true
    case Chunk => true
    case Finish => true
    case CloseImage => true
    case CloseLoader => true
    case Health => true
    case Succeed => true
    case _ => IsFailing(s.pc) && s.work.pastBegin
  }

  // ---- What is kept --------------------------------------------------------------------------------

  predicate JournalFits(s: State) {
    && (s.journal.active <==> s.pending || s.starting || InRun(s))
    && !(s.pending && s.starting) && (InRun(s) ==> !s.pending && !s.starting && s.journal.job == s.job)
    && (s.pending || s.starting ==> s.journal.phase == Preflight)
    && (!s.ready ==> s.pc.Idle? && !s.journal.active)
    && (s.pc.Save? ==> s.pc.copy == s.journal) && (s.pc.EndSave? ==> !s.pc.copy.active)
    && (InRun(s) ==> s.journal.phase == s.phase)
    && (PhaseAt(s.pc).Some? ==> s.phase == PhaseAt(s.pc).value)
    && (s.pc.Look? ==> s.pc.phase.Preflight? || s.pc.phase.Entering?)
  }

  /** Whatever is open is closed once: nothing is open outside the run, and each open has its close. */
  predicate HeldAt(pc: Pc, h: Held) {
    && h.opens == h.closes + (if h.image then 1 else 0) && h.opens <= 1
    && h.sessions == h.handbacks + (if h.loader then 1 else 0) && h.sessions <= 1
    && (PhaseAt(pc).Some? ==> h.image == HoldsImage(pc) && h.loader == HoldsLoader(pc))
    && (PhaseAt(pc).Some? && h.sessions == 1 && !h.loader ==> Rank(PhaseAt(pc).value) >= Rank(Reconnecting))
    && (PhaseAt(pc).Some? && h.opens == 1 && !h.image ==> Rank(PhaseAt(pc).value) >= Rank(Reconnecting))
    && (h.loader ==> PhaseAt(pc).Some? || pc.FailLoader? || pc.AbortLoader?)
    && (h.image ==> PhaseAt(pc).Some? || pc.FailLoader? || pc.FailImage? || IsAborting(pc))
  }

  /** What the run has done, by where it is. */
  predicate WorkAt(pc: Pc, phase: Phase, w: Work) {
    && (pc.Save? ==> (w.pastBegin <==> Erasing(pc.phase) && !pc.phase.Begin?))
    && (!pc.Save? && !pc.Idle? && !pc.EndSave? ==> (w.pastBegin <==> Erasing(phase)))
    && (w.touched ==> w.pastBegin)
    && (w.pastBegin && !pc.Idle? && !pc.EndSave? && !pc.BeginFlash? ==> w.touched)
    && w.off <= w.size
    && (PhaseAt(pc).Some? && Rank(phase) < Rank(Writing) ==> w.off == 0)
    && (PhaseAt(pc).Some? && Rank(phase) >= Rank(Verifying) ==> w.off == w.size)
    && (pc == Enter(Verifying) ==> w.off == w.size)
    && (PhaseAt(pc).Some? && Rank(phase) >= Rank(Reconnecting) ==> w.verified)
    && (pc == Enter(Reconnecting) ==> w.verified)
    && (IsAborting(pc) || pc == End(None) ==> !w.pastBegin)
  }

  predicate HeldFits(s: State) { HeldAt(s.pc, s.held) }

  predicate DoneFits(s: State) { WorkAt(s.pc, s.phase, s.work) }

  /** What the job can be, as far as the run and the requests of others can have brought it. */
  predicate Suits(s: State, j: Option<Jobs.Job>) {
    if Locked(s) then j.Some? && j.value.state.Running? && !j.value.cancellable
    else
      match s.pc
      case Claim => true
      case AbortLoader => j.None? || j.value.state.Cancelled?
      case AbortImage => j.None? || j.value.state.Cancelled?
      case End(None) => j.None? || j.value.state.Cancelled?
      case End(Some(sum)) => sum.job == s.job && sum.phase == s.phase && Tells(s, sum, j)
      case _ => j.Some? ==> j.value.state.Running? || j.value.state.Cancelled?
  }

  /** The outcome is the job's, but for a cancel that came before the chip was touched. */
  predicate Tells(s: State, sum: Summary, j: Option<Jobs.Job>) {
    if sum.ending.Succeeded? then
      (j.Some? ==> j.value.state.Succeeded?) && !sum.recoveryRequired && s.work.verified && s.work.off == s.work.size
    else
      && sum.ending.Failed? && sum.recoveryRequired == s.work.pastBegin == s.work.touched
      && (j.Some? ==> j.value.state.Failed? || (j.value.state.Cancelled? && !s.work.pastBegin))
  }

  ghost predicate JobFits(s: State) {
    && Jobs.Valid(s.table)
    && (s.pending || s.starting || s.pc.Claim? ==> ForInstall(s.table, s.journal.job))
    && (InRun(s) ==> s.job <= s.table.counter && Suits(s, Jobs.Find(s.table, s.job)))
  }

  /** A save since the loader's begin is what storage shows of it. */
  predicate NamedFits(s: State) {
    && (s.pending || InRun(s) ==> (s.named <==> s.stored.Some? && s.stored.value.active
                                                && Erasing(s.stored.value.phase)))
    && (s.named && InRun(s) ==> s.stored.value.job == s.job && Erasing(s.phase))
    && (s.pending ==> !s.named) && (s.pc.Save? && s.pc.phase.Begin? ==> !s.named)
  }

  ghost predicate Inv(s: State) {
    JournalFits(s) && HeldFits(s) && DoneFits(s) && JobFits(s) && NamedFits(s)
  }

  // ---- Every step keeps it -----------------------------------------------------------------------

  lemma SetStateOf(t: Jobs.Table, id: nat, to: Jobs.State, now: int)
    requires Jobs.Valid(t)
    ensures var (u, rc) := Jobs.SetState(t, id, to, now);
            var r := Jobs.Find(t, id);
            && Jobs.Valid(u) && u.counter == t.counter
            && (rc.Ok? <==> r.Some? && Jobs.Allowed(r.value.state, to))
            && (if rc.Ok? then Jobs.Find(u, id).Some? && Jobs.Find(u, id).value.state == to
                   && Jobs.Find(u, id).value.cancellable == (r.value.cancellable && !Jobs.Terminal(to)) else u == t)
  {
    Jobs.SetStateEffect(t, id, to, now);
  }

  lemma SetCancellableOf(t: Jobs.Table, id: nat, now: int)
    requires Jobs.Valid(t)
    ensures var (u, rc) := Jobs.SetCancellable(t, id, false, now);
            var r := Jobs.Find(t, id);
            && Jobs.Valid(u) && u.counter == t.counter
            && (rc.Ok? <==> r.Some? && !Jobs.Terminal(r.value.state))
            && (if rc.Ok? then Jobs.Find(u, id) == Some(r.value.(cancellable := false, updated := now)) else u == t)
  {
    Jobs.FindHasId(t, id);
    if Jobs.Find(t, id).Some? {
      Jobs.UpdateFinds(t, id, Jobs.Find(t, id).value.(cancellable := false, updated := now));
    }
  }

  /** What a call of another thread can do to the job of this install. */
  lemma OthersEffect(t: Jobs.Table, c: Jobs.Call, now: int, id: nat)
    requires Jobs.Valid(t) && Jobs.LeavesToOwner(c, id) && id <= t.counter
    ensures var u := Jobs.Apply(t, c, now);
            var r, r' := Jobs.Find(t, id), Jobs.Find(u, id);
            && Jobs.Valid(u) && t.counter <= u.counter
            && (r.None? ==> r'.None?)
            && (r.Some? && Jobs.Terminal(r.value.state) ==> r' == r || r'.None?)
            && (r.Some? && !Jobs.Terminal(r.value.state) ==>
                  r' == r || (r.value.cancellable && r'.Some? && r'.value.state.Cancelled?))
  {
    Jobs.ApplyKeepsValid(t, c, now);
    Jobs.CounterGrows(t, c, now);
    var r := Jobs.Find(t, id);
    if r.None? {
      Jobs.NeverAgain(t, c, now, id);
    } else if Jobs.Terminal(r.value.state) {
      Jobs.TerminalIsFinal(t, c, now, id);
    } else if !r.value.cancellable {
      Jobs.OutOfReach(t, c, now, id);
    } else if c.CreateCall? {
      hide Jobs.Find, Jobs.Create;
      Jobs.CreateKeepsActive(t, c.p, now, c.cutoff);
      assert Jobs.Active(t, id);
    } else if c.id != id {
      hide Jobs.Find, Jobs.Apply;
      Jobs.TouchesOneJob(t, c, now);
    } else {
      CancelOf(t, id, now);
    }
  }

  lemma CancelOf(t: Jobs.Table, id: nat, now: int)
    requires Jobs.Valid(t) && Jobs.Active(t, id) && Jobs.Find(t, id).value.cancellable
    ensures var r' := Jobs.Find(Jobs.Cancel(t, id, now).0, id); r'.Some? && r'.value.state.Cancelled?
  {
    Jobs.FindHasId(t, id);
    Jobs.UpdateFinds(t, id, Jobs.Find(t, id).value.(state := Jobs.Cancelled, cancellable := false, updated := now));
  }

  /** All but the job. */
  predicate Kept(s: State) { JournalFits(s) && HeldFits(s) && DoneFits(s) && NamedFits(s) }

  /** The power goes. */
  lemma OffKeeps(s: State, table: Jobs.Table)
    ensures Kept(Off(s, table))
  {
  }

  /** The journal is loaded. */
  lemma InitKeeps(s: State, found: bool, io: Io)
    requires Kept(s) && !s.ready
    ensures Kept(Init(s, found, io))
  {
  }

  /** An install is asked for. */
  lemma StartKeeps(s: State, upload: nat, job: nat, bridge: bool)
    requires Kept(s)
    ensures Kept(Start(s, upload, job, bridge))
  {
  }

  /** ... and accepted, or not. */
  lemma StartSavedKeeps(s: State, io: Io)
    requires Kept(s) && s.starting && Truthful(io)
    ensures Kept(StartSaved(s, io))
  {
  }

  /** What the other threads ask for, and the power. */
  lemma RequestsKeep(s: State, e: Event)
    requires Kept(s) && Enabled(s, e) && !e.RunE?
    ensures Kept(Next(s, e))
  {
    hide Off, Init, Start, StartSaved, Jobs.Apply, ForInstall, Jobs.Valid, Jobs.LeavesToOwner;
    match e
    case PowerCut(table) => OffKeeps(s, table);
    case InitE(found, io) => InitKeeps(s, found, io);
    case StartE(upload, job, bridge) => StartKeeps(s, upload, job, bridge);
    case StartSavedE(io) => StartSavedKeeps(s, io);
    case JobE(_, _) =>
  }

  /** The start of the run. */
  lemma TakingKeeps(s: State, a: Answer)
    requires Kept(s) && Truthful(a.io) && (s.pc.Idle? || s.pc.Claim? || s.pc.Enter?)
    ensures Kept(Step(s, a))
  {
    hide ForInstall, Jobs.Valid, Jobs.Find, Jobs.Apply, Jobs.SetState, Jobs.SetCancellable, Jobs.Fail, Cancelled,
        Jobs.LeavesToOwner;
  }

  /** The saves of a phase. */
  lemma SavingKeeps(s: State, a: Answer)
    requires Kept(s) && Truthful(a.io) && (s.pc.Save?)
    ensures Kept(Step(s, a))
  {
    hide ForInstall, Jobs.Valid, Jobs.Find, Jobs.Apply, Jobs.SetState, Jobs.SetCancellable, Jobs.Fail, Cancelled,
        Jobs.LeavesToOwner;
  }

  /** The image is opened. */
  lemma OpeningKeeps(s: State, a: Answer)
    requires Kept(s) && Truthful(a.io) && (s.pc.Look? || s.pc.OpenImage? || s.pc.CheckUart?)
    ensures Kept(Step(s, a))
  {
    hide ForInstall, Jobs.Valid, Jobs.Find, Jobs.Apply, Jobs.SetState, Jobs.SetCancellable, Jobs.Fail, Cancelled,
        Jobs.LeavesToOwner;
  }

  /** The loader is, up to the point of no return. */
  lemma ConnectingKeeps(s: State, a: Answer)
    requires Kept(s) && Truthful(a.io) && (s.pc.OpenLoader? || s.pc.NoReturn?)
    ensures Kept(Step(s, a))
  {
    hide ForInstall, Jobs.Valid, Jobs.Find, Jobs.Apply, Jobs.SetState, Jobs.SetCancellable, Jobs.Fail, Cancelled,
        Jobs.LeavesToOwner;
  }

  /** The write. */
  lemma WritingKeeps(s: State, a: Answer)
    requires Kept(s) && Truthful(a.io) && (s.pc.Chunk?)
    ensures Kept(Step(s, a))
  {
    hide ForInstall, Jobs.Valid, Jobs.Find, Jobs.Apply, Jobs.SetState, Jobs.SetCancellable, Jobs.Fail, Cancelled,
        Jobs.LeavesToOwner;
  }

  /** Its two ends. */
  lemma BoundsKeep(s: State, a: Answer)
    requires Kept(s) && Truthful(a.io) && (s.pc.BeginFlash? || s.pc.Finish?)
    ensures Kept(Step(s, a))
  {
    hide ForInstall, Jobs.Valid, Jobs.Find, Jobs.Apply, Jobs.SetState, Jobs.SetCancellable, Jobs.Fail, Cancelled,
        Jobs.LeavesToOwner;
  }

  /** The way back to the console. */
  lemma ClosingKeeps(s: State, a: Answer)
    requires Kept(s) && Truthful(a.io) && (s.pc.CloseImage? || s.pc.CloseLoader? || s.pc.Health? || s.pc.Succeed?)
    ensures Kept(Step(s, a))
  {
    hide ForInstall, Jobs.Valid, Jobs.Find, Jobs.Apply, Jobs.SetState, Jobs.SetCancellable, Jobs.Fail, Cancelled,
        Jobs.LeavesToOwner;
  }

  /** The clean-up of a run that failed. */
  lemma FailingKeeps(s: State, a: Answer)
    requires Kept(s) && IsFailing(s.pc)
    ensures Kept(Step(s, a))
  {
    hide ForInstall, Jobs.Valid, Jobs.Find, Jobs.Apply, Jobs.SetState, Jobs.SetCancellable, Jobs.Fail, Cancelled,
        Jobs.LeavesToOwner;
  }

  /** The clean-up of one that was cancelled. */
  lemma AbortingKeeps(s: State, a: Answer)
    requires Kept(s) && IsAborting(s.pc)
    ensures Kept(Step(s, a))
  {
    hide ForInstall, Jobs.Valid, Jobs.Find, Jobs.Apply, Jobs.SetState, Jobs.SetCancellable, Jobs.Fail, Cancelled,
        Jobs.LeavesToOwner;
  }

  /** The journal's last word. */
  lemma EndingKeeps(s: State, a: Answer)
    requires Kept(s) && Truthful(a.io) && (s.pc.End? || s.pc.EndSave?)
    ensures Kept(Step(s, a))
  {
    hide ForInstall, Jobs.Valid, Jobs.Find, Jobs.Apply, Jobs.SetState, Jobs.SetCancellable, Jobs.Fail, Cancelled,
        Jobs.LeavesToOwner;
  }

  /** The requests of others for the job table. */
  lemma JobCallKeeps(s: State, c: Jobs.Call, now: int)
    requires JournalFits(s) && DoneFits(s) && JobFits(s) && Enabled(s, JobE(c, now))
    ensures JobFits(Next(s, JobE(c, now)))
  {
    hide Jobs.Find, Jobs.Valid, Jobs.Apply;
    if InRun(s) || s.starting || s.pending {
      OthersEffect(s.table, c, now, s.journal.job);
    } else {
      Jobs.ApplyKeepsValid(s.table, c, now);
    }
  }

  /** The steps of the run that change the job. */
  lemma JobStepKeeps(s: State, a: Answer)
    requires JournalFits(s) && DoneFits(s) && JobFits(s)
    requires s.pc.Claim? || s.pc.NoReturn? || s.pc.Succeed? || s.pc.FailJob?
    ensures JobFits(Step(s, a))
  {
    hide Jobs.Find, Jobs.Valid, Jobs.SetState, Jobs.SetCancellable, Jobs.Fail;
    match s.pc
    case Claim => SetStateOf(s.table, s.job, Jobs.Running, a.now);
    case NoReturn => SetCancellableOf(s.table, s.job, a.now);
    case Succeed => SetStateOf(s.table, s.job, Jobs.Succeeded, a.now);
    case FailJob => Jobs.FailEffect(s.table, s.job, true, a.now);
  }

  /** The others, and the requests for an install, leave the table alone. */
  lemma IdleKeeps(s: State, a: Answer)
    requires JournalFits(s) && DoneFits(s) && JobFits(s)
    requires s.pc.Idle? || s.pc.Enter?
    ensures JobFits(Step(s, a))
  {
    hide Jobs.Find, Jobs.Valid, Tells;
  }

  lemma StoringKeeps(s: State, a: Answer)
    requires JournalFits(s) && DoneFits(s) && JobFits(s)
    requires s.pc.Save? || s.pc.EndSave?
    ensures JobFits(Step(s, a))
  {
    hide Jobs.Find, Jobs.Valid, ForInstall, Tells;
  }

  lemma PreflightKeeps(s: State, a: Answer)
    requires JournalFits(s) && DoneFits(s) && JobFits(s)
    requires s.pc.Look? || s.pc.OpenImage? || s.pc.CheckUart? || s.pc.OpenLoader?
    ensures JobFits(Step(s, a))
  {
    hide Jobs.Find, Jobs.Valid, ForInstall, Tells;
  }

  lemma LockedKeeps(s: State, a: Answer)
    requires JournalFits(s) && DoneFits(s) && JobFits(s)
    requires s.pc.BeginFlash? || s.pc.Chunk? || s.pc.Finish? || s.pc.CloseImage? || s.pc.CloseLoader? || s.pc.Health?
    ensures JobFits(Step(s, a))
  {
    hide Jobs.Find, Jobs.Valid, ForInstall, Tells;
  }

  lemma LateKeeps(s: State, a: Answer)
    requires JournalFits(s) && DoneFits(s) && JobFits(s)
    requires s.pc.FailLoader? || s.pc.FailImage? || IsAborting(s.pc) || s.pc.End?
    ensures JobFits(Step(s, a))
  {
    hide Jobs.Find, Jobs.Valid, ForInstall, Tells;
  }

  lemma TableKeeps(s: State, e: Event)
    requires JournalFits(s) && DoneFits(s) && JobFits(s) && Enabled(s, e) && !e.JobE? && !e.RunE?
    ensures JobFits(Next(s, e))
  {
    hide Jobs.Find, Jobs.Valid;
  }

  lemma StepKeeps(s: State, a: Answer)
    requires Kept(s) && Truthful(a.io)
    ensures Kept(Step(s, a))
  {
    hide Kept, Step;
    match s.pc
    case Idle => TakingKeeps(s, a);
    case Claim => TakingKeeps(s, a);
    case Enter(_) => TakingKeeps(s, a);
    case Save(_, _) => SavingKeeps(s, a);
    case BeginFlash => BoundsKeep(s, a);
    case Chunk => WritingKeeps(s, a);
    case Finish => BoundsKeep(s, a);
    case OpenLoader => ConnectingKeeps(s, a);
    case NoReturn => ConnectingKeeps(s, a);
    case CloseImage => ClosingKeeps(s, a);
    case CloseLoader => ClosingKeeps(s, a);
    case Health => ClosingKeeps(s, a);
    case Succeed => ClosingKeeps(s, a);
    case End(_) => EndingKeeps(s, a);
    case EndSave(_) => EndingKeeps(s, a);
    case _ =>
      if IsFailing(s.pc) {
        FailingKeeps(s, a);
      } else if IsAborting(s.pc) {
        AbortingKeeps(s, a);
      } else {
        OpeningKeeps(s, a);
      }
  }

  lemma NextKeeps(s: State, e: Event)
    requires Inv(s) && Enabled(s, e)
    ensures Inv(Next(s, e))
  {
    hide Step, JournalFits, HeldFits, DoneFits, JobFits, NamedFits;
    if e.RunE? {
      StepKeeps(s, e.answer);
    } else {
      RequestsKeep(s, e);
    }
    JobKeeps(s, e);
  }

  lemma JobKeeps(s: State, e: Event)
    requires JournalFits(s) && DoneFits(s) && JobFits(s) && Enabled(s, e)
    ensures JobFits(Next(s, e))
  {
    hide Step, JournalFits, DoneFits, JobFits;
    if e.JobE? {
      JobCallKeeps(s, e.call, e.now);
    } else if e.RunE? {
      match s.pc
      case Claim => JobStepKeeps(s, e.answer);
      case NoReturn => JobStepKeeps(s, e.answer);
      case Succeed => JobStepKeeps(s, e.answer);
      case FailJob => JobStepKeeps(s, e.answer);
      case Idle => IdleKeeps(s, e.answer);
      case Enter(_) => IdleKeeps(s, e.answer);
      case Save(_, _) => StoringKeeps(s, e.answer);
      case EndSave(_) => StoringKeeps(s, e.answer);
      case Look(_) => PreflightKeeps(s, e.answer);
      case OpenImage => PreflightKeeps(s, e.answer);
      case CheckUart => PreflightKeeps(s, e.answer);
      case OpenLoader => PreflightKeeps(s, e.answer);
      case FailLoader => LateKeeps(s, e.answer);
      case FailImage => LateKeeps(s, e.answer);
      case AbortLoader => LateKeeps(s, e.answer);
      case AbortImage => LateKeeps(s, e.answer);
      case End(_) => LateKeeps(s, e.answer);
      case _ => LockedKeeps(s, e.answer);
    } else {
      TableKeeps(s, e);
    }
  }

  lemma {:induction false} RunKeeps(s: State, es: seq<Event>)
    requires Inv(s) && Possible(s, es)
    ensures Inv(Run(s, es))
    decreases |es|
  {
    hide Inv, Next, Enabled;
    if es != [] {
      NextKeeps(s, es[0]);
      RunKeeps(Next(s, es[0]), es[1..]);
    }
  }
}
