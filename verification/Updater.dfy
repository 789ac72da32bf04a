/**
 * The journalled install (coprocessor_updater.c) as one step after the other: the run on its worker, the
 * requests of other threads between any two of its steps, and the power, which may go at any of them.
 */
module Updater {
  import opened Options
  import Jobs

  const READ_BLOCK: nat := 4096

  datatype Phase = Preflight | Entering | Begin | Writing | Verifying | Reconnecting | HealthCheck | Complete

  function Rank(p: Phase): nat {
    match p
    case Preflight => 0
    case Entering => 1
    case Begin => 2
    case Writing => 3
    case Verifying => 4
    case Reconnecting => 5
    case HealthCheck => 6
    case Complete => 7
  }

  /** From here on the ROM may have erased something. */
  predicate Erasing(p: Phase) { Rank(p) >= Rank(Begin) }

  datatype Ending = Succeeded | Failed | Interrupted

  datatype Summary = Summary(job: nat, ending: Ending, recoveryRequired: bool, phase: Phase)

  datatype Journal = Journal(active: bool, phase: Phase, job: nat, upload: nat, last: Option<Summary>)

  const BLANK: Journal := Journal(false, Preflight, 0, 0, None)

  /** Where the run is: what it does next. */
  datatype Pc =
    | Idle
    | Claim
    | Enter(phase: Phase)
    | Save(phase: Phase, copy: Journal)
    | Look(phase: Phase)
    | OpenImage
    | CheckUart
    | OpenLoader
    | NoReturn
    | BeginFlash
    | Chunk
    | Finish
    | CloseImage
    | CloseLoader
    | Health
    | Succeed
    | FailLoader
    | FailImage
    | FailJob
    | AbortLoader
    | AbortImage
    | End(summary: Option<Summary>)
    | EndSave(copy: Journal)

  /** What the run has open, and how often it has opened and closed it. */
  datatype Held = Held(image: bool, loader: bool, opens: nat, closes: nat, sessions: nat, handbacks: nat)

  const NOTHING: Held := Held(false, false, 0, 0, 0, 0)

  function OpenedImage(h: Held): Held { h.(image := true, opens := h.opens + 1) }
  function ClosedImage(h: Held): Held { h.(image := false, closes := h.closes + 1) }
  function OpenedLoader(h: Held): Held { h.(loader := true, sessions := h.sessions + 1) }
  function ClosedLoader(h: Held): Held { h.(loader := false, handbacks := h.handbacks + 1) }

  /** The image's size and how much of it is written; whether the loader's begin was called, and the end verified. */
  datatype Work = Work(pastBegin: bool, touched: bool, verified: bool, size: nat, off: nat)

  const NO_WORK: Work := Work(false, false, false, 0, 0)

  /**
   * `stored` is what journal_load() would find; the last two are history: whether a save since the run
   * came to the loader's begin has reached storage, and whether the last save of an earlier run has come
   * after the one that accepted the next install.
   */
  datatype State = State(
    ready: bool, journal: Journal, pending: bool, starting: bool, pc: Pc, job: nat, phase: Phase,
    held: Held, work: Work, stored: Option<Journal>, table: Jobs.Table, named: bool, overwritten: bool)

  /** How a save ends: on storage, reported as done, cut by the power. */
  datatype Io = Io(done: bool, ok: bool, cut: bool)

  predicate Truthful(io: Io) { io.ok && !io.cut ==> io.done }

  /** What the platform, the loader, the clock and the jobs' owner answer in one step. */
  datatype Answer = Answer(ok: bool, written: bool, late: bool, bridge: bool, n: nat, deviceGone: bool,
      version: bool, io: Io, now: int)

  // ---- Power and restart -------------------------------------------------------------------------

  /** The power goes: the journal on storage is left, and a table of no jobs of this install. */
  function Off(s: State, table: Jobs.Table): State {
    State(false, BLANK, false, false, Idle, 0, Preflight, NOTHING, NO_WORK, s.stored, table, false, false)
  }

  /** What coprocessor_updater_init() makes of the journal it loads. */
  function Reported(j: Journal): Journal {
    if j.active then j.(active := false, last := Some(Summary(j.job, Interrupted, Erasing(j.phase), j.phase))) else j
  }

  function Loaded(s: State, found: bool): Journal {
    if found && s.stored.Some? then s.stored.value else BLANK
  }

  /** coprocessor_updater_init() */
  function Init(s: State, found: bool, io: Io): State {
    if s.ready && s.journal.active then s
    else
      var j := Loaded(s, found);
      var t := if j.active && io.done then s.(stored := Some(Reported(j))) else s;
      if j.active && io.cut then Off(t, t.table) else t.(ready := true, pending := false, journal := Reported(j))
  }

  // ---- Requests ------------------------------------------------------------------------------------

  /** coprocessor_updater_start(), to the end of its first lock; `bridge` is who has the UART. */
  function Start(s: State, upload: nat, job: nat, bridge: bool): State {
    if !s.ready || s.journal.active || bridge then s
    else s.(journal := s.journal.(active := true, phase := Preflight, job := job, upload := upload), starting := true)
  }

  /** ... its save, and its second lock. */
  function StartSaved(s: State, io: Io): State {
    var t := if io.done then s.(stored := Some(s.journal)) else s;
    if io.cut then Off(t, t.table)
    else if io.ok then t.(starting := false, pending := true, named := false, overwritten := false)
    else t.(starting := false, journal := t.journal.(active := false))
  }

  // ---- The run -------------------------------------------------------------------------------------

  function Failing(s: State): State { s.(pc := FailLoader) }

  /** What follows a phase's save. */
  function FirstOf(p: Phase): Pc {
    match p
    case Preflight => Look(p)
    case Entering => Look(p)
    case Begin => BeginFlash
    case Writing => Chunk
    case Verifying => Finish
    case Reconnecting => CloseImage
    case HealthCheck => Health
    case Complete => Succeed
  }

  /** Taking the accepted install. */
  function Take(s: State): State {
    if !s.ready || !s.pending then s
    else
      s.(pending := false, pc := Claim, job := s.journal.job, phase := Preflight, held := NOTHING, work := NO_WORK,
          named := false)
  }

  /** enter(), up to its save, and the save. */
  function Entered(s: State, p: Phase): State {
    var j := s.journal.(phase := p);
    s.(phase := p, journal := j, pc := Save(p, j))
  }

  function Saved(s: State, io: Io): State
    requires s.pc.Save?
  {
    var p := s.pc.phase;
    var t := if io.done then s.(stored := Some(s.pc.copy), named := s.named || Erasing(p), overwritten := false) else s;
    if io.cut then Off(t, t.table)
    else t.(pc := FirstOf(p), work := if p.Begin? then t.work.(pastBegin := true) else t.work)
  }

  predicate Cancelled(t: Jobs.Table, job: nat) {
    Jobs.Find(t, job).None? || Jobs.Find(t, job).value.state.Cancelled?
  }

  function Min(a: nat, b: nat): nat { if a < b then a else b }

  /** An empty image is closed again at once. */
  function ImageOpened(s: State, a: Answer): State {
    if !a.ok then Failing(s)
    else if a.n == 0 then Failing(s.(held := ClosedImage(OpenedImage(s.held))))
    else s.(held := OpenedImage(s.held), work := s.work.(size := a.n), pc := CheckUart)
  }

  /** One turn of the write loop: read, write, count. */
  function WriteTurn(s: State, a: Answer): State {
    if s.work.off >= s.work.size then s.(pc := Enter(Verifying))
    else if !a.ok || a.n == 0 || a.n > Min(READ_BLOCK, s.work.size - s.work.off) || !a.written then Failing(s)
    else
      var t := s.(work := s.work.(off := s.work.off + a.n));
      if a.late then Failing(t) else t
  }

  /** The next step of coprocessor_updater_run(). */
  function Step(s: State, a: Answer): State {
    match s.pc
    case Idle => Take(s)
    case Claim =>
      var (t, rc) := Jobs.SetState(s.table, s.job, Jobs.Running, a.now);
      s.(table := t, pc := if rc.Ok? then Enter(Preflight) else AbortLoader)
    case Enter(p) => Entered(s, p)
    case Save(_, _) => Saved(s, a.io)
    case Look(p) =>
      s.(pc := if Cancelled(s.table, s.job) then AbortLoader else if p.Preflight? then OpenImage else OpenLoader)
    case OpenImage => ImageOpened(s, a)
    case CheckUart => if a.bridge || a.late then Failing(s) else s.(pc := Enter(Entering))
    case OpenLoader =>
      if !a.ok then Failing(s)
      else
        var t := s.(held := OpenedLoader(s.held));
        if a.late then Failing(t) else t.(pc := NoReturn)
    case NoReturn =>
      var (t, rc) := Jobs.SetCancellable(s.table, s.job, false, a.now);
      s.(table := t, pc := if rc.Ok? then Enter(Begin) else AbortLoader)
    case BeginFlash =>
      var t := s.(work := s.work.(touched := true));
      if !a.ok || a.late then Failing(t) else t.(pc := Enter(Writing))
    case Chunk => WriteTurn(s, a)
    case Finish => if !a.ok || a.late then Failing(s)
        else s.(work := s.work.(verified := true), pc := Enter(Reconnecting))
    case CloseImage => s.(held := ClosedImage(s.held), pc := CloseLoader)
    case CloseLoader =>
      var t := s.(held := ClosedLoader(s.held));
      if !a.ok then Failing(t) else t.(pc := Enter(HealthCheck))
    case Health =>
      if !a.version || (!a.ok && !a.deviceGone) || a.late then Failing(s) else s.(pc := Enter(Complete))
    case Succeed =>
      var (t, _) := Jobs.SetState(s.table, s.job, Jobs.Succeeded, a.now);
      s.(table := t, pc := End(Some(Summary(s.job, Succeeded, false, s.phase))))
    case FailLoader =>
      s.(held := if s.held.loader then ClosedLoader(s.held) else s.held, pc := FailImage)
    case FailImage =>
      s.(held := if s.held.image then ClosedImage(s.held) else s.held, pc := FailJob)
    case FailJob =>
      var (t, _) := Jobs.Fail(s.table, s.job, true, a.now);
      s.(table := t, pc := End(Some(Summary(s.job, Failed, s.work.pastBegin, s.phase))))
    case AbortLoader =>
      s.(held := if s.held.loader then ClosedLoader(s.held) else s.held, pc := AbortImage)
    case AbortImage =>
      s.(held := if s.held.image then ClosedImage(s.held) else s.held, pc := End(None))
    case End(summary) =>
      var j := s.journal.(active := false, phase := s.phase, last := if summary.Some? then summary else s.journal.last);
      s.(journal := j, pc := EndSave(j))
    case EndSave(copy) =>
      var t := if a.io.done then s.(stored := Some(copy), overwritten := s.pending) else s;
      if a.io.cut then Off(t, t.table) else t.(pc := Idle)
  }

  // ---- Runs ----------------------------------------------------------------------------------------

  datatype Event =
    | PowerCut(table: Jobs.Table)
    | InitE(found: bool, io: Io)
    | StartE(upload: nat, job: nat, bridge: bool)
    | StartSavedE(io: Io)
    | JobE(call: Jobs.Call, now: int)
    | RunE(answer: Answer)

  /** A job that was made for this install: nobody has run it, and at most a cancel has ended it. */
  predicate ForInstall(t: Jobs.Table, job: nat) {
    job <= t.counter && (Jobs.Find(t, job).Some? ==> Jobs.Find(t, job).value.state in {Jobs.Queued, Jobs.Cancelled})
  }

  /** One init a boot, a job of its own for every install, and nobody else who moves that job. */
  ghost predicate Enabled(s: State, e: Event) {
    match e
    case PowerCut(table) => Jobs.Valid(table)
    case InitE(_, io) => !s.ready && Truthful(io)
    case StartE(_, job, _) => ForInstall(s.table, job)
    case StartSavedE(io) => s.starting && Truthful(io)
    case JobE(call, _) => InRun(s) || s.starting || s.pending ==> Jobs.LeavesToOwner(call, s.journal.job)
    case RunE(a) => Truthful(a.io)
  }

  /** The install has been taken, and its end is not yet in the journal. */
  predicate InRun(s: State) { !s.pc.Idle? && !s.pc.EndSave? }

  function Next(s: State, e: Event): State
    requires Enabled(s, e)
  {
    match e
    case PowerCut(table) => Off(s, table)
    case InitE(found, io) => Init(s, found, io)
    case StartE(upload, job, bridge) => Start(s, upload, job, bridge)
    case StartSavedE(io) => StartSaved(s, io)
    case JobE(call, now) => s.(table := Jobs.Apply(s.table, call, now))
    case RunE(a) => Step(s, a)
  }

  ghost predicate Possible(s: State, es: seq<Event>)
    decreases |es|
  {
    es != [] ==> Enabled(s, es[0]) && Possible(Next(s, es[0]), es[1..])
  }

  ghost function Run(s: State, es: seq<Event>): State
    requires Possible(s, es)
    decreases |es|
  {
    if es == [] then s else Run(Next(s, es[0]), es[1..])
  }
}
