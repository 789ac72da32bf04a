/** coprocessor_updater_run() itself, on the serial loader: the phases, the write loop, the clean-up. */
module UpdaterRun {
  import opened Bytes
  import opened Options
  import opened Updater
  import opened UpdaterSafety
  import opened UpdaterOutcome
  import Jobs
  import EspLoader

  datatype Verdict = Go | Fail | Abort

  /** The model's run leads from a to b. */
  ghost predicate Following(a: State, b: State) { Reaches(a, b) && Inv(b) }

  class Install {
    const adapter: EspLoader.Adapter

    // The journal and the job as the run sees them, and the run's own variables.
    var journal: Journal
    var pending: bool
    var stored: Option<Journal>
    var table: Jobs.Table
    var job: nat
    var phase: Phase
    var imageOpen: bool
    var loaderOpen: bool
    var pastBegin: bool

    // What the platform, the loader's library and the clock will answer, and what others will ask of the jobs.
    var answers: seq<Answer>
    var requests: seq<seq<(Jobs.Call, int)>>

    // Where this is in the model of the run, and where it began: for the proofs only.
    ghost var start: State
    ghost var at: State

    ghost predicate Tied()
      reads this
    {
      && at.ready && at.journal == journal && at.pending == pending && !at.starting
      && at.stored == stored && at.table == table
      && (!at.pc.Idle? ==>
            && at.job == job && at.phase == phase
            && at.held.image == imageOpen && at.held.loader == loaderOpen && at.work.pastBegin == pastBegin)
    }

    ghost predicate Valid()
      reads this, adapter, adapter.block
    {
      Tied() && Following(start, at) && adapter.Valid()
    }

    /** An install has been accepted, and the worker is about to take it. */
    constructor (adapter: EspLoader.Adapter, journal: Journal, stored: Option<Journal>, table: Jobs.Table,
                 answers: seq<Answer>, requests: seq<seq<(Jobs.Call, int)>>, ghost s: State)
      requires adapter.Valid() && Inv(s) && s.ready && s.pc.Idle? && s.pending && !s.starting
      requires s.journal == journal && s.stored == stored && s.table == table
      ensures Valid() && at == s == start && this.adapter == adapter
    {
      this.adapter, this.journal, pending, this.stored, this.table := adapter, journal, true, stored, table;
      job, phase, imageOpen, loaderOpen, pastBegin := 0, Preflight, false, false, false;
      this.answers, this.requests := answers, requests;
      start, at := s, s;
      new;
      assert Possible(s, []) && Run(s, []) == s;
    }

    /** The next answer; a save succeeds when nothing else is said. */
    method Ask() returns (a: Answer)
      modifies `answers
      ensures Truthful(a.io) && !a.io.cut
    {
      if answers == [] {
        a := Yes(GOOD);
      } else {
        a := answers[0];
        a := a.(io := Io(a.io.done || a.io.ok, a.io.ok, false));
        answers := answers[1..];
      }
    }

    /** The step that has just been taken. */
    ghost method Step(a: Answer)
      requires Following(start, at) && Truthful(a.io)
      modifies `at
      ensures Following(start, at) && at == Updater.Step(old(at), a)
    {
      hide Inv, Updater.Step, Reaches;
      NextKeeps(at, RunE(a));
      ReachesNext(start, at, RunE(a));
      at := Next(at, RunE(a));
    }

    /** One call of another thread on the jobs; nobody else moves the job of this install. */
    method OtherCall(c: Jobs.Call, now: int)
      requires Tied() && Following(start, at) && InRun(at)
      modifies `table, `at
      ensures Tied() && Following(start, at) && at == old(at).(table := table)
    {
      hide Inv, Reaches, Jobs.Apply;
      if c.CreateCall? || c.CancelCall? || c.id != journal.job {
        NextKeeps(at, JobE(c, now));
        ReachesNext(start, at, JobE(c, now));
        table := Jobs.Apply(table, c, now);
        at := Next(at, JobE(c, now));
      }
    }

    /** What other threads do to the jobs while the run is between two steps. */
    method Others()
      requires Valid() && InRun(at)
      modifies `table, `at, `requests
      ensures Valid() && at == old(at).(table := table)
    {
      hide Following, EspLoader.Adapter.Valid;
      if requests == [] {
        return;
      }
      var calls := requests[0];
      requests := requests[1..];
      var i := 0;
      while i < |calls|
        invariant i <= |calls| && Tied() && Following(start, at) && InRun(at) && at == old(at).(table := table)
        modifies `table, `at
      {
        OtherCall(calls[i].0, calls[i].1);
        i := i + 1;
      }
    }

    /** enter() up to its save. */
    method Announce(p: Phase) returns (copy: Journal)
      requires Valid() && at.pc == Enter(p)
      modifies `phase, `journal, `at
      ensures Valid() && at == Entered(old(at), p) && copy == journal
    {
      hide Following, Updater.Step;
      StepAtEnter(at, Yes(GOOD), p);
      phase := p;
      journal := journal.(phase := p);
      Step(Yes(GOOD));
      copy := journal;
    }

    /** Its save, and that the begin phase has been entered. */
    method Store(p: Phase, copy: Journal) returns (ghost io: Io)
      requires Valid() && at.pc == Save(p, copy)
      modifies `stored, `answers, `pastBegin, `at
      ensures Valid() && !io.cut && at == Saved(old(at), io)
    {
      hide Following, Updater.Step, FirstOf;
      var a := Ask();
      StepAtSave(at, a);
      io := a.io;
      if a.io.done {
        stored := Some(copy);
      }
      pastBegin := pastBegin || p.Begin?;
      Step(a);
    }

    /** enter(): the journal names the phase before any of its work is done. */
    method EnterPhase(p: Phase)
      requires Valid() && at.pc == Enter(p)
      modifies this
      ensures Valid() && start == old(start) && at.pc == FirstOf(p) && at.phase == p
      ensures at.held == old(at.held) && at.work == if p.Begin? then old(at.work).(pastBegin := true) else old(at.work)
    {
      hide Following;
      var copy := Announce(p);
      Others();
      var _ := Store(p, copy);
    }

    // ---- What each phase does, one call after the other ---------------------------------------------

    /** cancelled(), twice before the chip is touched. */
    method LookForCancel(p: Phase) returns (v: Verdict)
      requires Valid() && at.pc == Look(p)
      modifies `at
      ensures Valid() && at == old(at).(pc := at.pc)
      ensures v == if at.pc.AbortLoader? then Abort else Go
      ensures v.Go? ==> at.pc == if p.Preflight? then OpenImage else OpenLoader
    {
      hide Following, Jobs.Find;
      var j := Jobs.Find(table, job);
      v := if j.None? || j.value.state.Cancelled? then Abort else Go;
      Step(Yes(GOOD));
    }

    /** The staged image is opened, if it is there and not empty. */
    method OpenTheImage(image: Option<seq<Byte>>) returns (v: Verdict)
      requires Valid() && at.pc.OpenImage?
      modifies `at, `answers, `imageOpen
      ensures Valid()
      ensures if v.Go? then at.pc.CheckUart? && image.Some? && at.work.size == |image.value| && at.work.off == 0
              else v.Fail? && at.pc.FailLoader?
    {
      hide Following, EspLoader.Adapter.Valid;
      var a := Ask();
      a := a.(ok := a.ok && image.Some?, n := if image.Some? then |image.value| else 0);
      v := if a.ok && a.n > 0 then Go else Fail;
      ImageStep(a);
      imageOpen := v.Go?;
    }

    /** The model's step. */
    ghost method ImageStep(a: Answer)
      requires Following(start, at) && at.pc.OpenImage? && Truthful(a.io)
      modifies `at
      ensures Following(start, at) && at == old(at).(pc := at.pc, held := at.held, work := at.work)
      ensures at.held.loader == old(at).held.loader && at.work.pastBegin == old(at).work.pastBegin
      ensures at.held.image == (a.ok && a.n > 0)
      ensures if a.ok && a.n > 0 then at.pc.CheckUart? && at.work.size == a.n && at.work.off == 0 else at.pc.FailLoader?
    {
      hide Updater.Step, ImageOpened, Following;
      NothingYet(start, at);
      StepAtImage(at, a);
      ImageOutcome(at, a);
      Step(a);
    }

    method CheckTheUart() returns (v: Verdict)
      requires Valid() && at.pc.CheckUart?
      modifies `at, `answers
      ensures Valid() && at == old(at).(pc := at.pc)
      ensures if v.Go? then at.pc == Enter(Entering) else v.Fail? && at.pc.FailLoader?
    {
      hide Following;
      var a := Ask();
      v := if a.bridge || a.late then Fail else Go;
      Step(a);
    }

    method OpenTheLoader() returns (v: Verdict)
      requires Valid() && at.pc.OpenLoader?
      modifies `at, `answers, `loaderOpen, adapter
      ensures Valid() && at.work == old(at.work)
      ensures if v.Go? then at.pc.NoReturn? && adapter.session && !adapter.writing else v.Fail? && at.pc.FailLoader?
    {
      hide Following, EspLoader.Adapter.Valid;
      var a := Ask();
      var rc := adapter.Open(if a.bridge then EspLoader.ModeBusy else EspLoader.ModeOk, a.ok, a.written, true,
          false, true);
      a := a.(ok := rc.Ok?);
      if rc.Ok? {
        loaderOpen := true;
      }
      v := if rc.Ok? && !a.late then Go else Fail;
      Step(a);
    }

    /** The point of no return: a cancel that came first is reported here. */
    method PassNoReturn() returns (v: Verdict)
      requires Valid() && at.pc.NoReturn?
      modifies `at, `answers, `table
      ensures Valid() && at.work == old(at.work)
      ensures if v.Go? then at.pc == Enter(Begin) else v.Abort? && at.pc.AbortLoader?
    {
      hide Following, Jobs.SetCancellable;
      var a := Ask();
      var (t, rc) := Jobs.SetCancellable(table, job, false, a.now);
      table := t;
      v := if rc.Ok? then Go else Abort;
      Step(a);
    }

    method BeginTheFlash(size: nat) returns (v: Verdict)
      requires Valid() && at.pc.BeginFlash? && size < TWO_TO_THE_32
      modifies `at, `answers, adapter
      ensures Valid() && at.work == old(at.work).(touched := true)
      ensures if v.Go? then at.pc == Enter(Writing) && adapter.writing && adapter.announced == size
          && adapter.given == []
              else v.Fail? && at.pc.FailLoader?
    {
      hide Following, EspLoader.Adapter.Valid;
      var a := Ask();
      var rc := adapter.Begin(size, a.ok);
      a := a.(ok := rc.Ok?);
      v := if rc.Ok? && !a.late then Go else Fail;
      Step(a);
    }

    /** A read of the staged image, and what it gave to the loader. */
    method ReadAndWrite(image: seq<Byte>, off: nat, a: Answer) returns (b: Answer)
      requires off < |image| && adapter.Valid() && adapter.writing && adapter.announced == |image|
          && adapter.given == image[..off]
      modifies adapter, adapter.block
      ensures adapter.Valid() && b.io == a.io && b.late == a.late && b.n <= Min(READ_BLOCK, |image| - off)
      ensures b.ok && b.n > 0 && b.written ==>
                adapter.writing && adapter.announced == |image| && adapter.given == image[..off + b.n]
    {
      hide EspLoader.Adapter.Valid;
      var want := Min(READ_BLOCK, |image| - off);
      b := a.(n := if a.n <= want then a.n else want);
      if b.ok && b.n > 0 {
        var rc := adapter.Write(image[off..off + b.n], if a.written then [] else [false]);
        assert image[..off] + image[off..off + b.n] == image[..off + b.n];
        b := b.(written := rc.Ok?);
      }
    }

    /** One turn of the write loop: as much as the read has given. */
    method WriteSome(image: seq<Byte>, off: nat) returns (v: Verdict, got: nat)
      requires Valid() && at.pc.Chunk? && at.work.off == off < at.work.size == |image|
      requires adapter.writing && adapter.announced == |image| && adapter.given == image[..off]
      modifies `at, `answers, adapter, adapter.block
      ensures Valid()
      ensures v.Go? ==> 0 < got <= |image| - off && at.pc.Chunk? && at.work == old(at.work).(off := off + got)
      ensures v.Go? ==> adapter.writing && adapter.announced == |image| && adapter.given == image[..off + got]
      ensures !v.Go? ==> v.Fail? && at.pc.FailLoader?
    {
      hide Following, EspLoader.Adapter.Valid, Updater.Step;
      var a := Ask();
      a := ReadAndWrite(image, off, a);
      got := a.n;
      v := if a.ok && got > 0 && a.written && !a.late then Go else Fail;
      Count(a);
    }

    /** The model's turn of the loop. */
    ghost method Count(a: Answer)
      requires Tied() && Following(start, at) && at.pc.Chunk? && Truthful(a.io)
      requires at.work.off < at.work.size && a.n <= Min(READ_BLOCK, at.work.size - at.work.off)
      modifies `at
      ensures Tied() && Following(start, at)
      ensures if a.ok && a.n > 0 && a.written && !a.late then
                at.pc.Chunk? && at.work == old(at).work.(off := old(at).work.off + a.n)
              else at.pc.FailLoader?
    {
      hide Following, Updater.Step, WriteTurn, Min;
      StepAtChunk(at, a);
      TurnOutcome(at, a);
      Step(a);
    }

    /** The write loop: however short the reads are, the loader has the whole image in the end. */
    method WriteAll(image: seq<Byte>) returns (v: Verdict)
      requires Valid() && at.pc.Chunk? && at.work.off == 0 && at.work.size == |image|
      requires adapter.writing && adapter.announced == |image| && adapter.given == []
      modifies this, adapter, adapter.block
      ensures Valid() && start == old(start)
      ensures if v.Go? then at.pc == Enter(Verifying) && adapter.writing && adapter.announced == |image|
          && adapter.given == image
              else v.Fail? && at.pc.FailLoader?
    {
      hide Following, EspLoader.Adapter.Valid;
      var off := 0;
      while off < |image|
        invariant off <= |image| && Valid() && start == old(start) && at.pc.Chunk?
        invariant at.work.off == off && at.work.size == |image|
        invariant adapter.writing && adapter.announced == |image| && adapter.given == image[..off]
        decreases |image| - off
      {
        var got;
        v, got := WriteSome(image, off);
        if !v.Go? {
          return;
        }
        off := off + got;
        Others();
      }
      assert image[..off] == image;
      Step(Yes(GOOD));
      v := Go;
    }

    method FinishTheFlash(image: seq<Byte>) returns (v: Verdict)
      requires Valid() && at.pc.Finish? && adapter.writing && adapter.announced == |image| && adapter.given == image
      modifies `at, `answers, adapter, adapter.block
      ensures Valid()
      ensures if v.Go? then at.pc == Enter(Reconnecting) && OnTheChip(image) else v.Fail? && at.pc.FailLoader?
    {
      hide Following, EspLoader.Adapter.Valid;
      var a := Ask();
      var rc := adapter.Finish(a.written, a.ok);
      a := a.(ok := rc.Ok?);
      v := if rc.Ok? && !a.late then Go else Fail;
      Step(a);
    }

    /** The ROM was told to expect the padded image, and has taken it, in blocks. */
    ghost predicate OnTheChip(image: seq<Byte>)
      reads adapter
    {
      |image| < TWO_TO_THE_32
      && EspLoader.OnFlash(adapter.calls) == EspLoader.Flash(EspLoader.Rounded(|image|),
           EspLoader.Blocks(EspLoader.Padded(image)))
    }

    method CloseTheImage()
      requires Valid() && at.pc.CloseImage?
      modifies `at, `imageOpen
      ensures Valid() && at.pc.CloseLoader?
    {
      hide Following, EspLoader.Adapter.Valid;
      imageOpen := false;
      Step(Yes(GOOD));
    }

    /** Normal boot, and the console back. */
    method HandBack(ghost image: seq<Byte>) returns (v: Verdict)
      requires Valid() && at.pc.CloseLoader? && OnTheChip(image)
      modifies `at, `answers, `loaderOpen, adapter
      ensures Valid() && OnTheChip(image)
      ensures if v.Go? then at.pc == Enter(HealthCheck) else v.Fail? && at.pc.FailLoader?
    {
      hide Following, EspLoader.Adapter.Valid;
      var a := Ask();
      var first := adapter.Close(0, 0, if a.ok then 0 else 1);
      loaderOpen := false;
      a := a.(ok := first == 0);
      v := if first == 0 then Go else Fail;
      Step(a);
    }

    /** ESP-Hosted is restarted: only a version that it confirms is a success. */
    method CheckHealth() returns (v: Verdict)
      requires Valid() && at.pc.Health?
      modifies `at, `answers
      ensures Valid()
      ensures if v.Go? then at.pc == Enter(Complete) else v.Fail? && at.pc.FailLoader?
    {
      hide Following;
      var a := Ask();
      if a.deviceGone && a.version {
        v := Go;
      } else if !a.ok || !a.version {
        v := Fail;
      } else {
        v := Go;
      }
      v := if a.late then Fail else v;
      Step(a);
    }

    method SucceedJob() returns (s: Summary)
      requires Valid() && at.pc.Succeed?
      modifies `at, `answers, `table
      ensures Valid() && at.pc == End(Some(s)) && s.ending.Succeeded?
    {
      hide Following, Jobs.SetState;
      var a := Ask();
      var (t, _) := Jobs.SetState(table, job, Jobs.Succeeded, a.now);
      table := t;
      s := Summary(job, Succeeded, false, phase);
      Step(a);
    }

    /** What is open is closed: the loader first. */
    method CloseLoaderIfOpen()
      requires Valid() && (at.pc.FailLoader? || at.pc.AbortLoader?)
      modifies `at, `loaderOpen, adapter
      ensures Valid() && at.pc == if old(at).pc.FailLoader? then FailImage else AbortImage
    {
      hide Following, EspLoader.Adapter.Valid;
      if loaderOpen {
        var _ := adapter.Close(0, 0, 0);
        loaderOpen := false;
      }
      Step(Yes(GOOD));
    }

    method CloseImageIfOpen()
      requires Valid() && (at.pc.FailImage? || at.pc.AbortImage?)
      modifies `at, `imageOpen
      ensures Valid() && at.pc == if old(at).pc.FailImage? then FailJob else End(None)
    {
      hide Following, EspLoader.Adapter.Valid;
      if imageOpen {
        imageOpen := false;
      }
      Step(Yes(GOOD));
    }

    method FailTheJob() returns (s: Summary)
      requires Valid() && at.pc.FailJob?
      modifies `at, `answers, `table
      ensures Valid() && at.pc == End(Some(s)) && s.ending.Failed? && s.recoveryRequired == at.work.pastBegin
    {
      hide Following, Jobs.Fail;
      var a := Ask();
      var (t, _) := Jobs.Fail(table, job, true, a.now);
      table := t;
      s := Summary(job, Failed, pastBegin, phase);
      Step(a);
    }

    /** end() up to its save. */
    method Conclude(s: Option<Summary>) returns (copy: Journal)
      requires Valid() && at.pc == End(s)
      modifies `at, `journal
      ensures Valid() && at.pc == EndSave(copy) && copy == journal && !journal.active
      ensures journal.last == if s.Some? then s else old(journal).last
    {
      hide Following, EspLoader.Adapter.Valid;
      journal := journal.(active := false, phase := phase, last := if s.Some? then s else journal.last);
      copy := journal;
      Step(Yes(GOOD));
    }

    method StoreLast(copy: Journal)
      requires Valid() && at.pc == EndSave(copy)
      modifies `at, `answers, `stored
      ensures Valid() && at.pc.Idle?
    {
      hide Following, EspLoader.Adapter.Valid;
      var a := Ask();
      if a.io.done {
        stored := Some(copy);
      }
      Step(a);
    }

    // ---- The run -------------------------------------------------------------------------------------

    /** The accepted install is this run's. */
    method TakeInstall()
      requires Valid() && at.pc.Idle? && pending
      modifies `at, `pending, `job, `phase, `imageOpen, `loaderOpen, `pastBegin
      ensures Valid() && at.pc.Claim?
    {
      hide Following, EspLoader.Adapter.Valid;
      pending := false;
      job, phase, imageOpen, loaderOpen, pastBegin := journal.job, Preflight, false, false, false;
      Step(Yes(GOOD));
    }

    /** Its job runs, unless it was cancelled while it waited. */
    method ClaimJob() returns (v: Verdict)
      requires Valid() && at.pc.Claim?
      modifies `at, `answers, `table
      ensures Valid()
      ensures if v.Go? then at.pc == Enter(Preflight) else v.Abort? && at.pc.AbortLoader?
    {
      hide Following, Jobs.SetState, EspLoader.Adapter.Valid;
      var a := Ask();
      var (t, rc) := Jobs.SetState(table, job, Jobs.Running, a.now);
      table := t;
      v := if rc.Ok? then Go else Abort;
      Step(a);
    }

    /** Everything before the point of no return, and that. */
    method Prepare(image: Option<seq<Byte>>) returns (v: Verdict)
      requires Valid() && at.pc == Enter(Preflight)
      modifies this, adapter
      ensures Valid() && start == old(start)
      ensures v.Go? ==> at.pc == Enter(Begin) && image.Some? && at.work.size == |image.value| && at.work.off == 0
      ensures v.Fail? ==> at.pc.FailLoader?
      ensures v.Abort? ==> at.pc.AbortLoader?
    {
      hide Valid, Updater.Step;
      EnterPhase(Preflight);
      v := LookForCancel(Preflight);
      if !v.Go? {
        return;
      }
      v := OpenTheImage(image);
      if !v.Go? {
        return;
      }
      Others();
      v := CheckTheUart();
      if !v.Go? {
        return;
      }
      EnterPhase(Entering);
      v := LookForCancel(Entering);
      if !v.Go? {
        return;
      }
      v := OpenTheLoader();
      if !v.Go? {
        return;
      }
      Others();
      v := PassNoReturn();
    }

    /** Everything after it, to the last byte. */
    method Program(image: seq<Byte>) returns (v: Verdict)
      requires Valid() && at.pc == Enter(Begin) && at.work.size == |image| < TWO_TO_THE_32 && at.work.off == 0
      modifies this, adapter, adapter.block
      ensures Valid() && start == old(start)
      ensures if v.Go? then at.pc == Enter(Verifying) && adapter.writing && adapter.announced == |image|
          && adapter.given == image
              else v.Fail? && at.pc.FailLoader?
    {
      hide Valid, Updater.Step;
      EnterPhase(Begin);
      v := BeginTheFlash(|image|);
      if !v.Go? {
        return;
      }
      EnterPhase(Writing);
      v := WriteAll(image);
    }

    /** From the last byte to the confirmed version. */
    method Confirm(image: seq<Byte>) returns (v: Verdict)
      requires Valid() && at.pc == Enter(Verifying)
      requires adapter.writing && adapter.announced == |image| && adapter.given == image
      modifies this, adapter, adapter.block
      ensures Valid() && start == old(start)
      ensures if v.Go? then at.pc == Enter(Complete) && OnTheChip(image) else v.Fail? && at.pc.FailLoader?
    {
      hide Valid, Updater.Step, OnTheChip;
      EnterPhase(Verifying);
      v := FinishTheFlash(image);
      if !v.Go? {
        return;
      }
      EnterPhase(Reconnecting);
      CloseTheImage();
      v := HandBack(image);
      if !v.Go? {
        return;
      }
      EnterPhase(HealthCheck);
      v := CheckHealth();
    }

    /**
     * coprocessor_updater_run(): a run of the model, from the accepted install to idle. A success is the
     * whole image on the chip, padded, in its one blocking, however the reads were cut.
     */
    method RunInstall(image: Option<seq<Byte>>) returns (succeeded: bool)
      requires Valid() && at.pc.Idle? && pending && (image.Some? ==> |image.value| < TWO_TO_THE_32)
      modifies this, adapter, adapter.block
      ensures Valid() && start == old(start) && at.pc.Idle? && !journal.active
      ensures succeeded ==> image.Some? && OnTheChip(image.value)
      ensures succeeded ==> journal.last.Some? && journal.last.value.ending.Succeeded?
    {
      hide Valid, Updater.Step, OnTheChip, InRun;
      TakeInstall();
      var v := Attempt(image);
      var s := Settle(v);
      var copy := Conclude(s);
      StoreLast(copy);
      succeeded := v.Go?;
    }

    /** The phases, as far as they go. */
    method Attempt(image: Option<seq<Byte>>) returns (v: Verdict)
      requires Valid() && at.pc.Claim? && (image.Some? ==> |image.value| < TWO_TO_THE_32)
      modifies this, adapter, adapter.block
      ensures Valid() && start == old(start)
      ensures v.Go? ==> at.pc == Enter(Complete) && image.Some? && OnTheChip(image.value)
      ensures v.Fail? ==> at.pc.FailLoader?
      ensures v.Abort? ==> at.pc.AbortLoader?
    {
      hide Valid, Updater.Step, OnTheChip;
      Others();
      v := ClaimJob();
      if v.Go? {
        v := Prepare(image);
      }
      if v.Go? {
        v := Program(image.value);
      }
      if v.Go? {
        v := Confirm(image.value);
      }
    }

    /** The job's outcome, and what was open closed on the ways that do not succeed. */
    method Settle(v: Verdict) returns (s: Option<Summary>)
      requires Valid()
      requires match v
                 case Go => at.pc == Enter(Complete)
                 case Fail => at.pc.FailLoader?
                 case Abort => at.pc.AbortLoader?
      modifies this, adapter
      ensures Valid() && start == old(start) && at.pc == End(s)
      ensures v.Go? <==> s.Some? && s.value.ending.Succeeded?
      ensures forall image {:trigger OnTheChip(image)} :: v.Go? && old(OnTheChip(image)) ==> OnTheChip(image)
    {
      hide Valid, Updater.Step, OnTheChip;
      if v.Go? {
        EnterPhase(Complete);
        var done := SucceedJob();
        return Some(done);
      }
      CloseLoaderIfOpen();
      CloseImageIfOpen();
      if v.Abort? {
        return None;
      }
      Others();
      var failed := FailTheJob();
      s := Some(failed);
    }
  }

  lemma StepAtEnter(s: State, a: Answer, p: Phase)
    requires s.pc == Enter(p)
    ensures Updater.Step(s, a) == Entered(s, p)
  {
  }

  lemma StepAtImage(s: State, a: Answer)
    requires s.pc.OpenImage?
    ensures Updater.Step(s, a) == ImageOpened(s, a)
  {
  }

  lemma ImageOutcome(s: State, a: Answer)
    requires !s.held.image
    ensures var t := ImageOpened(s, a);
            if a.ok && a.n > 0 then t == s.(held := OpenedImage(s.held), work := s.work.(size := a.n), pc := CheckUart)
            else t == Failing(s.(held := t.held)) && !t.held.image && t.held.loader == s.held.loader
  {
  }

  lemma StepAtChunk(s: State, a: Answer)
    requires s.pc.Chunk?
    ensures Updater.Step(s, a) == WriteTurn(s, a)
  {
  }

  lemma TurnOutcome(s: State, a: Answer)
    requires s.pc.Chunk? && s.work.off < s.work.size && a.n <= Min(READ_BLOCK, s.work.size - s.work.off)
    ensures var t := s.(work := s.work.(off := s.work.off + a.n));
            if a.ok && a.n > 0 && a.written && !a.late then WriteTurn(s, a) == t
            else WriteTurn(s, a) == Failing(s) || WriteTurn(s, a) == Failing(t)
  {
  }

  lemma NothingYet(a: State, s: State)
    requires Following(a, s) && s.pc.OpenImage?
    ensures !s.held.image && s.work.off == 0
  {
  }

  lemma StepAtSave(s: State, a: Answer)
    requires s.pc.Save?
    ensures Updater.Step(s, a) == Saved(s, a.io)
  {
  }

  lemma ReachesNext(a: State, b: State, e: Event)
    requires Reaches(a, b) && Enabled(b, e)
    ensures Reaches(a, Next(b, e))
  {
    hide Next, Enabled;
    var es :| Possible(a, es) && Run(a, es) == b;
    RunOne(a, es, e);
  }
}
