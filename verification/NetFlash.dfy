/** The network transaction over a flash whose power may go in the middle of any of its store calls. */
module NetFlash {
  import opened Bytes
  import opened Options
  import opened NetState
  import NetTransaction
  import DC = DeviceConfig
  import Jobs

  /** The manager and the store it calls: the store's copies in RAM are the manager's `ram`. */
  datatype Sys = Sys(net: Net, flash: DC.Flash, ledger: DC.Ledger)

  function Dev(s: Sys): DC.Device { DC.On(s.flash, s.net.ram) }

  /** A section of the manager, and how the flash answers what it asks of the store. */
  datatype Move = Move(step: Step, write: DC.Io, erase: DC.Io, write2: DC.Io, erase2: DC.Io)

  /** What network_apply() has when it comes to its journal: the job and the state it is in then. */
  function Journals(n0: Net, s: Step): Option<Net>
    requires s.ApplyR?
  {
    var (jobs, seen) := Jobs.FindByKey(n0.jobs, s.key, s.hash, s.cutoff);
    var n := Expire(n0.(jobs := jobs));
    if !seen.Nothing? || !Matches(n, s.id) || n.txn.value.state != Staged
        || !(CONFIRM_MIN <= Timeout(s.asked) <= CONFIRM_MAX)
       || !s.granted then None
    else
      var (jobs', created) := Jobs.Create(n.jobs, Jobs.Params(NETWORK_APPLY, false, s.key, s.hash), n.now, s.cutoff);
      if created.New? then Some(n) else None
  }

  function RestoreUpdate(rest: seq<Byte>): DC.Update { DC.Update(DC.Config(rest, false, false), DC.Clear, DC.Keep) }

  /** The calls of the store that a section makes. */
  function Calls(n: Net, m: Move): seq<DC.Event> {
    match m.step
    case ApplyR(_, _, _, _, _, _, _) =>
      var j := Journals(n, m.step);
      if j.None? || j.value.txn.None? then []
      else
        var t := j.value.txn.value;
        [DC.BeginE(DC.Update(t.candidate, t.credential, DC.Keep), t.base, Id(t.serial), m.write, m.erase)]
    case RestoreR(rest, _, _) =>
      if InFlight(n) then []
      else
        [DC.BeginE(RestoreUpdate(rest), n.ram.committed.revision, RESTORE_ID, m.write, m.erase)]
        + (if DC.Begin(DC.On(DC.Flash(DC.Empty, DC.Empty, DC.Empty), n.ram), RestoreUpdate(rest),
            n.ram.committed.revision, RESTORE_ID, m.write, m.erase).1 == DC.Ok
           then [DC.CommitE(RESTORE_ID, m.write2, m.erase2)] else [])
    case Worker(_) =>
      (match n.pc
       case Committing(serial) => [DC.CommitE(Id(serial), m.write, m.erase)]
       case Restoring(serial) => [DC.RollbackE(Id(serial), m.erase)]
       case _ => [])
    case _ => []
  }

  predicate PowerStays(m: Move) {
    !m.write.powerLost && !m.erase.powerLost && !m.write2.powerLost && !m.erase2.powerLost
  }

  /** The manager is told what the flash did. */
  predicate Answered(n: Net, m: Move) {
    match m.step
    case ApplyR(_, _, _, _, _, written, _) =>
      var j := Journals(n, m.step);
      j.Some? && j.value.txn.Some? ==>
        var t := j.value.txn.value;
        written == (m.write.ok && m.write.left == DC.Holds(DC.Proposed(n.ram.committed,
            DC.Update(t.candidate, t.credential, DC.Keep), Id(t.serial))))
    case RestoreR(rest, begun, written) =>
      var next := DC.Proposed(n.ram.committed, RestoreUpdate(rest), RESTORE_ID);
      begun == (m.write.ok && m.write.left == DC.Holds(next))
          && written == (m.write2.ok && m.write2.left == DC.Holds(next))
    case Worker(ok) =>
      (match n.pc
       case Committing(_) => ok == (m.write.ok && n.ram.pending.Some? && m.write.left == DC.Holds(n.ram.pending.value))
       case Restoring(_) => ok == m.erase.ok
       case _ => true)
    case _ => true
  }

  function Next(s: Sys, m: Move): Sys {
    var calls := Calls(s.net, m);
    Sys(NetState.Next(s.net, m.step), DC.Run(Dev(s), calls).flash, DC.LedgerAfter(Dev(s), s.ledger, calls))
  }

  predicate Allowed(s: Sys, m: Move) {
    NetState.Allowed(s.net, m.step) && DC.PhysicalRun(Dev(s), Calls(s.net, m))
  }

  ghost predicate Inv(s: Sys) { NetTransaction.Inv(s.net) && DC.Inv(Dev(s), s.ledger) }

  /** The store's copies in RAM after the calls are the manager's. */
  lemma SameRam(s: Sys, m: Move)
    requires NetTransaction.Inv(s.net) && PowerStays(m) && Answered(s.net, m)
    ensures DC.Run(Dev(s), Calls(s.net, m)) == Dev(Next(s, m))
  {
    match m.step
    case ApplyR(_, _, _, _, _, _, _) => ApplySameRam(s, m);
    case RestoreR(_, _, _) => RestoreSameRam(s, m);
    case Worker(_) => WorkSameRam(s, m);
    case _ => OtherSameRam(s, m);
  }

  lemma RunOne(d: DC.Device, e: DC.Event)
    ensures DC.Run(d, [e]) == DC.Apply(d, e).0
  {
    assert [e][1..] == [];
  }

  lemma RunTwo(d: DC.Device, e: DC.Event, f: DC.Event)
    ensures DC.Run(d, [e, f]) == DC.Apply(DC.Apply(d, e).0, f).0
  {
    assert [e, f][1..] == [f];
    RunOne(DC.Apply(d, e).0, f);
  }

  lemma LedgerOne(d: DC.Device, l: DC.Ledger, e: DC.Event)
    ensures DC.LedgerAfter(d, l, [e]) == DC.Told(l, d, e)
    ensures DC.PhysicalRun(d, [e]) <==> DC.Physical(d, e)
  {
    assert [e][1..] == [];
  }

  lemma LedgerTwo(d: DC.Device, l: DC.Ledger, e: DC.Event, f: DC.Event)
    ensures DC.LedgerAfter(d, l, [e, f]) == DC.Told(DC.Told(l, d, e), DC.Apply(d, e).0, f)
    ensures DC.PhysicalRun(d, [e, f]) <==> DC.Physical(d, e) && DC.Physical(DC.Apply(d, e).0, f)
  {
    assert [e, f][1..] == [f];
    LedgerOne(DC.Apply(d, e).0, DC.Told(l, d, e), f);
  }

  lemma OtherSameRam(s: Sys, m: Move)
    requires NetTransaction.Inv(s.net) && !m.step.ApplyR? && !m.step.RestoreR? && !m.step.Worker?
    ensures NetState.Next(s.net, m.step).ram == s.net.ram
  {
    hide NetTransaction.Inv, Jobs.Create, Jobs.SetState, Jobs.Fail, Jobs.FindByKey, Jobs.Apply;
    match m.step
    case StageR(_, _, _, _, _) =>
    case RollbackR(_, _, _, _) =>
    case _ =>
  }

  lemma WorkSameRam(s: Sys, m: Move)
    requires NetTransaction.Inv(s.net) && m.step.Worker? && PowerStays(m) && Answered(s.net, m)
    ensures DC.Run(Dev(s), Calls(s.net, m)) == Dev(Next(s, m))
  {
    hide NetTransaction.Inv, Jobs.SetState, Jobs.Fail;
    hide Id;
    if s.net.pc.Committing? {
      RunOne(Dev(s), DC.CommitE(Id(s.net.pc.serial), m.write, m.erase));
    } else if s.net.pc.Restoring? {
      RunOne(Dev(s), DC.RollbackE(Id(s.net.pc.serial), m.erase));
    }
  }

  /** What applying does to the store, seen from the manager. */
  lemma ApplyRam(n: Net, s: Step)
    requires s.ApplyR?
    ensures var j := Journals(n, s);
            NetState.Next(n, s).ram ==
              if j.None? then n.ram
              else
                var t := j.value.txn.value;
                StoreBegin(n.ram, DC.Update(t.candidate, t.credential, DC.Keep), t.base, Id(t.serial), s.written).0
    ensures Journals(n, s).Some? ==> Journals(n, s).value.txn.Some?
  {
    hide Jobs.Create, Jobs.SetState, Jobs.Fail, Jobs.FindByKey, StoreBegin, Id;
    var (jobs, seen) := Jobs.FindByKey(n.jobs, s.key, s.hash, s.cutoff);
    var e := Expire(n.(jobs := jobs));
    assert e.ram == n.ram;
    if Journals(n, s).Some? {
      assert NetState.Next(n, s) == Granted(e, Timeout(s.asked), s.key, s.hash, s.written, s.cutoff).0;
      var (jobs', created) := Jobs.Create(e.jobs, Jobs.Params(NETWORK_APPLY, false, s.key, s.hash), e.now, s.cutoff);
      assert NetState.Next(n, s) == Journalled(e.(jobs := jobs'), created.id, Timeout(s.asked), s.written).0;
    }
  }

  lemma ApplySameRam(s: Sys, m: Move)
    requires m.step.ApplyR? && PowerStays(m) && Answered(s.net, m)
    ensures DC.Run(Dev(s), Calls(s.net, m)) == Dev(Next(s, m))
  {
    hide Journals, NetState.Next, StoreBegin, Id, DC.Begin, DC.Proposed;
    ApplyRam(s.net, m.step);
    var j := Journals(s.net, m.step);
    if j.Some? {
      var t := j.value.txn.value;
      var u := DC.Update(t.candidate, t.credential, DC.Keep);
      RunOne(Dev(s), DC.BeginE(u, t.base, Id(t.serial), m.write, m.erase));
      TheStoreDoesThat(Dev(s), u, t.base, Id(t.serial), m.write, m.erase);
    }
  }

  lemma RestoreSameRam(s: Sys, m: Move)
    requires m.step.RestoreR? && PowerStays(m) && Answered(s.net, m)
    ensures DC.Run(Dev(s), Calls(s.net, m)) == Dev(Next(s, m))
  {
    hide DC.BeginRefusal;
    var n := s.net;
    if !InFlight(n) {
      var begin := DC.BeginE(RestoreUpdate(m.step.rest), n.ram.committed.revision, RESTORE_ID, m.write, m.erase);
      RunOne(Dev(s), begin);
      RunTwo(Dev(s), begin, DC.CommitE(RESTORE_ID, m.write2, m.erase2));
    }
  }

  lemma NextKeeps(s: Sys, m: Move)
    requires Inv(s) && Allowed(s, m) && PowerStays(m) && Answered(s.net, m)
    ensures Inv(Next(s, m))
  {
    hide NetTransaction.Inv, NetState.Next, NetState.Allowed, DC.Inv, DC.Run, DC.PhysicalRun, DC.LedgerAfter, Answered;
    SameRam(s, m);
    NetTransaction.NextKeeps(s.net, m.step);
    DC.RunKeepsInv(Dev(s), s.ledger, Calls(s.net, m));
  }

  /** The moves of a run while the power is on. */
  predicate Powered(s: Sys, run: seq<Move>)
    decreases |run|
  {
    run != [] ==> Allowed(s, run[0]) && PowerStays(run[0]) && Answered(s.net, run[0])
                  && Powered(Next(s, run[0]), run[1..])
  }

  function Run(s: Sys, run: seq<Move>): Sys
    decreases |run|
  {
    if run == [] then s else Run(Next(s, run[0]), run[1..])
  }

  lemma {:induction false} RunKeeps(s: Sys, run: seq<Move>)
    requires Inv(s) && Powered(s, run)
    ensures Inv(Run(s, run))
    decreases |run|
  {
    if run != [] {
      hide Inv, Next, Allowed, Answered;
      NextKeeps(s, run[0]);
      RunKeeps(Next(s, run[0]), run[1..]);
    }
  }

  // ---- Power cuts ----------------------------------------------------------------------------------

  /** After device_config_init() and network_manager_boot(). */
  ghost predicate Started(s: Sys) {
    && NetTransaction.Start(s.net) && DC.FlashOk(s.flash)
    && s.ledger == DC.Ledger(DC.Survivor(s.flash), {}) && s.net.ram == DC.Ram(DC.Survivor(s.flash), None)
  }

  lemma StartedFits(s: Sys)
    requires Started(s)
    ensures Inv(s)
  {
    NetTransaction.StartInv(s.net);
    DC.StartInv(s.flash);
  }

  /** The generation that a section would have the store commit, if it has one committed. */
  function Target(s: Sys, m: Move): Option<DC.Record> {
    if m.step.Worker? && s.net.pc.Committing? then s.net.ram.pending
    else if m.step.RestoreR? && !InFlight(s.net) then
      Some(DC.Proposed(s.net.ram.committed, RestoreUpdate(m.step.rest), RESTORE_ID))
    else None
  }

  /** What is on the flash when the power has gone at some point of a section's store calls, or after them. */
  function Cut(s: Sys, m: Move): DC.Flash { DC.Run(Dev(s), Calls(s.net, m)).flash }

  lemma CutSurvivor(s: Sys, m: Move)
    requires Inv(s) && Allowed(s, m)
    ensures var g := DC.Survivor(Cut(s, m));
            g == s.net.ram.committed || g in s.ledger.risk || Target(s, m) == Some(g)
  {
    DC.SurvivorIs(Dev(s), s.ledger);
    var calls := Calls(s.net, m);
    if |calls| == 1 {
      OneCallSurvivor(s, m);
    } else if |calls| == 2 {
      TwoCallsSurvivor(s, m);
    }
  }

  lemma OneCallSurvivor(s: Sys, m: Move)
    requires Inv(s) && Allowed(s, m) && |Calls(s.net, m)| == 1
    ensures var g := DC.Survivor(Cut(s, m));
            g == s.net.ram.committed || g in s.ledger.risk || Target(s, m) == Some(g)
  {
    hide NetTransaction.Inv, NetState.Allowed, Id, DC.Inv, DC.Survivor, Journals, DC.BeginRefusal, DC.Proposed;
    var e := Calls(s.net, m)[0];
    assert Calls(s.net, m) == [e];
    RunOne(Dev(s), e);
    DC.OnlyCommitChangesSurvivor(Dev(s), s.ledger, e);
    DC.SurvivorIs(Dev(s), s.ledger);
    AckedIsCommitted(s);
  }

  lemma AckedIsCommitted(s: Sys)
    requires DC.Inv(Dev(s), s.ledger)
    ensures s.ledger.acked == s.net.ram.committed
  {
  }

  lemma TwoCallsSurvivor(s: Sys, m: Move)
    requires Inv(s) && Allowed(s, m) && |Calls(s.net, m)| == 2
    ensures var g := DC.Survivor(Cut(s, m));
            g == s.net.ram.committed || g in s.ledger.risk || Target(s, m) == Some(g)
  {
    hide NetTransaction.Inv, NetState.Allowed, Id, DC.Inv, DC.Survivor, Journals, DC.Proposed;
    var e, f := Calls(s.net, m)[0], Calls(s.net, m)[1];
    assert Calls(s.net, m) == [e, f];
    RunTwo(Dev(s), e, f);
    LedgerTwo(Dev(s), s.ledger, e, f);
    var d := DC.Apply(Dev(s), e).0;
    DC.OnlyCommitChangesSurvivor(Dev(s), s.ledger, e);
    DC.SurvivorIs(Dev(s), s.ledger);
    DC.StepKeepsInv(Dev(s), s.ledger, e);
    DC.OnlyCommitChangesSurvivor(d, s.ledger, f);
    AckedIsCommitted(s);
  }

  /** A commit that the store has answered with an error. */
  predicate CommitFails(s: Sys, m: Move) {
    || (m.step.Worker? && s.net.pc.Committing? && !m.step.ok)
    || (m.step.RestoreR? && !InFlight(s.net) && !m.step.written)
  }

  predicate NoCommitFails(s: Sys, run: seq<Move>)
    decreases |run|
  {
    run != [] ==> !CommitFails(s, run[0]) && NoCommitFails(Next(s, run[0]), run[1..])
  }

  lemma NothingAtRisk(s: Sys, m: Move)
    requires Inv(s) && PowerStays(m) && Answered(s.net, m) && !CommitFails(s, m) && s.ledger.risk == {}
    ensures Next(s, m).ledger.risk == {}
  {
    match m.step
    case RestoreR(_, _, _) => RestoreAtRisk(s, m);
    case Worker(_) => WorkAtRisk(s, m);
    case _ => OthersAtRisk(s, m);
  }

  lemma OthersAtRisk(s: Sys, m: Move)
    requires s.ledger.risk == {} && !m.step.RestoreR? && !m.step.Worker?
    ensures Next(s, m).ledger.risk == {}
  {
    hide NetState.Next, Id, Journals, DC.Begin;
    var calls := Calls(s.net, m);
    if |calls| == 1 {
      assert calls == [calls[0]];
      LedgerOne(Dev(s), s.ledger, calls[0]);
    }
  }

  lemma WorkAtRisk(s: Sys, m: Move)
    requires Inv(s) && PowerStays(m) && Answered(s.net, m) && !CommitFails(s, m) && s.ledger.risk == {}
    requires m.step.Worker?
    ensures Next(s, m).ledger.risk == {}
  {
    hide NetState.Next, Id, DC.Inv, DC.Survivor;
    hide NetTransaction.JobsOk, NetTransaction.StoreOk, NetTransaction.LandedOk;
    var calls := Calls(s.net, m);
    if |calls| == 1 {
      assert calls == [calls[0]];
      LedgerOne(Dev(s), s.ledger, calls[0]);
    }
  }

  lemma RestoreAtRisk(s: Sys, m: Move)
    requires PowerStays(m) && Answered(s.net, m) && !CommitFails(s, m) && s.ledger.risk == {}
    requires m.step.RestoreR?
    ensures Next(s, m).ledger.risk == {}
  {
    hide NetState.Next, DC.BeginRefusal, DC.TxnIdValid;
    var calls := Calls(s.net, m);
    if |calls| == 1 {
      assert calls == [calls[0]];
      LedgerOne(Dev(s), s.ledger, calls[0]);
    } else if |calls| == 2 {
      assert calls == [calls[0], calls[1]];
      LedgerTwo(Dev(s), s.ledger, calls[0], calls[1]);
    }
  }

  lemma {:induction false} RunNothingAtRisk(s: Sys, run: seq<Move>)
    requires Inv(s) && Powered(s, run) && NoCommitFails(s, run) && s.ledger.risk == {}
    ensures Run(s, run).ledger.risk == {}
    decreases |run|
  {
    if run != [] {
      hide Inv, Next, Allowed, Answered, CommitFails;
      NextKeeps(s, run[0]);
      NothingAtRisk(s, run[0]);
      RunNothingAtRisk(Next(s, run[0]), run[1..]);
    }
  }

  /**
   * Wherever the power goes, in whatever run: the next boot finds the generation that was in force, the
   * candidate of the transaction whose commit was under way, the defaults that were being restored, or
   * one whose commit the store had answered with an error since the last that succeeded.
   */
  lemma PowerCutRecovers(s0: Sys, run: seq<Move>, m: Move)
    requires Started(s0) && Powered(s0, run) && Allowed(Run(s0, run), m)
    ensures var s := Run(s0, run);
            var g := DC.Survivor(Cut(s, m));
            && DC.Sealed(g)
            && (g == s.net.ram.committed || g in s.ledger.risk || Target(s, m) == Some(g))
            && (NoCommitFails(s0, run) ==> s.ledger.risk == {})
            && (m.step.Worker? && s.net.pc.Committing? ==>
                  s.net.txn.Some? && Target(s, m).Some? && Target(s, m).value.config == s.net.txn.value.candidate)
  {
    hide Run, Powered, NoCommitFails, Cut, Allowed, NetTransaction.Start, DC.Sealed;
    StartedFits(s0);
    RunKeeps(s0, run);
    var s := Run(s0, run);
    CutSurvivor(s, m);
    if NoCommitFails(s0, run) {
      RunNothingAtRisk(s0, run);
    }
    if s.net.pc.Committing? {
      CommitsTheCandidate(s);
    }
    CutIsSealed(s, m);
  }

  lemma CommitsTheCandidate(s: Sys)
    requires NetTransaction.Inv(s.net) && s.net.pc.Committing?
    ensures s.net.txn.Some? && s.net.ram.pending.Some? && s.net.ram.pending.value.config == s.net.txn.value.candidate
  {
  }

  lemma CutIsSealed(s: Sys, m: Move)
    requires Inv(s) && Allowed(s, m)
    ensures DC.Sealed(DC.Survivor(Cut(s, m)))
  {
    hide NetTransaction.Inv, Calls, DC.Durable, DC.Sealed;
    DC.RunKeepsInv(Dev(s), s.ledger, Calls(s.net, m));
    DefaultsSealed();
  }

  lemma DefaultsSealed()
    ensures DC.Sealed(DC.DEFAULTS)
  {
  }

  /** Once the worker has been told of a commit, a boot finds the candidate, and nothing is at risk any more. */
  lemma CommitIsDurable(s: Sys, m: Move)
    requires Inv(s) && Allowed(s, m) && PowerStays(m) && Answered(s.net, m)
    requires m.step.Worker? && s.net.pc.Committing? && m.step.ok
    ensures var t := Next(s, m);
            && t.ledger.risk == {} && DC.Survivor(t.flash) == t.net.ram.committed
            && t.net.ram.committed.config == s.net.txn.value.candidate
  {
    hide NetTransaction.JobsOk, NetTransaction.StoreOk, NetTransaction.LandedOk, Id, DC.Durable, DC.FlashOk,
        DC.Survivor;
    NextKeeps(s, m);
    LedgerOne(Dev(s), s.ledger, DC.CommitE(Id(s.net.pc.serial), m.write, m.erase));
    DC.SurvivorIs(Dev(Next(s, m)), Next(s, m).ledger);
  }
}
