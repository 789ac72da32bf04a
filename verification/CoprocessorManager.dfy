/** coprocessor_manager.c: its calls, one atomic access at a time, with everybody else in between. */
module CoprocessorManager {
  import opened CoprocessorClaims

  const QUIET_SAMPLES: nat := 2

  /** The receive counter stood still over the last QUIET_SAMPLES intervals before look i. */
  predicate QuietAt(counter: nat -> nat, i: nat) {
    i >= QUIET_SAMPLES && counter(i) == counter(i - 1) == counter(i - 2)
  }

  /**
   * wait_quiet_locked(): counter(i) and clock(i) are what look i finds, look 0 before the first
   * sleep. It gives up only when the time is up or the looks are.
   */
  method WaitQuiet(counter: nat -> nat, clock: nat -> int, step: nat, timeout: nat) returns (quiet: bool, looks: nat)
    requires step > 0
    ensures looks <= timeout / step + QUIET_SAMPLES
    ensures quiet ==> QuietAt(counter, looks)
    ensures forall i | 0 <= i < looks :: !QuietAt(counter, i)
    ensures !quiet ==> !QuietAt(counter, looks)
    ensures !quiet ==> looks == timeout / step + QUIET_SAMPLES || clock(looks) - clock(0) >= timeout
  {
    var maxLooks := timeout / step + QUIET_SAMPLES;
    var start := clock(0);
    var last := counter(0);
    var stable := 0;
    looks := 0;
    while looks < maxLooks
      invariant looks <= maxLooks && last == counter(looks)
      invariant stable <= looks && stable < QUIET_SAMPLES
      invariant stable == 1 ==> counter(looks) == counter(looks - 1)
      invariant stable == 0 && looks > 0 ==> counter(looks) != counter(looks - 1)
      invariant forall i | 0 <= i <= looks :: !QuietAt(counter, i)
    {
      looks := looks + 1;
      var now := counter(looks);
      if now == last {
        stable := stable + 1;
        if stable >= QUIET_SAMPLES {
          return true, looks;
        }
      } else {
        stable := 0;
        last := now;
      }
      if clock(looks) - start >= timeout {
        return false, looks;
      }
    }
    return false, looks;
  }

  datatype Rc = Ok | Invalid | Busy | Failed

  /** What other threads do before an access. */
  type Others = seq<(nat, Move)>

  lemma {:induction false} RunThen(w: World, run: seq<Step>, s: Step)
    ensures Run(w, run + [s]) == Next(Run(w, run), s)
    decreases |run|
  {
    if run == [] {
      assert [] + [s] == [s] && [s][1..] == [];
    } else {
      RunThen(Next(w, run[0]), run[1..], s);
      assert (run + [s])[1..] == run[1..] + [s];
    }
  }

  lemma BitsStep(w: World, s: Step)
    requires BitsOk(w)
    ensures BitsOk(Next(w, s))
  {
  }

  /** The bits follow the mode in every run, whatever the clients do. */
  lemma {:induction false} BitsRun(w: World, run: seq<Step>)
    requires BitsOk(w)
    ensures BitsOk(Run(w, run))
    decreases |run|
  {
    if run != [] {
      hide BitsOk, Next;
      BitsStep(w, run[0]);
      BitsRun(Next(w, run[0]), run[1..]);
    }
  }

  class Manager {
    // Under the mutex.
    var mode: Mode
    // The atomics.
    var exclusive: Bits
    var claims: Counters
    // Where every thread is, the holder of the mutex included, and what has happened so far.
    var clients: map<nat, Client>
    var manager: CoprocessorClaims.Manager
    var stolen: Counters
    ghost const start: World
    ghost var run: seq<Step>

    function View(): World
      reads this
    {
      World(mode, exclusive, claims, clients, manager, stolen)
    }

    /** Everything that happened is a run of single accesses. */
    ghost predicate Valid()
      reads this
    {
      Start(start) && View() == Run(start, run)
    }

    /** coprocessor_manager_init() */
    constructor (attached: bool)
      ensures Valid() && manager.Free? && mode == if attached then Console else Unavailable
    {
      mode := if attached then Console else Unavailable;
      exclusive, claims := Bits(false, false, false), Counters(0, 0);
      clients, manager, stolen := map[], Free, Counters(0, 0);
      start := World(if attached then Console else Unavailable, Bits(false, false, false), Counters(0, 0), map[], Free,
                     Counters(0, 0));
      run := [];
    }

    /** The other threads' accesses; they have not the mutex. */
    method Elsewhere(others: Others)
      requires Valid()
      modifies this
      ensures Valid() && manager == old(manager) && mode == old(mode) && exclusive == old(exclusive)
    {
      var i := 0;
      while i < |others|
        invariant i <= |others| && Valid() && manager == old(manager) && mode == old(mode)
            && exclusive == old(exclusive)
      {
        var w := ClientMove(View(), others[i].0, others[i].1);
        RunThen(start, run, Client(others[i].0, others[i].1));
        run := run + [Client(others[i].0, others[i].1)];
        claims, clients, stolen := w.claims, w.clients, w.stolen;
        i := i + 1;
      }
    }

    /** switch_locked() */
    method Switch(target: Mode, a: Answers) returns (rc: Rc)
      requires !target.Unavailable?
      modifies `mode
      ensures mode == Switched(old(mode), target, a)
      ensures rc == if a.detached && a.quiet && a.attached then Ok else Failed
    {
      var before := mode;
      if !a.detached || !a.quiet {
        if before.Unavailable? || !a.restored {
          mode := Unavailable;
        }
        return Failed;
      }
      if !a.attached {
        if before.Unavailable? || !a.restored {
          mode := Unavailable;
        }
        return Failed;
      }
      mode := target;
      return Ok;
    }

    /**
     * coprocessor_manager_set_mode(), with others(i) before its access i. Refused, it has changed
     * nothing; failed, the UART is back with its owner or with nobody; and in any case the bits
     * are the mode's again.
     */
    method SetMode(target: Mode, a: Answers, others: nat -> Others) returns (rc: Rc)
      requires Valid() && manager.Free?
      modifies this
      ensures Valid() && manager.Free? && exclusive == ModeBits(mode)
      ensures rc == Invalid <==> target.Unavailable?
      ensures rc == Ok ==> mode == target
      ensures rc == Busy || rc == Invalid ==> mode == old(mode)
      ensures rc == Failed ==> mode == old(mode) || mode.Unavailable?
    {
      hide ClientMove;
      BitsRun(start, run);
      if target.Unavailable? {
        return Invalid;
      }
      if mode == target {
        return Ok;
      }
      if (mode.Bridge? && target.Flashing?) || (mode.Flashing? && target.Bridge?) {
        return Busy;
      }
      RunThen(start, run, SwitchTo(target));
      run := run + [SwitchTo(target)];
      if target.Console? {
        manager := Switching(target);
      } else {
        exclusive, manager := Mark(exclusive, target), Marked(target);
        rc := LookAtClaims(target, a, others);
        if rc != Ok {
          return;
        }
      }
      Elsewhere(others(3));
      RunThen(start, run, Go(a));
      run := run + [Go(a)];
      manager := Settling;
      rc := Switch(target, a);
      SettleBits(a, others);
    }

    /** claimed_against(), after the mark, and the way back when there is a claim. */
    method LookAtClaims(target: Mode, a: Answers, others: nat -> Others) returns (rc: Rc)
      requires Valid() && manager == Marked(target) && BitsOk(View())
      modifies this
      ensures Valid() && mode == old(mode)
      ensures rc == Ok || rc == Busy
      ensures rc == Ok ==> manager == Switching(target)
      ensures rc == Busy ==> manager.Free? && exclusive == ModeBits(mode)
    {
      hide ClientMove;
      Elsewhere(others(0));
      RunThen(start, run, Go(a));
      run := run + [Go(a)];
      if claims.apply > 0 {
        manager := BackingOff(target);
      } else if target.Flashing? {
        manager := Looked(target);
        Elsewhere(others(1));
        RunThen(start, run, Go(a));
        run := run + [Go(a)];
        manager := if claims.scan > 0 then BackingOff(target) else Switching(target);
      } else {
        manager := Switching(target);
      }
      if manager.Switching? {
        return Ok;
      }
      Elsewhere(others(2));
      RunThen(start, run, Go(a));
      run := run + [Go(a)];
      exclusive, manager := Unmark(exclusive, target), Free;
      BitsRun(start, run);
      return Busy;
    }

    /** settle_bits_locked(): the current bit goes up before the others come down. */
    method SettleBits(a: Answers, others: nat -> Others)
      requires Valid() && manager.Settling?
      modifies this
      ensures Valid() && manager.Free? && exclusive == ModeBits(mode) && mode == old(mode)
    {
      hide ClientMove;
      Elsewhere(others(4));
      RunThen(start, run, Go(a));
      run := run + [Go(a)];
      exclusive, manager := Mark(exclusive, mode), Trimming;
      Elsewhere(others(5));
      RunThen(start, run, Go(a));
      run := run + [Go(a)];
      exclusive := exclusive.(bridge := exclusive.bridge && mode.Bridge?, flashing := exclusive.flashing
          && mode.Flashing?);
      manager := Free;
      BitsRun(start, run);
    }

    /** coprocessor_manager_reset(); `pulsed` is the answer of the reset line. */
    method ResetChip(pulsed: bool, others: nat -> Others) returns (rc: Rc)
      requires Valid() && manager.Free?
      modifies this
      ensures Valid() && manager.Free? && exclusive == ModeBits(mode) && mode == old(mode)
      ensures rc == Ok ==> pulsed
      ensures old(mode).Flashing? ==> rc == Busy
    {
      hide ClientMove;
      BitsRun(start, run);
      if mode.Flashing? {
        return Busy;
      }
      var any := Answers(true, true, true, true);
      RunThen(start, run, Reset);
      run := run + [Reset];
      exclusive, manager := exclusive.(reset := true), ResetMarked;
      Elsewhere(others(0));
      RunThen(start, run, Go(any));
      run := run + [Go(any)];
      manager := if claims.apply > 0 then ResetBackingOff else Pulsing;
      rc := if manager.ResetBackingOff? then Busy else if pulsed then Ok else Failed;
      Elsewhere(others(1));
      RunThen(start, run, Go(any));
      run := run + [Go(any)];
      exclusive, manager := exclusive.(reset := false), Free;
      BitsRun(start, run);
    }
  }
}
