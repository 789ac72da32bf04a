/**
 * Who may have the coprocessor (coprocessor_manager.c): the UART's mode and the reset line under a
 * mutex on one side, claims from outside on the other, and two kinds of atomics between them. A
 * step is one atomic access.
 */
module CoprocessorClaims {
  datatype Kind = Apply | Scan

  datatype Mode = Console | Bridge | Flashing | Unavailable

  /** The bits of `exclusive`. */
  datatype Bits = Bits(bridge: bool, flashing: bool, reset: bool)

  /**
   * A thread inside claim() or release(), or holding a claim in between. A release is matched when
   * the thread held one.
   */
  datatype Client =
    | Entering(kind: Kind)
    | Holding(kind: Kind)
    | Refused(kind: Kind)
    | Releasing(kind: Kind, matched: bool)
    | Swapping(kind: Kind, matched: bool, seen: int)

  /** What the holder of the mutex has done so far. */
  datatype Manager =
    | Free
    | Marked(target: Mode)
    | Looked(target: Mode)
    | BackingOff(target: Mode)
    | Switching(target: Mode)
    | Settling
    | Trimming
    | ResetMarked
    | ResetBackingOff
    | Pulsing

  /** `stolen` counts the claims taken by releases that had none, until their owners find them gone. */
  datatype World = World(
    mode: Mode, bits: Bits, claims: Counters, clients: map<nat, Client>, manager: Manager, stolen: Counters)

  datatype Counters = Counters(apply: int, scan: int)

  function Of(c: Counters, k: Kind): int { if k.Apply? then c.apply else c.scan }

  function Add(c: Counters, k: Kind, d: int): Counters {
    if k.Apply? then c.(apply := c.apply + d) else c.(scan := c.scan + d)
  }

  // ---- The clients ---------------------------------------------------------------------------

  /** What a claim finds in its way. */
  predicate Excluded(b: Bits, k: Kind) {
    if k.Apply? then b.bridge || b.flashing || b.reset else b.flashing
  }

  datatype Move =
    | Enter(kind: Kind)      // atomic_inc()
    | Look                   // atomic_get() of the bits
    | Undo                   // atomic_dec()
    | Release(kind: Kind)    // the call of release()
    | Read                   // atomic_get() of the counter
    | Swap                   // atomic_cas()

  function ClientMove(w: World, t: nat, m: Move): World {
    if t !in w.clients then
      match m
      case Enter(k) => w.(claims := Add(w.claims, k, 1), clients := w.clients[t := Entering(k)])
      case Release(k) => w.(clients := w.clients[t := Releasing(k, false)])
      case _ => w
    else
      match (m, w.clients[t])
      case (Look, Entering(k)) =>
        w.(clients := w.clients[t := if Excluded(w.bits, k) then Refused(k) else Holding(k)])
      case (Undo, Refused(k)) => w.(claims := Add(w.claims, k, -1), clients := w.clients - {t})
      case (Release(kind), Holding(k)) => if kind == k then w.(clients := w.clients[t := Releasing(k, true)]) else w
      case (Read, Releasing(k, matched)) =>
        if Of(w.claims, k) <= 0 then
          w.(clients := w.clients - {t}, stolen := if matched then Add(w.stolen, k, -1) else w.stolen)
        else w.(clients := w.clients[t := Swapping(k, matched, Of(w.claims, k))])
      case (Swap, Swapping(k, matched, seen)) =>
        if Of(w.claims, k) != seen then w.(clients := w.clients[t := Releasing(k, matched)])
        else w.(claims := Add(w.claims, k, -1), clients := w.clients - {t},
                stolen := if matched then w.stolen else Add(w.stolen, k, 1))
      case _ => w
  }

  // ---- The holder of the mutex ---------------------------------------------------------------

  /** How the platform answers a switch: detach, the wait for quiet, the new owner, the old one again. */
  datatype Answers = Answers(detached: bool, quiet: bool, attached: bool, restored: bool)

  /** switch_locked(): the mode it leaves. */
  function Switched(old_: Mode, target: Mode, a: Answers): Mode {
    if !a.detached || !a.quiet then
      if old_.Unavailable? || !a.restored then Unavailable else old_
    else if !a.attached then
      if old_.Unavailable? || !a.restored then Unavailable else old_
    else target
  }

  function Mark(b: Bits, m: Mode): Bits {
    match m
    case Bridge => b.(bridge := true)
    case Flashing => b.(flashing := true)
    case _ => b
  }

  function Unmark(b: Bits, m: Mode): Bits {
    match m
    case Bridge => b.(bridge := false)
    case Flashing => b.(flashing := false)
    case _ => b
  }

  /** set_mode() up to its first atomic access. */
  function BeginSwitch(w: World, target: Mode): World {
    if target.Unavailable? || w.mode == target then w
    else if (w.mode.Bridge? && target.Flashing?) || (w.mode.Flashing? && target.Bridge?) then w
    else if target.Console? then w.(manager := Switching(target))
    else w.(bits := Mark(w.bits, target), manager := Marked(target))
  }

  /** reset() up to its first atomic access. */
  function BeginReset(w: World): World {
    if w.mode.Flashing? then w else w.(bits := w.bits.(reset := true), manager := ResetMarked)
  }

  /** The next access of a switch or a reset under way. */
  function Continue(w: World, a: Answers): World {
    match w.manager
    case Free => w
    case Marked(target) =>
      w.(manager := if w.claims.apply > 0 then BackingOff(target)
                    else if target.Flashing? then Looked(target) else Switching(target))
    case Looked(target) => w.(manager := if w.claims.scan > 0 then BackingOff(target) else Switching(target))
    case BackingOff(target) => w.(bits := Unmark(w.bits, target), manager := Free)
    case Switching(target) => w.(mode := Switched(w.mode, target, a), manager := Settling)
    case Settling => w.(bits := Mark(w.bits, w.mode), manager := Trimming)
    case Trimming =>
      w.(bits := w.bits.(bridge := w.bits.bridge && w.mode.Bridge?, flashing := w.bits.flashing && w.mode.Flashing?),
         manager := Free)
    case ResetMarked => w.(manager := if w.claims.apply > 0 then ResetBackingOff else Pulsing)
    case ResetBackingOff => w.(bits := w.bits.(reset := false), manager := Free)
    case Pulsing => w.(bits := w.bits.(reset := false), manager := Free)
  }

  // ---- Runs ----------------------------------------------------------------------------------

  datatype Step = Client(t: nat, move: Move) | SwitchTo(target: Mode) | Reset | Go(a: Answers)

  function Next(w: World, s: Step): World {
    match s
    case Client(t, m) => ClientMove(w, t, m)
    case SwitchTo(target) => if w.manager.Free? then BeginSwitch(w, target) else w
    case Reset => if w.manager.Free? then BeginReset(w) else w
    case Go(a) => Continue(w, a)
  }

  function Run(w: World, run: seq<Step>): World
    decreases |run|
  {
    if run == [] then w else Run(Next(w, run[0]), run[1..])
  }

  /** coprocessor_manager_init(): the console has the UART, or nobody has. */
  predicate Start(w: World) {
    && (w.mode.Console? || w.mode.Unavailable?)
    && w.bits == Bits(false, false, false) && w.claims == Counters(0, 0) && w.stolen == Counters(0, 0)
    && w.clients == map[] && w.manager.Free?
  }

  // ---- The counters --------------------------------------------------------------------------

  /** The client's claim is in its counter. */
  predicate Counted(c: Client, k: Kind) {
    c.kind == k && ((c.Releasing? || c.Swapping?) ==> c.matched)
  }

  ghost function Claimants(clients: map<nat, Client>, k: Kind): set<nat> {
    set t | t in clients && Counted(clients[t], k)
  }

  /** A counter is the number of claims, short of what unmatched releases took. */
  ghost predicate CountersOk(w: World) {
    forall k :: Of(w.claims, k) == |Claimants(w.clients, k)| - Of(w.stolen, k)
  }

  function One(b: bool): int { if b then 1 else 0 }

  lemma ClaimantsPut(clients: map<nat, Client>, t: nat, c: Client, k: Kind)
    ensures |Claimants(clients[t := c], k)|
            == |Claimants(clients, k)| - One(t in clients && Counted(clients[t], k)) + One(Counted(c, k))
  {
    var rest := Claimants(clients, k) - {t};
    assert Claimants(clients, k) == if t in clients && Counted(clients[t], k) then rest + {t} else rest;
    assert Claimants(clients[t := c], k) == if Counted(c, k) then rest + {t} else rest;
  }

  lemma ClaimantsDrop(clients: map<nat, Client>, t: nat, k: Kind)
    ensures |Claimants(clients - {t}, k)| == |Claimants(clients, k)| - One(t in clients && Counted(clients[t], k))
  {
    var rest := Claimants(clients, k) - {t};
    assert Claimants(clients, k) == if t in clients && Counted(clients[t], k) then rest + {t} else rest;
    assert Claimants(clients - {t}, k) == rest;
  }

  lemma CountersStep(w: World, s: Step)
    requires CountersOk(w)
    ensures CountersOk(Next(w, s))
  {
    if s.Client? {
      var w' := Next(w, s);
      forall k
        ensures Of(w'.claims, k) == |Claimants(w'.clients, k)| - Of(w'.stolen, k)
      {
        hide Claimants, Excluded;
        assert Of(w.claims, k) == |Claimants(w.clients, k)| - Of(w.stolen, k);
        assert w'.clients == if s.t in w'.clients then w.clients[s.t := w'.clients[s.t]] else w.clients - {s.t};
        ClaimantsDrop(w.clients, s.t, k);
        if s.t in w'.clients {
          ClaimantsPut(w.clients, s.t, w'.clients[s.t], k);
        }
      }
    }
  }

  lemma {:induction false} CountersRun(w: World, run: seq<Step>)
    requires CountersOk(w)
    ensures CountersOk(Run(w, run))
    decreases |run|
  {
    if run != [] {
      CountersStep(w, run[0]);
      CountersRun(Next(w, run[0]), run[1..]);
    }
  }

  /** The count is what a release that has no claim can break, and only by taking one. */
  lemma CountIsExactUnlessStolen(w0: World, run: seq<Step>, k: Kind)
    requires Start(w0)
    ensures var w := Run(w0, run);
            Of(w.claims, k) == |Claimants(w.clients, k)| - Of(w.stolen, k)
    ensures var w := Run(w0, run);
            Of(w.stolen, k) == 0 ==> 0 <= Of(w.claims, k) && (w.clients == map[] ==> Of(w.claims, k) == 0)
  {
    assert CountersOk(w0) by {
      assert forall k :: Claimants(w0.clients, k) == {};
    }
    CountersRun(w0, run);
  }

  // ---- Exclusion --------------------------------------------------------------------------------

  predicate Holds(c: Client, k: Kind) {
    c.kind == k && (c.Holding? || ((c.Releasing? || c.Swapping?) && c.matched))
  }

  ghost predicate Held(w: World, k: Kind) { exists t :: t in w.clients && Holds(w.clients[t], k) }

  /** A bridge or a flasher has the UART or is past its checks, or the chip is being reset. */
  predicate ExcludesApply(w: World) {
    || w.mode.Bridge? || w.mode.Flashing?
    || (w.manager.Switching? && (w.manager.target.Bridge? || w.manager.target.Flashing?))
    || w.manager.Pulsing?
  }

  predicate ExcludesScan(w: World) {
    w.mode.Flashing? || (w.manager.Switching? && w.manager.target.Flashing?)
  }

  ghost predicate Exclusive(w: World) {
    && (ExcludesApply(w) ==> !Held(w, Apply))
    && (ExcludesScan(w) ==> !Held(w, Scan))
  }

  /** The bits say what the mode is, and what the holder of the mutex is about to do. */
  predicate BitsOk(w: World) {
    match w.manager
    case Free => w.bits == ModeBits(w.mode)
    case Marked(m) => Intends(w, m) && w.bits == Mark(ModeBits(w.mode), m)
    case Looked(m) => Intends(w, m) && m.Flashing? && w.bits == Mark(ModeBits(w.mode), m)
    case BackingOff(m) => Intends(w, m) && w.bits == Mark(ModeBits(w.mode), m)
    case Switching(m) => !m.Unavailable? && m != w.mode && w.bits == Mark(ModeBits(w.mode), m)
                         && !(w.mode.Bridge? && m.Flashing?) && !(w.mode.Flashing? && m.Bridge?)
    case Settling => Mark(w.bits, w.mode) == w.bits && !w.bits.reset && !(w.bits.bridge && w.bits.flashing)
    case Trimming => Mark(w.bits, w.mode) == w.bits && !w.bits.reset && !(w.bits.bridge && w.bits.flashing)
    case ResetMarked => !w.mode.Flashing? && w.bits == ModeBits(w.mode).(reset := true)
    case ResetBackingOff => !w.mode.Flashing? && w.bits == ModeBits(w.mode).(reset := true)
    case Pulsing => !w.mode.Flashing? && w.bits == ModeBits(w.mode).(reset := true)
  }

  function ModeBits(m: Mode): Bits { Mark(Bits(false, false, false), m) }

  /** A bridge and a flasher are only started from the console or from nothing. */
  predicate Intends(w: World, m: Mode) {
    (m.Bridge? || m.Flashing?) && (w.mode.Console? || w.mode.Unavailable?)
  }

  ghost predicate Inv(w: World) {
    && CountersOk(w) && w.stolen == Counters(0, 0) && BitsOk(w) && Exclusive(w)
    && (w.manager.Looked? ==> !Held(w, Apply))
  }

  /** No release without a claim. */
  predicate Matched(w: World, s: Step) {
    s.Client? && s.move.Release? ==> s.t in w.clients
  }

  /** A counter that is not positive, and nobody holds: the check is right. */
  lemma NobodyHolds(w: World, k: Kind)
    requires CountersOk(w) && Of(w.stolen, k) == 0 && Of(w.claims, k) <= 0
    ensures !Held(w, k)
  {
    var c := Claimants(w.clients, k);
    assert |c| == 0;
    assert forall t | t in w.clients && Holds(w.clients[t], k) :: t in c;
  }

  /** A claim is granted only past the bits of everybody in its way. */
  lemma ClientKeepsExclusion(w: World, t: nat, m: Move, k: Kind)
    requires Excluded(w.bits, k) && !Held(w, k)
    ensures !Held(ClientMove(w, t, m), k)
  {
    var w' := ClientMove(w, t, m);
    assert forall x | x in w'.clients && Holds(w'.clients[x], k) :: x in w.clients && Holds(w.clients[x], k);
  }

  /** What excludes a claim has its bit up. */
  lemma BitsAreUp(w: World)
    requires BitsOk(w)
    ensures ExcludesApply(w) || w.manager.Looked? ==> Excluded(w.bits, Apply)
    ensures ExcludesScan(w) ==> Excluded(w.bits, Scan)
  {
  }

  lemma ClientStep(w: World, s: Step)
    requires Inv(w) && AllMatched(w) && Matched(w, s) && s.Client?
    ensures Inv(Next(w, s)) && AllMatched(Next(w, s))
  {
    CountersStep(w, s);
    BitsAreUp(w);
    if ExcludesApply(w) || w.manager.Looked? {
      ClientKeepsExclusion(w, s.t, s.move, Apply);
    }
    if ExcludesScan(w) {
      ClientKeepsExclusion(w, s.t, s.move, Scan);
    }
    if s.t in w.clients && w.clients[s.t].Releasing? {
      var k := w.clients[s.t].kind;
      assert s.t in Claimants(w.clients, k);
      assert Of(w.claims, k) == |Claimants(w.clients, k)|;
    }
    hide CountersOk, Held, Excluded;
  }

  lemma ManagerStep(w: World, s: Step)
    requires Inv(w) && !s.Client?
    ensures Inv(Next(w, s)) && Next(w, s).clients == w.clients
  {
    CountersStep(w, s);
    if w.claims.apply <= 0 {
      NobodyHolds(w, Apply);
    }
    if w.claims.scan <= 0 {
      NobodyHolds(w, Scan);
    }
    var w' := Next(w, s);
    assert Held(w', Apply) == Held(w, Apply) && Held(w', Scan) == Held(w, Scan);
    hide CountersOk, Held;
  }

  predicate AllMatched(w: World) {
    forall t | t in w.clients && (w.clients[t].Releasing? || w.clients[t].Swapping?) :: w.clients[t].matched
  }

  lemma SameClients(w: World, w': World)
    requires AllMatched(w) && w'.clients == w.clients
    ensures AllMatched(w')
  {
  }

  predicate MatchedRun(w: World, run: seq<Step>)
    decreases |run|
  {
    run == [] || (Matched(w, run[0]) && MatchedRun(Next(w, run[0]), run[1..]))
  }

  lemma {:induction false} ExclusionRun(w: World, run: seq<Step>)
    requires Inv(w) && AllMatched(w) && MatchedRun(w, run)
    ensures Inv(Run(w, run))
    decreases |run|
  {
    if run != [] {
      hide Inv, AllMatched, Matched, Next;
      if run[0].Client? {
        ClientStep(w, run[0]);
      } else {
        ManagerStep(w, run[0]);
        SameClients(w, Next(w, run[0]));
      }
      ExclusionRun(Next(w, run[0]), run[1..]);
    }
  }

  lemma StartInv(w: World)
    requires Start(w)
    ensures Inv(w) && AllMatched(w)
  {
    assert forall k :: Claimants(w.clients, k) == {};
  }

  /**
   * Any number of threads, interleaved at single accesses: a claim and what it excludes never hold
   * together, the counters are the claims held or in doubt, and between two switches the bits are
   * the mode's.
   */
  lemma ClaimsExclude(w0: World, run: seq<Step>)
    requires Start(w0) && MatchedRun(w0, run)
    ensures var w := Run(w0, run);
            && (ExcludesApply(w) ==> !Held(w, Apply))
            && (ExcludesScan(w) ==> !Held(w, Scan))
            && w.claims.apply == |Claimants(w.clients, Apply)| && w.claims.scan == |Claimants(w.clients, Scan)|
            && (w.manager.Free? ==> w.bits == ModeBits(w.mode))
  {
    hide Held, Run, MatchedRun, Claimants;
    StartInv(w0);
    ExclusionRun(w0, run);
  }

  /** A claim that is refused while nothing is being switched or reset is refused because of the mode. */
  lemma RefusedForAReason(w: World, t: nat, k: Kind)
    requires Inv(w) && w.manager.Free? && t in w.clients && w.clients[t] == Entering(k)
    ensures var c := ClientMove(w, t, Look).clients[t];
            c == Refused(k) <==> w.mode.Flashing? || (k.Apply? && w.mode.Bridge?)
    ensures var c := ClientMove(w, t, Look).clients[t]; c == Refused(k) || c == Holding(k)
  {
  }

  // ---- A release without a claim ----------------------------------------------------------------

  lemma RunFrom(w: World, s: Step, rest: seq<Step>)
    ensures Run(w, [s] + rest) == Run(Next(w, s), rest)
  {
    assert ([s] + rest)[1..] == rest;
  }

  const FINE := Go(Answers(true, true, true, true))

  /** While a reset is being checked: a claim that is refused, and a release of nothing. */
  const STRAY: seq<Step> :=
    [Reset, Client(0, Enter(Apply)), Client(0, Look), Client(1, Release(Apply)), Client(1, Read), Client(1, Swap),
     Client(0, Undo)]

  /** A reset that runs to its end, a claim that is granted, and another reset. */
  const AFTER: seq<Step> := [FINE, FINE, Client(2, Enter(Apply)), Client(2, Look), Reset, FINE]

  /** A release without a claim does leave a negative count, and the next claim is no claim at all. */
  lemma StrayReleaseBreaksExclusion()
    ensures var w0 := World(Console, Bits(false, false, false), Counters(0, 0), map[], Free, Counters(0, 0));
            && Start(w0)
            && Run(w0, STRAY).claims.apply == -1
            && var w := Run(Run(w0, STRAY), AFTER); ExcludesApply(w) && Held(w, Apply)
  {
    var w0 := World(Console, Bits(false, false, false), Counters(0, 0), map[], Free, Counters(0, 0));
    StrayRun(w0);
    AfterRun(Run(w0, STRAY));
    assert 2 in Run(Run(w0, STRAY), AFTER).clients;
  }

  /** The stray release has come and gone: the reset is at its check, and the count one short. */
  predicate Robbed(w: World) {
    w.mode.Console? && w.bits == Bits(false, false, true) && w.claims.apply == -1 && w.manager.ResetMarked?
        && 2 !in w.clients
  }

  /** A whole release, undisturbed, of a thread that held nothing: the count goes down by one. */
  lemma UndisturbedRelease(w: World, t: nat)
    requires t !in w.clients && w.claims.apply > 0
    ensures ClientMove(ClientMove(ClientMove(w, t, Release(Apply)), t, Read), t, Swap)
            == w.(claims := Add(w.claims, Apply, -1), stolen := Add(w.stolen, Apply, 1))
  {
    var w1 := ClientMove(w, t, Release(Apply));
    assert w1 == w.(clients := w.clients[t := Releasing(Apply, false)]);
    var w2 := ClientMove(w1, t, Read);
    assert w2 == w1.(clients := w1.clients[t := Swapping(Apply, false, w.claims.apply)]);
    assert w2.clients - {t} == w.clients;
  }

  lemma RefusedClaim(w: World, t: nat)
    requires t !in w.clients && Excluded(w.bits, Apply)
    ensures ClientMove(ClientMove(w, t, Enter(Apply)), t, Look)
            == w.(claims := Add(w.claims, Apply, 1), clients := w.clients[t := Refused(Apply)])
  {
    var w1 := ClientMove(w, t, Enter(Apply));
    assert w1 == w.(claims := Add(w.claims, Apply, 1), clients := w.clients[t := Entering(Apply)]);
    assert w1.clients[t := Refused(Apply)] == w.clients[t := Refused(Apply)];
  }

  lemma GivenBack(w: World, t: nat)
    requires t in w.clients && w.clients[t] == Refused(Apply) && 2 !in w.clients
    requires w.mode.Console? && w.bits == Bits(false, false, true) && w.claims.apply == 0 && w.manager.ResetMarked?
    ensures Robbed(ClientMove(w, t, Undo))
  {
  }

  lemma StrayMoves(w1: World)
    requires w1.mode.Console? && w1.bits == Bits(false, false, true) && w1.claims.apply == 0 && w1.manager.ResetMarked?
    requires 0 !in w1.clients && 1 !in w1.clients && 2 !in w1.clients
    ensures var w3 := ClientMove(ClientMove(w1, 0, Enter(Apply)), 0, Look);
            var w6 := ClientMove(ClientMove(ClientMove(w3, 1, Release(Apply)), 1, Read), 1, Swap);
            Robbed(ClientMove(w6, 0, Undo))
  {
    hide ClientMove, Robbed;
    RefusedClaim(w1, 0);
    var w3 := ClientMove(ClientMove(w1, 0, Enter(Apply)), 0, Look);
    UndisturbedRelease(w3, 1);
    GivenBack(ClientMove(ClientMove(ClientMove(w3, 1, Release(Apply)), 1, Read), 1, Swap), 0);
  }

  lemma StrayRun(w0: World)
    requires w0 == World(Console, Bits(false, false, false), Counters(0, 0), map[], Free, Counters(0, 0))
    ensures Robbed(Run(w0, STRAY))
  {
    var w1 := Next(w0, STRAY[0]);
    StrayMoves(w1);
    hide ClientMove, Robbed, BeginReset;
    var w2 := Next(w1, STRAY[1]);
    var w3 := Next(w2, STRAY[2]);
    var w4 := Next(w3, STRAY[3]);
    var w5 := Next(w4, STRAY[4]);
    var w6 := Next(w5, STRAY[5]);
    assert forall i | 0 <= i < 7 :: STRAY[i..] == [STRAY[i]] + STRAY[i + 1..];
    RunFrom(w0, STRAY[0], STRAY[1..]);
    RunFrom(w1, STRAY[1], STRAY[2..]);
    RunFrom(w2, STRAY[2], STRAY[3..]);
    RunFrom(w3, STRAY[3], STRAY[4..]);
    RunFrom(w4, STRAY[4], STRAY[5..]);
    RunFrom(w5, STRAY[5], STRAY[6..]);
    RunFrom(w6, STRAY[6], []);
  }

  lemma AfterMoves(w: World)
    requires Robbed(w)
    ensures var v4 := Next(Next(Next(Next(w, FINE), FINE), Client(2, Enter(Apply))), Client(2, Look));
            var v := Next(Next(v4, Reset), FINE);
            v.manager.Pulsing? && 2 in v.clients && v.clients[2] == Holding(Apply)
  {
    var v2 := Next(Next(w, FINE), FINE);
    assert v2 == w.(bits := Bits(false, false, false), manager := Free);
    var v3 := Next(v2, Client(2, Enter(Apply)));
    assert v3.claims.apply == 0 && v3.clients == v2.clients[2 := Entering(Apply)];
    var v4 := Next(v3, Client(2, Look));
    assert v4 == v3.(clients := v3.clients[2 := Holding(Apply)]);
  }

  lemma AfterRun(w: World)
    requires Robbed(w)
    ensures var v := Run(w, AFTER); v.manager.Pulsing? && 2 in v.clients && v.clients[2] == Holding(Apply)
  {
    hide Next, Robbed;
    AfterMoves(w);
    var v1 := Next(w, AFTER[0]);
    var v2 := Next(v1, AFTER[1]);
    var v3 := Next(v2, AFTER[2]);
    var v4 := Next(v3, AFTER[3]);
    var v5 := Next(v4, AFTER[4]);
    assert forall i | 0 <= i < 6 :: AFTER[i..] == [AFTER[i]] + AFTER[i + 1..];
    RunFrom(w, AFTER[0], AFTER[1..]);
    RunFrom(v1, AFTER[1], AFTER[2..]);
    RunFrom(v2, AFTER[2], AFTER[3..]);
    RunFrom(v3, AFTER[3], AFTER[4..]);
    RunFrom(v4, AFTER[4], AFTER[5..]);
    RunFrom(v5, AFTER[5], []);
  }
}
