/**
 * The device configuration store as a machine whose power can fail inside any flash
 * operation (device_config_store.c): two committed slots written in turn and a journal.
 */
module DeviceConfig {
  import opened Bytes
  import opened Options

  const TXN_ID_MAX: nat := 64
  const SECRET_MAX: nat := 96
  const REVISION_MAX: nat := 0xFFFF_FFFF

  /** struct device_config: two flags derived from the secrets, and everything else. */
  datatype Config = Config(rest: seq<Byte>, wifiPasswordSet: bool, adminPasswordSet: bool)

  datatype Secrets = Secrets(wifi: seq<Byte>, admin: seq<Byte>)

  datatype Record = Record(revision: nat, base: nat, txn: seq<Byte>, config: Config, secrets: Secrets)

  /** A slot as read_slot() finds it; torn, foreign and newer-schema records are Unreadable. */
  datatype Slot = Empty | Unreadable | Holds(rec: Record)

  datatype SlotId = A | B | Journal

  datatype Flash = Flash(a: Slot, b: Slot, journal: Slot)

  function At(f: Flash, s: SlotId): Slot {
    match s case A => f.a case B => f.b case Journal => f.journal
  }

  function Put(f: Flash, s: SlotId, v: Slot): Flash {
    match s
    case A => f.(a := v)
    case B => f.(b := v)
    case Journal => f.(journal := v)
  }

  /** What a flash operation leaves in its slot, what it answers, and whether it ever answers. */
  datatype Io = Io(left: Slot, ok: bool, powerLost: bool)

  /** A write leaves the old record, the new one, or nothing readable; success proves nothing. */
  predicate CanWrite(before: Slot, rec: Record, io: Io) {
    io.left == before || io.left == Holds(rec) || io.left == Empty || io.left == Unreadable
  }

  /** An erase that reports success has erased. */
  predicate CanErase(before: Slot, io: Io) {
    && (io.left == before || io.left == Empty || io.left == Unreadable)
    && (io.ok && !io.powerLost ==> io.left == Empty)
  }

  datatype Ram = Ram(committed: Record, pending: Option<Record>)

  datatype Device = Off(flash: Flash) | On(flash: Flash, ram: Ram)

  datatype Rc = Ok | Invalid | Busy | StaleRevision | Overflow | IoError | NotFound | NoAnswer

  datatype SecretUpdate = Keep | Clear | Replace(value: seq<Byte>)

  datatype Update = Update(config: Config, wifi: SecretUpdate, admin: SecretUpdate)

  // ---- What the operations compute ----------------------------------------------------

  const DEFAULTS: Record := Record(0, 0, [], Config([], false, false), Secrets([], []))

  /** Revisions alternate slots: odd ones in A, even ones in B. */
  function SlotFor(revision: nat): SlotId { if revision % 2 == 1 then A else B }

  predicate TxnChar(c: Byte) {
    97 <= c <= 122 || 65 <= c <= 90 || 48 <= c <= 57 || c == 95 || c == 45
  }

  predicate TxnIdValid(id: seq<Byte>) {
    0 < |id| <= TXN_ID_MAX && (forall i | 0 <= i < |id| :: TxnChar(id[i]))
  }

  /** strncmp() over the first 64 characters. */
  predicate SameTxn(a: seq<Byte>, b: seq<Byte>) {
    (if |a| > TXN_ID_MAX then a[..TXN_ID_MAX] else a) == (if |b| > TXN_ID_MAX then b[..TXN_ID_MAX] else b)
  }

  predicate SecretValid(u: SecretUpdate) {
    u.Replace? ==> 0 < |u.value| <= SECRET_MAX
  }

  function NextSecret(old_: seq<Byte>, u: SecretUpdate): seq<Byte> {
    match u case Keep => old_ case Clear => [] case Replace(v) => v
  }

  /** The generation a transaction proposes. */
  function Proposed(committed: Record, u: Update, txn: seq<Byte>): Record {
    var secrets := Secrets(NextSecret(committed.secrets.wifi, u.wifi), NextSecret(committed.secrets.admin, u.admin));
    Record(committed.revision + 1, committed.revision, txn,
           Config(u.config.rest, secrets.wifi != [], secrets.admin != []), secrets)
  }

  /** write_slot(): written, and read back. */
  function WriteSlot(f: Flash, s: SlotId, rec: Record, io: Io): (Flash, Rc) {
    (Put(f, s, io.left),
     if io.powerLost then NoAnswer else if io.ok && io.left == Holds(rec) then Ok else IoError)
  }

  function EraseSlot(f: Flash, s: SlotId, io: Io): (Flash, Rc) {
    (Put(f, s, io.left), if io.powerLost then NoAnswer else if io.ok then Ok else IoError)
  }

  /** The checks of device_config_pending_begin() before anything is written. */
  function BeginRefusal(ram: Ram, u: Update, base: nat, txn: seq<Byte>): Rc {
    if !TxnIdValid(txn) then Invalid
    else if ram.pending.Some? then Busy
    else if base != ram.committed.revision then StaleRevision
    else if ram.committed.revision == REVISION_MAX then Overflow
    else if !SecretValid(u.wifi) || !SecretValid(u.admin) then Invalid
    else Ok
  }

  function Begin(d: Device, u: Update, base: nat, txn: seq<Byte>, write: Io, erase: Io): (Device, Rc) {
    if d.Off? then (d, NoAnswer)
    else if BeginRefusal(d.ram, u, base, txn) != Ok then (d, BeginRefusal(d.ram, u, base, txn))
    else
      var next := Proposed(d.ram.committed, u, txn);
      var (f, rc) := WriteSlot(d.flash, Journal, next, write);
      match rc
      case Ok => (On(f, d.ram.(pending := Some(next))), Ok)
      case NoAnswer => (Off(f), NoAnswer)
      case _ =>
        var (g, erased) := EraseSlot(f, Journal, erase);
        if erased == NoAnswer then (Off(g), NoAnswer) else (On(g, d.ram), IoError)
  }

  function Commit(d: Device, txn: seq<Byte>, write: Io, erase: Io): (Device, Rc) {
    if d.Off? then (d, NoAnswer)
    else if d.ram.pending.None? then (d, NotFound)
    else if !SameTxn(d.ram.pending.value.txn, txn) then (d, Invalid)
    else
      var next := d.ram.pending.value;
      var (f, rc) := WriteSlot(d.flash, SlotFor(d.ram.committed.revision + 1), next, write);
      match rc
      case Ok =>
        var (g, erased) := EraseSlot(f, Journal, erase);
        if erased == NoAnswer then (Off(g), NoAnswer) else (On(g, Ram(next, None)), Ok)
      case NoAnswer => (Off(f), NoAnswer)
      case _ => (On(f, d.ram), IoError)
  }

  function Rollback(d: Device, txn: seq<Byte>, erase: Io): (Device, Rc) {
    if d.Off? then (d, NoAnswer)
    else if d.ram.pending.None? then (d, NotFound)
    else if !SameTxn(d.ram.pending.value.txn, txn) then (d, Invalid)
    else
      var (f, rc) := EraseSlot(d.flash, Journal, erase);
      match rc
      case Ok => (On(f, d.ram.(pending := None)), Ok)
      case NoAnswer => (Off(f), NoAnswer)
      case _ => (On(f, d.ram), IoError)
  }

  /** Which generation device_config_init() takes: the readable one with the higher revision. */
  function Survivor(f: Flash): Record {
    match (f.a, f.b)
    case (Holds(a), Holds(b)) => if a.revision >= b.revision then a else b
    case (Holds(a), _) => a
    case (_, Holds(b)) => b
    case _ => DEFAULTS
  }

  datatype Report =
    | Clean | Defaults | Lost | Degraded
    | JournalCorrupt | RolledBack(txn: seq<Byte>) | CommitCompleted

  function CommittedReport(f: Flash): Report {
    if !f.a.Holds? && !f.b.Holds? then (if f.a.Empty? && f.b.Empty? then Defaults else Lost)
    else if f.a.Unreadable? || f.b.Unreadable? then Degraded
    else Clean
  }

  /** resolve_pending(), given what is in the journal. */
  function InitReport(f: Flash): Report {
    match f.journal
    case Empty => CommittedReport(f)
    case Unreadable => JournalCorrupt
    case Holds(p) => if p.revision > Survivor(f).revision then RolledBack(p.txn) else CommitCompleted
  }

  function Init(d: Device, erase: Io): (Device, Rc) {
    var committed := Ram(Survivor(d.flash), None);
    if d.flash.journal.Empty? then (On(d.flash, committed), Ok)
    else
      var (f, rc) := EraseSlot(d.flash, Journal, erase);
      if rc == NoAnswer then (Off(f), NoAnswer) else (On(f, committed), Ok)
  }

  // ---- Runs ---------------------------------------------------------------------------

  datatype Event =
    | BeginE(u: Update, base: nat, txn: seq<Byte>, write: Io, erase: Io)
    | CommitE(txn: seq<Byte>, write: Io, erase: Io)
    | RollbackE(txn: seq<Byte>, erase: Io)
    | InitE(erase: Io)
    | PowerCut

  function Apply(d: Device, e: Event): (Device, Rc) {
    match e
    case BeginE(u, base, txn, w, x) => Begin(d, u, base, txn, w, x)
    case CommitE(txn, w, x) => Commit(d, txn, w, x)
    case RollbackE(txn, x) => Rollback(d, txn, x)
    case InitE(x) => Init(d, x)
    case PowerCut => (Off(d.flash), NoAnswer)
  }

  /** The flash behaves like flash. */
  predicate Physical(d: Device, e: Event) {
    match e
    case BeginE(u, _, txn, w, x) =>
      d.On? ==> CanWrite(d.flash.journal, Proposed(d.ram.committed, u, txn), w) && CanErase(w.left, x)
    case CommitE(_, w, x) =>
      d.On? && d.ram.pending.Some? ==>
        && CanWrite(At(d.flash, SlotFor(d.ram.committed.revision + 1)), d.ram.pending.value, w)
        && CanErase(d.flash.journal, x)
    case RollbackE(_, x) => CanErase(d.flash.journal, x)
    case InitE(x) => CanErase(d.flash.journal, x)
    case PowerCut => true
  }

  /** A commit gets as far as writing. */
  predicate Attempts(d: Device, e: Event) {
    e.CommitE? && d.On? && d.ram.pending.Some? && SameTxn(d.ram.pending.value.txn, e.txn)
  }

  /**
   * What the world was told: the generation last reported to be in force, and those whose
   * commit was started since without being reported done.
   */
  datatype Ledger = Ledger(acked: Record, risk: set<Record>)

  function Told(l: Ledger, d: Device, e: Event): Ledger {
    var (d', rc) := Apply(d, e);
    if Attempts(d, e) then
      if rc == Ok then Ledger(d.ram.pending.value, {}) else Ledger(l.acked, l.risk + {d.ram.pending.value})
    else if e.InitE? && d'.On? then Ledger(d'.ram.committed, {})
    else l
  }

  /** password_set and admin_password_set say what the secrets are. */
  predicate Sealed(r: Record) {
    && (r.config.wifiPasswordSet <==> r.secrets.wifi != [])
    && (r.config.adminPasswordSet <==> r.secrets.admin != [])
    && |r.secrets.wifi| <= SECRET_MAX && |r.secrets.admin| <= SECRET_MAX
  }

  /** Odd generations are only ever in slot A, even ones in slot B. */
  predicate FlashOk(f: Flash) {
    && (f.a.Holds? ==> f.a.rec.revision % 2 == 1 && f.a.rec.revision <= REVISION_MAX && Sealed(f.a.rec))
    && (f.b.Holds? ==> f.b.rec.revision % 2 == 0 && 0 < f.b.rec.revision <= REVISION_MAX && Sealed(f.b.rec))
    && (f.journal.Holds? ==> f.journal.rec.revision <= REVISION_MAX && Sealed(f.journal.rec))
  }

  /** The generation in force is on flash, in its slot; the other slot has nothing newer but what is at risk. */
  predicate Durable(f: Flash, l: Ledger) {
    && (if l.acked.revision == 0 then l.acked == DEFAULTS && !f.b.Holds?
        else At(f, SlotFor(l.acked.revision)) == Holds(l.acked))
    && var other := At(f, SlotFor(l.acked.revision + 1));
       other.Holds? ==> other.rec.revision < l.acked.revision || other.rec in l.risk
  }

  predicate Inv(d: Device, l: Ledger) {
    && FlashOk(d.flash) && Durable(d.flash, l)
    && Sealed(l.acked) && l.acked.revision <= REVISION_MAX
    && (forall r | r in l.risk :: r.revision == l.acked.revision + 1)
    && (d.On? ==>
          && d.ram.committed == l.acked
          && (d.ram.pending.Some? ==>
                && Sealed(d.ram.pending.value)
                && d.ram.pending.value.revision == l.acked.revision + 1 <= REVISION_MAX
                && d.ram.pending.value.base == l.acked.revision))
  }

  /** A flash nobody has written to by another hand starts a run. */
  lemma StartInv(f: Flash)
    requires FlashOk(f)
    ensures Inv(Off(f), Ledger(Survivor(f), {}))
  {
  }

  /** Power may go at any moment: what comes back is the generation in force, or one at risk. */
  lemma SurvivorIs(d: Device, l: Ledger)
    requires Inv(d, l)
    ensures Survivor(d.flash) == l.acked || Survivor(d.flash) in l.risk
    ensures l.risk == {} ==> Survivor(d.flash) == l.acked
  {
  }

  lemma ProposedIsSealed(committed: Record, u: Update, txn: seq<Byte>)
    requires Sealed(committed) && SecretValid(u.wifi) && SecretValid(u.admin)
    ensures Sealed(Proposed(committed, u, txn))
  {
  }

  lemma BeginKeepsInv(d: Device, l: Ledger, e: Event)
    requires Inv(d, l) && Physical(d, e) && e.BeginE?
    ensures Inv(Apply(d, e).0, l) && SameSlots(Apply(d, e).0.flash, d.flash)
  {
    if d.On? && BeginRefusal(d.ram, e.u, e.base, e.txn) == Ok {
      ProposedIsSealed(d.ram.committed, e.u, e.txn);
      hide Sealed, Proposed;
      var (f, rc) := WriteSlot(d.flash, Journal, Proposed(d.ram.committed, e.u, e.txn), e.write);
      assert FlashOk(f);
    }
  }

  predicate SameSlots(f: Flash, g: Flash) { f.a == g.a && f.b == g.b }

  /** The write of a commit: the old generation stays where it is, the other slot is at risk. */
  lemma CommitWrite(f: Flash, l: Ledger, next: Record, io: Io)
    requires FlashOk(f) && Durable(f, l) && next.revision == l.acked.revision + 1 <= REVISION_MAX && Sealed(next)
    requires CanWrite(At(f, SlotFor(next.revision)), next, io)
    ensures var g := Put(f, SlotFor(next.revision), io.left);
            && FlashOk(g) && Durable(g, Ledger(l.acked, l.risk + {next}))
            && g.journal == f.journal
            && (io.left == Holds(next) ==> Durable(g, Ledger(next, {})))
  {
    hide Sealed;
    assert SlotFor(next.revision + 1) == SlotFor(l.acked.revision) || l.acked.revision == 0;
  }

  lemma CommitKeepsInv(d: Device, l: Ledger, e: Event)
    requires Inv(d, l) && Physical(d, e) && Attempts(d, e)
    ensures Inv(Apply(d, e).0, Told(l, d, e))
  {
    CommitWrite(d.flash, l, d.ram.pending.value, e.write);
    hide Sealed, CanWrite, SlotFor;
  }

  lemma RestKeepsInv(d: Device, l: Ledger, e: Event)
    requires Inv(d, l) && Physical(d, e) && (e.RollbackE? || e.PowerCut? || (e.CommitE? && !Attempts(d, e)))
    ensures Inv(Apply(d, e).0, l) && SameSlots(Apply(d, e).0.flash, d.flash)
  {
    hide Sealed;
  }

  /** Erasing the journal touches neither slot. */
  lemma EraseKeepsSlots(f: Flash, l: Ledger, io: Io)
    requires FlashOk(f) && Durable(f, l) && CanErase(f.journal, io)
    ensures var g := EraseSlot(f, Journal, io).0; FlashOk(g) && Durable(g, l) && SameSlots(g, f)
  {
    hide Sealed;
  }

  lemma InitKeepsInv(d: Device, l: Ledger, e: Event)
    requires Inv(d, l) && Physical(d, e) && e.InitE?
    ensures Inv(Apply(d, e).0, Told(l, d, e)) && SameSlots(Apply(d, e).0.flash, d.flash)
  {
    var l' := Ledger(Survivor(d.flash), {});
    StartInv(d.flash);
    EraseKeepsSlots(d.flash, l', e.erase);
    EraseKeepsSlots(d.flash, l, e.erase);
    hide Sealed, Survivor, FlashOk, Durable, EraseSlot, CanErase;
  }

  lemma StepKeepsInv(d: Device, l: Ledger, e: Event)
    requires Inv(d, l) && Physical(d, e)
    ensures Inv(Apply(d, e).0, Told(l, d, e))
    ensures !Attempts(d, e) ==> SameSlots(Apply(d, e).0.flash, d.flash)
  {
    hide Inv, Physical, Apply, Attempts, SameSlots;
    if Attempts(d, e) {
      CommitKeepsInv(d, l, e);
    } else if e.BeginE? {
      BeginKeepsInv(d, l, e);
    } else if e.InitE? {
      InitKeepsInv(d, l, e);
    } else {
      RestKeepsInv(d, l, e);
    }
  }

  function Run(d: Device, run: seq<Event>): Device
    decreases |run|
  {
    if run == [] then d else Run(Apply(d, run[0]).0, run[1..])
  }

  predicate PhysicalRun(d: Device, run: seq<Event>)
    decreases |run|
  {
    run == [] || (Physical(d, run[0]) && PhysicalRun(Apply(d, run[0]).0, run[1..]))
  }

  function LedgerAfter(d: Device, l: Ledger, run: seq<Event>): Ledger
    decreases |run|
  {
    if run == [] then l else LedgerAfter(Apply(d, run[0]).0, Told(l, d, run[0]), run[1..])
  }

  lemma {:induction false} RunKeepsInv(d: Device, l: Ledger, run: seq<Event>)
    requires Inv(d, l) && PhysicalRun(d, run)
    ensures Inv(Run(d, run), LedgerAfter(d, l, run))
    decreases |run|
  {
    if run != [] {
      StepKeepsInv(d, l, run[0]);
      RunKeepsInv(Apply(d, run[0]).0, Told(l, d, run[0]), run[1..]);
    }
  }

  /**
   * For every run, cut anywhere: init takes the generation last reported in force, or one
   * whose commit was started since and never reported done; its flags say what its secrets
   * are. Without such a commit there is only one answer.
   */
  lemma RecoversOldOrNew(f: Flash, run: seq<Event>, erase: Io)
    requires FlashOk(f) && PhysicalRun(Off(f), run)
    requires CanErase(Run(Off(f), run).flash.journal, erase) && !erase.powerLost
    ensures var d := Run(Off(f), run);
            var l := LedgerAfter(Off(f), Ledger(Survivor(f), {}), run);
            var (up, rc) := Init(d, erase);
            && rc == Ok && up.On? && up.ram.pending.None?
            && Sealed(up.ram.committed)
            && (up.ram.committed == l.acked || up.ram.committed in l.risk)
            && (l.risk == {} ==> up.ram.committed == l.acked)
            && (d.On? ==> d.ram.committed == l.acked)
  {
    hide Durable, FlashOk, Sealed;
    var l0 := Ledger(Survivor(f), {});
    StartInv(f);
    RunKeepsInv(Off(f), l0, run);
    SurvivorIs(Run(Off(f), run), LedgerAfter(Off(f), l0, run));
    StepKeepsInv(Run(Off(f), run), LedgerAfter(Off(f), l0, run), InitE(erase));
  }

  /** One transaction, one cut: only a commit can change what a reboot brings back, and only to its own. */
  lemma OnlyCommitChangesSurvivor(d: Device, l: Ledger, e: Event)
    requires Inv(d, l) && Physical(d, e)
    ensures var s := Survivor(Apply(d, e).0.flash);
            && (!Attempts(d, e) ==> s == Survivor(d.flash))
            && (Attempts(d, e) ==> s == Survivor(d.flash) || s == l.acked || s == d.ram.pending.value)
            && (Attempts(d, e) && Apply(d, e).1 == Ok ==> s == d.ram.pending.value)
  {
    hide Sealed;
    if Attempts(d, e) {
      SurvivorOfCommit(d.flash, l, d.ram.pending.value, e.write);
    } else {
      StepKeepsInv(d, l, e);
    }
  }

  lemma SurvivorOfCommit(f: Flash, l: Ledger, next: Record, io: Io)
    requires FlashOk(f) && Durable(f, l) && next.revision == l.acked.revision + 1
    requires forall r | r in l.risk :: r.revision == l.acked.revision + 1
    requires CanWrite(At(f, SlotFor(next.revision)), next, io)
    ensures var s := Survivor(Put(f, SlotFor(next.revision), io.left));
            && (s == Survivor(f) || s == l.acked || s == next)
            && (io.left == Holds(next) ==> s == next)
  {
    hide Sealed;
  }

  /** While a commit is under way the copy it replaces is never touched. */
  lemma CommitSparesTheGoodCopy(d: Device, txn: seq<Byte>, write: Io, erase: Io)
    requires d.On?
    ensures var (d', rc) := Commit(d, txn, write, erase);
            var kept := SlotFor(d.ram.committed.revision);
            At(d'.flash, kept) == At(d.flash, kept)
  {
  }

  // ---- A commit that failed and is there all the same ---------------------------------------

  /** The slot the next commit would write already holds a generation of that number. */
  predicate Orphan(d: Device)
    requires d.On?
  {
    var other := At(d.flash, SlotFor(d.ram.committed.revision + 1));
    other.Holds? && other.rec.revision == d.ram.committed.revision + 1
  }

  /** Whether a reboot brings back what is in force now is exactly whether there is an orphan. */
  lemma RebootKeepsUnlessOrphan(d: Device, l: Ledger)
    requires Inv(d, l) && d.On?
    ensures Survivor(d.flash) == d.ram.committed <==> !Orphan(d)
  {
  }

  /** An orphan is left only by a commit that was refused its success although its bytes are on flash. */
  lemma OrphanComesFromFailedCommit(d: Device, l: Ledger, e: Event)
    requires Inv(d, l) && Physical(d, e)
    requires Apply(d, e).0.On? && Orphan(Apply(d, e).0) && !(d.On? && Orphan(d))
    ensures Attempts(d, e) && Apply(d, e).1 == IoError && e.write.left == Holds(d.ram.pending.value)
  {
    hide Sealed;
    StepKeepsInv(d, l, e);
    var d' := Apply(d, e).0;
    if Attempts(d, e) {
      SurvivorOfCommit(d.flash, l, d.ram.pending.value, e.write);
    } else {
      RebootKeepsUnlessOrphan(d', Told(l, d, e));
    }
  }

  /** What init reports of the journal is what happened to it, unless an orphan took its number. */
  lemma ReportIsTrueUnlessOrphan(d: Device, l: Ledger)
    requires Inv(d, l) && d.On? && d.ram.pending.Some? && d.flash.journal == Holds(d.ram.pending.value)
    ensures InitReport(d.flash) == RolledBack(d.ram.pending.value.txn) <==> !Orphan(d)
    ensures InitReport(d.flash) == CommitCompleted <==> Orphan(d)
  {
  }

  /** A transaction that was rolled back, with success reported, comes back after a reboot. */
  lemma RolledBackGenerationReturns() returns (run: seq<Event>, rollback: Event, erase: Io)
    ensures var blank := Off(Flash(Empty, Empty, Empty));
            var d := Run(blank, run);
            var (after, rc) := Apply(d, rollback);
            && PhysicalRun(blank, run) && Physical(d, rollback) && CanErase(after.flash.journal, erase)
            && rollback.RollbackE? && d.On? && d.ram.committed == DEFAULTS
            && rc == Ok && after.ram.committed == DEFAULTS
            && Survivor(Apply(after, PowerCut).0.flash) == d.ram.pending.value
  {
    var blank := Flash(Empty, Empty, Empty);
    var fine := Io(Empty, true, false);
    var u := Update(Config([], false, false), Keep, Keep);
    var txn: seq<Byte> := [97];
    var rec := Proposed(DEFAULTS, u, txn);
    var begin := BeginE(u, 0, txn, Io(Holds(rec), true, false), fine);
    var commit := CommitE(txn, Io(Holds(rec), false, false), fine);
    run, rollback, erase := [InitE(fine), begin, commit], RollbackE(txn, fine), fine;
    var d1 := On(blank, Ram(DEFAULTS, None));
    var d2 := On(Flash(Empty, Empty, Holds(rec)), Ram(DEFAULTS, Some(rec)));
    var d3 := On(Flash(Holds(rec), Empty, Holds(rec)), Ram(DEFAULTS, Some(rec)));
    assert Apply(Off(blank), run[0]) == (d1, Ok) && Apply(d1, begin) == (d2, Ok) && Apply(d2, commit) == (d3, IoError);
    assert run[1..] == [begin, commit] && [begin, commit][1..] == [commit] && [commit][1..] == [];
    assert Run(d2, [commit]) == d3 && Run(d1, [begin, commit]) == d3;
    assert PhysicalRun(d2, [commit]) && PhysicalRun(d1, [begin, commit]);
  }

  // ---- The store itself ------------------------------------------------------------------

  class Store {
    var flash: Flash
    var powered: bool
    var committed: Record
    var pending: Option<Record>

    ghost function Dev(): Device
      reads this
    {
      if powered then On(flash, Ram(committed, pending)) else Off(flash)
    }

    constructor (flash: Flash)
      ensures Dev() == Off(flash)
    {
      this.flash := flash;
      powered, committed, pending := false, DEFAULTS, None;
    }

    /** write_slot(); the read-back is what notices a write that silently failed. */
    method WriteBack(s: SlotId, rec: Record, io: Io) returns (rc: Rc)
      modifies `flash, `powered
      ensures (flash, rc) == WriteSlot(old(flash), s, rec, io)
      ensures powered == (old(powered) && rc != NoAnswer)
    {
      flash := Put(flash, s, io.left);
      if io.powerLost {
        powered := false;
        return NoAnswer;
      }
      if !io.ok {
        return IoError;
      }
      var verify := At(flash, s);
      return if verify == Holds(rec) then Ok else IoError;
    }

    method Erase(s: SlotId, io: Io) returns (rc: Rc)
      modifies `flash, `powered
      ensures (flash, rc) == EraseSlot(old(flash), s, io)
      ensures powered == (old(powered) && rc != NoAnswer)
    {
      flash := Put(flash, s, io.left);
      if io.powerLost {
        powered := false;
        return NoAnswer;
      }
      return if io.ok then Ok else IoError;
    }

    /** txn_id_is_valid() */
    static method CheckTxnId(id: seq<Byte>) returns (valid: bool)
      ensures valid == TxnIdValid(id)
    {
      var len := 0;
      while len <= TXN_ID_MAX && len < |id|
        invariant len <= |id| && len <= TXN_ID_MAX + 1
        invariant forall i | 0 <= i < len :: TxnChar(id[i])
      {
        if !TxnChar(id[len]) {
          return false;
        }
        len := len + 1;
      }
      return 0 < len <= TXN_ID_MAX;
    }

    /** apply_secret_update() */
    static method ResolveSecret(current: seq<Byte>, u: SecretUpdate) returns (rc: Rc, next: seq<Byte>)
      ensures rc == if SecretValid(u) then Ok else Invalid
      ensures rc == Ok ==> next == NextSecret(current, u)
    {
      match u
      case Keep => return Ok, current;
      case Clear => return Ok, [];
      case Replace(value) =>
        if |value| == 0 || |value| > SECRET_MAX {
          return Invalid, [];
        }
        return Ok, value;
    }

    /** device_config_pending_begin() */
    method PendingBegin(u: Update, base: nat, txn: seq<Byte>, write: Io, erase: Io) returns (rc: Rc)
      requires powered
      modifies this
      ensures (Dev(), rc) == Begin(old(Dev()), u, base, txn, write, erase)
    {
      var valid := CheckTxnId(txn);
      if !valid {
        return Invalid;
      }
      if pending.Some? {
        return Busy;
      }
      if base != committed.revision {
        return StaleRevision;
      }
      if committed.revision == REVISION_MAX {
        return Overflow;
      }
      var wifi, admin;
      rc, wifi := ResolveSecret(committed.secrets.wifi, u.wifi);
      if rc != Ok {
        return;
      }
      rc, admin := ResolveSecret(committed.secrets.admin, u.admin);
      if rc != Ok {
        return;
      }
      var config := u.config.(wifiPasswordSet := wifi != [], adminPasswordSet := admin != []);
      var next := Record(committed.revision + 1, base, txn, config, Secrets(wifi, admin));
      rc := WriteBack(Journal, next, write);
      if rc == NoAnswer {
        return;
      }
      if rc != Ok {
        rc := Erase(Journal, erase);
        if rc != NoAnswer {
          rc := IoError;
        }
        return;
      }
      pending := Some(next);
    }

    /** inactive_committed_slot() */
    function InactiveSlot(): (s: SlotId)
      reads this
      ensures s == SlotFor(committed.revision + 1)
    {
      if committed.revision % 2 == 0 then A else B
    }

    /** device_config_pending_commit() */
    method PendingCommit(txn: seq<Byte>, write: Io, erase: Io) returns (rc: Rc)
      requires powered
      modifies this
      ensures (Dev(), rc) == Commit(old(Dev()), txn, write, erase)
    {
      if pending.None? {
        return NotFound;
      }
      if !SameTxn(pending.value.txn, txn) {
        return Invalid;
      }
      rc := WriteBack(InactiveSlot(), pending.value, write);
      if rc == NoAnswer {
        return;
      }
      if rc != Ok {
        return IoError;
      }
      committed := pending.value;
      rc := Erase(Journal, erase);
      if rc == NoAnswer {
        return;
      }
      pending := None;
      rc := Ok;
    }

    /** device_config_pending_rollback() */
    method PendingRollback(txn: seq<Byte>, erase: Io) returns (rc: Rc)
      requires powered
      modifies this
      ensures (Dev(), rc) == Rollback(old(Dev()), txn, erase)
    {
      if pending.None? {
        return NotFound;
      }
      if !SameTxn(pending.value.txn, txn) {
        return Invalid;
      }
      rc := Erase(Journal, erase);
      if rc == NoAnswer {
        return;
      }
      if rc != Ok {
        return IoError;
      }
      pending := None;
    }

    /** device_config_init() */
    method Boot(erase: Io) returns (rc: Rc, report: Report)
      modifies this
      ensures (Dev(), rc) == Init(old(Dev()), erase)
      ensures report == InitReport(old(flash))
    {
      powered, pending := true, None;
      var a, b := flash.a, flash.b;
      report := Clean;
      if a.Holds? && b.Holds? {
        committed := if a.rec.revision >= b.rec.revision then a.rec else b.rec;
      } else if a.Holds? {
        committed := a.rec;
      } else if b.Holds? {
        committed := b.rec;
      } else {
        committed := DEFAULTS;
        report := if a.Empty? && b.Empty? then Defaults else Lost;
      }
      if (a.Holds? || b.Holds?) && (a.Unreadable? || b.Unreadable?) {
        report := Degraded;
      }
      // resolve_pending()
      if flash.journal.Empty? {
        return Ok, report;
      }
      report := if flash.journal.Unreadable? then JournalCorrupt
                else if flash.journal.rec.revision > committed.revision then RolledBack(flash.journal.rec.txn)
                else CommitCompleted;
      rc := Erase(Journal, erase);
      if rc != NoAnswer {
        rc := Ok;
      }
    }
  }
}
