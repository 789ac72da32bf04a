/** The job table: full records, the compact records that outlive them, and the rules of both (job_manager.c). */
module Jobs {
  import opened Options

  datatype State = Queued | Running | WaitingConfirmation | Succeeded | Failed | Cancelled | Interrupted

  predicate Terminal(s: State) {
    s.Succeeded? || s.Failed? || s.Cancelled? || s.Interrupted?
  }

  /** transition_allowed() */
  predicate Allowed(from: State, to: State) {
    if Terminal(from) then false
    else if Terminal(to) then true
    else
      match from
      case Queued => to.Running?
      case Running => to.WaitingConfirmation?
      case WaitingConfirmation => to.Running?
      case _ => false
  }

  /** A full record; `key` is empty for a job without an idempotency key. */
  datatype Job = Job(
    id: nat, kind: nat, state: State, cancellable: bool, updated: int,
    key: string, hash: nat, retryable: Option<bool>)

  datatype Compact = Compact(id: nat, kind: nat, state: State, key: string, hash: nat, retired: int)

  datatype Table = Table(records: seq<Option<Job>>, compacts: seq<Option<Compact>>, counter: nat)

  // ---- Looking things up ------------------------------------------------------------------

  /** The first index from i on whose element satisfies p; |s| for none. */
  function FirstIndex<T>(s: seq<T>, p: T -> bool, i: nat): (k: nat)
    requires i <= |s|
    ensures i <= k <= |s|
    ensures k < |s| ==> p(s[k])
    ensures forall x | i <= x < k :: !p(s[x])
    decreases |s| - i
  {
    if i == |s| then i else if p(s[i]) then i else FirstIndex(s, p, i + 1)
  }

  function IndexOf(t: Table, id: nat): (k: nat)
    ensures k <= |t.records|
  {
    FirstIndex(t.records, (r: Option<Job>) => r.Some? && r.value.id == id, 0)
  }

  /** find_record() */
  function Find(t: Table, id: nat): Option<Job> {
    var k := IndexOf(t, id);
    if k < |t.records| then t.records[k] else None
  }

  predicate Active(t: Table, id: nat) {
    Find(t, id).Some? && !Terminal(Find(t, id).value.state)
  }

  // ---- Changing one job -------------------------------------------------------------------

  datatype Rc = Ok | NoSuchJob | NotAllowed | NotPermitted

  function Update(t: Table, id: nat, j: Job): Table
    requires IndexOf(t, id) < |t.records|
  {
    t.(records := t.records[IndexOf(t, id) := Some(j)])
  }

  function SetState(t: Table, id: nat, s: State, now: int): (Table, Rc) {
    var r := Find(t, id);
    if r.None? then (t, NoSuchJob)
    else if !Allowed(r.value.state, s) then (t, NotAllowed)
    else (Update(t, id, r.value.(state := s, updated := now, cancellable := r.value.cancellable && !Terminal(s))), Ok)
  }

  function Fail(t: Table, id: nat, retryable: bool, now: int): (Table, Rc) {
    var r := Find(t, id);
    if r.None? then (t, NoSuchJob)
    else if !Allowed(r.value.state, Failed) then (t, NotAllowed)
    else (Update(t, id, r.value.(state := Failed, cancellable := false, retryable := Some(retryable),
        updated := now)), Ok)
  }

  function SetCancellable(t: Table, id: nat, cancellable: bool, now: int): (Table, Rc) {
    var r := Find(t, id);
    if r.None? then (t, NoSuchJob)
    else if Terminal(r.value.state) then (t, NotAllowed)
    else (Update(t, id, r.value.(cancellable := cancellable, updated := now)), Ok)
  }

  function Cancel(t: Table, id: nat, now: int): (Table, Rc) {
    var r := Find(t, id);
    if r.None? then (t, NoSuchJob)
    else if Terminal(r.value.state) then (t, NotAllowed)
    else if !r.value.cancellable then (t, NotPermitted)
    else (Update(t, id, r.value.(state := Cancelled, cancellable := false, updated := now)), Ok)
  }

  // ---- Creating one -------------------------------------------------------------------------

  /** expire_compacts() */
  function Expire(c: seq<Option<Compact>>, cutoff: int): (d: seq<Option<Compact>>)
    ensures |d| == |c|
    ensures forall i | 0 <= i < |c| :: d[i] == if c[i].Some? && c[i].value.retired < cutoff then None else c[i]
  {
    if c == [] then []
    else [if c[0].Some? && c[0].value.retired < cutoff then None else c[0]] + Expire(c[1..], cutoff)
  }

  datatype Lookup = Existing(id: nat) | Conflict | Nothing

  predicate HasKey(r: Option<Job>, key: string) { r.Some? && r.value.key != "" && r.value.key == key }

  predicate CompactHasKey(c: Option<Compact>, key: string) { c.Some? && c.value.key != "" && c.value.key == key }

  /** lookup_locked(): a full record wins over a compact one. */
  function LookupKey(t: Table, key: string, hash: nat): Lookup {
    var i := FirstIndex(t.records, r => HasKey(r, key), 0);
    if i < |t.records| then
      if t.records[i].value.hash != hash then Conflict else Existing(t.records[i].value.id)
    else
      var j := FirstIndex(t.compacts, c => CompactHasKey(c, key), 0);
      if j < |t.compacts| then
        if t.compacts[j].value.hash != hash then Conflict else Existing(t.compacts[j].value.id)
      else Nothing
  }

  /** job_find_by_key(); no key finds nothing. */
  function FindByKey(t: Table, key: string, hash: nat, cutoff: int): (Table, Lookup) {
    if key == "" then (t, Nothing)
    else
      var t0 := t.(compacts := Expire(t.compacts, cutoff));
      (t0, LookupKey(t0, key, hash))
  }

  /** The terminal record that was touched longest ago, the first of them; |s| for none. */
  function Victim(s: seq<Option<Job>>, n: nat): (k: nat)
    requires n <= |s|
    ensures k < n || k == |s|
    ensures k < |s| ==> s[k].Some? && Terminal(s[k].value.state)
    ensures forall i | 0 <= i < n && s[i].Some? && Terminal(s[i].value.state) ::
              k < |s| && s[k].value.updated <= s[i].value.updated
  {
    if n == 0 then |s|
    else
      var k := Victim(s, n - 1);
      var r := s[n - 1];
      if r.Some? && Terminal(r.value.state) && (k == |s| || r.value.updated < s[k].value.updated) then n - 1 else k
  }

  /** retire_to_compact()'s slot: the first free one, else the one retired longest ago. */
  function OldestCompact(c: seq<Option<Compact>>, n: nat): (k: nat)
    requires n <= |c| && forall i | 0 <= i < n :: c[i].Some?
    ensures if n == 0 then k == |c| else k < n
    ensures forall i | 0 <= i < n :: k < n && c[k].value.retired <= c[i].value.retired
  {
    if n == 0 then |c|
    else
      var k := OldestCompact(c, n - 1);
      if k == |c| || c[n - 1].value.retired < c[k].value.retired then n - 1 else k
  }

  function CompactSlot(c: seq<Option<Compact>>): (k: nat)
    ensures k <= |c| && (c != [] ==> k < |c|)
  {
    var free := FirstIndex(c, (x: Option<Compact>) => x.None?, 0);
    if free < |c| then free else OldestCompact(c, |c|)
  }

  function Retire(c: seq<Option<Compact>>, j: Job, now: int): (d: seq<Option<Compact>>)
    ensures |d| == |c|
  {
    var k := CompactSlot(c);
    if k == |c| then c else c[k := Some(Compact(j.id, j.kind, j.state, j.key, j.hash, now))]
  }

  datatype Params = Params(kind: nat, cancellable: bool, key: string, hash: nat)

  datatype Created = New(id: nat) | Old(id: nat) | KeyConflict | Exhausted

  /** claim_record(): a free record, else the terminal one to retire; |s| when all are in flight. */
  function ClaimSlot(s: seq<Option<Job>>): (k: nat)
    ensures k <= |s|
    ensures k < |s| && s[k].Some? ==> Terminal(s[k].value.state)
    ensures k == |s| ==> forall i | 0 <= i < |s| :: s[i].Some? && !Terminal(s[i].value.state)
  {
    var free := FirstIndex(s, (r: Option<Job>) => r.None?, 0);
    if free < |s| then free else Victim(s, |s|)
  }

  function Fresh(t: Table, p: Params, now: int): Job {
    Job(t.counter + 1, p.kind, Queued, p.cancellable, now, p.key, p.hash, None)
  }

  /** The new job in record k, whose old job, if any, is retired. */
  function Place(t: Table, k: nat, p: Params, now: int): Table
    requires k < |t.records|
  {
    Table(t.records[k := Some(Fresh(t, p, now))],
          if t.records[k].Some? then Retire(t.compacts, t.records[k].value, now) else t.compacts,
          t.counter + 1)
  }

  /** job_create() with valid parameters; now - retention is the cutoff of compact records. */
  function Create(t: Table, p: Params, now: int, cutoff: int): (Table, Created) {
    var t0 := t.(compacts := Expire(t.compacts, cutoff));
    var seen := if p.key == "" then Nothing else LookupKey(t0, p.key, p.hash);
    match seen
    case Existing(id) => (t0, Old(id))
    case Conflict => (t0, KeyConflict)
    case Nothing =>
      var k := ClaimSlot(t0.records);
      if k == |t0.records| then (t0, Exhausted)
      else (Place(t0, k, p, now), New(t0.counter + 1))
  }

  // ---- What every call keeps ------------------------------------------------------------------

  ghost predicate Valid(t: Table) {
    && (forall i | 0 <= i < |t.records| && t.records[i].Some? :: 0 < t.records[i].value.id <= t.counter)
    && (forall i, j | 0 <= i < j < |t.records| && t.records[i].Some? && t.records[j].Some? ::
          t.records[i].value.id != t.records[j].value.id)
  }

  function KeyOf(r: Option<Job>): string { if r.Some? then r.value.key else "" }

  function CompactKeyOf(c: Option<Compact>): string { if c.Some? then c.value.key else "" }

  /** The keys of both tiers, the full records' first. */
  function Keys(t: Table): (keys: seq<string>)
    ensures |keys| == |t.records| + |t.compacts|
    ensures forall i | 0 <= i < |keys| ::
              keys[i] == if i < |t.records| then KeyOf(t.records[i]) else CompactKeyOf(t.compacts[i - |t.records|])
  {
    seq(|t.records|, i requires 0 <= i < |t.records| => KeyOf(t.records[i]))
    + seq(|t.compacts|, j requires 0 <= j < |t.compacts| => CompactKeyOf(t.compacts[j]))
  }

  ghost predicate Distinct(keys: seq<string>) {
    forall i, j | 0 <= i < j < |keys| && keys[i] != "" :: keys[i] != keys[j]
  }

  /** An idempotency key names at most one job, in whichever tier it is. */
  ghost predicate KeysUnique(t: Table) { Distinct(Keys(t)) }

  lemma FindIs(t: Table, k: nat)
    requires Valid(t) && k < |t.records| && t.records[k].Some?
    ensures Find(t, t.records[k].value.id) == t.records[k] && IndexOf(t, t.records[k].value.id) == k
  {
  }

  lemma FindNone(t: Table, id: nat)
    requires forall k | 0 <= k < |t.records| && t.records[k].Some? :: t.records[k].value.id != id
    ensures Find(t, id).None?
  {
  }

  lemma UpdateFinds(t: Table, id: nat, j: Job)
    requires Valid(t) && Find(t, id).Some? && j.id == id
    ensures Valid(Update(t, id, j)) && Find(Update(t, id, j), id) == Some(j)
    ensures forall x | x != id :: Find(Update(t, id, j), x) == Find(t, x)
  {
    var t' := Update(t, id, j);
    var k := IndexOf(t, id);
    assert t'.records[k] == Some(j);
    FindIs(t', k);
    forall x | x != id
      ensures Find(t', x) == Find(t, x)
    {
      if Find(t, x).Some? {
        FindIs(t', IndexOf(t, x));
      } else {
        FindNone(t', x);
      }
    }
  }

  lemma PlaceFinds(t: Table, k: nat, p: Params, now: int)
    requires Valid(t) && k < |t.records| && (t.records[k].Some? ==> Terminal(t.records[k].value.state))
    ensures Place(t, k, p, now).counter == t.counter + 1
    ensures var t' := Place(t, k, p, now);
            && Valid(t') && Find(t, t.counter + 1).None? && Find(t', t.counter + 1) == Some(Fresh(t, p, now))
            && (forall id | Active(t, id) :: Find(t', id) == Find(t, id))
            && (forall id | id != t.counter + 1 && Find(t', id).Some? :: Find(t', id) == Find(t, id))
  {
    var t' := Place(t, k, p, now);
    FindIs(t', k);
    FindNone(t, t.counter + 1);
    forall id | id != t.counter + 1
      ensures Find(t', id).Some? ==> Find(t', id) == Find(t, id)
      ensures Active(t, id) ==> Find(t', id) == Find(t, id)
    {
      if Find(t', id).Some? {
        FindIs(t, IndexOf(t', id));
      }
      if Active(t, id) {
        FindIs(t', IndexOf(t, id));
      }
    }
  }

  /** The full records alone decide what Find() finds. */
  lemma SameRecords(t: Table, t': Table)
    requires t'.records == t.records && t'.counter == t.counter
    ensures Valid(t) <==> Valid(t')
    ensures forall id :: Find(t', id) == Find(t, id)
  {
  }

  /** Creating a job leaves every job still in flight exactly as it is. */
  lemma CreateKeepsActive(t: Table, p: Params, now: int, cutoff: int)
    requires Valid(t)
    ensures var (t', r) := Create(t, p, now, cutoff);
            && Valid(t')
            && (forall id | Active(t, id) :: Find(t', id) == Find(t, id))
            && (forall id | Find(t', id).Some? :: Find(t', id) == Find(t, id) || r == New(id))
            && (if r.New? then
                  r.id == t.counter + 1 && Find(t, r.id).None? && Find(t', r.id) == Some(Fresh(t, p, now))
                else t'.records == t.records)
  {
    hide Place, LookupKey, Find, Valid, Expire, ClaimSlot;
    var t0 := t.(compacts := Expire(t.compacts, cutoff));
    SameRecords(t, t0);
    var (t', r) := Create(t, p, now, cutoff);
    if r.New? {
      PlaceFinds(t0, ClaimSlot(t0.records), p, now);
    } else {
      SameRecords(t, t');
    }
  }

  // ---- Idempotency -------------------------------------------------------------------------

  /** A key is remembered for this job and this request, in one of the tiers. */
  ghost predicate Remembers(t: Table, key: string, hash: nat, id: nat) {
    || (exists i :: 0 <= i < |t.records| && HasKey(t.records[i], key)
                    && t.records[i].value.hash == hash && t.records[i].value.id == id)
    || (exists j :: 0 <= j < |t.compacts| && CompactHasKey(t.compacts[j], key)
                    && t.compacts[j].value.hash == hash && t.compacts[j].value.id == id)
  }

  /** Where a key is: the one place of it. */
  lemma OnePlace(t: Table, key: string, i: nat, j: nat)
    requires KeysUnique(t) && key != "" && i < |Keys(t)| && j < |Keys(t)| && Keys(t)[i] == key == Keys(t)[j]
    ensures i == j
  {
  }

  lemma RecordAnswers(t: Table, key: string, hash: nat, i: nat)
    requires KeysUnique(t) && key != "" && i < |t.records| && HasKey(t.records[i], key)
    ensures LookupKey(t, key, hash) == if t.records[i].value.hash == hash then Existing(t.records[i].value.id)
        else Conflict
  {
    var f := FirstIndex(t.records, r => HasKey(r, key), 0);
    assert Keys(t)[i] == key == Keys(t)[f];
    OnePlace(t, key, i, f);
  }

  lemma CompactAnswers(t: Table, key: string, hash: nat, j: nat)
    requires KeysUnique(t) && key != "" && j < |t.compacts| && CompactHasKey(t.compacts[j], key)
    ensures LookupKey(t, key, hash) == if t.compacts[j].value.hash == hash then Existing(t.compacts[j].value.id)
        else Conflict
  {
    var n := |t.records|;
    assert Keys(t)[n + j] == key;
    forall i | 0 <= i < n
      ensures !HasKey(t.records[i], key)
    {
      assert Keys(t)[i] == KeyOf(t.records[i]);
    }
    var f := FirstIndex(t.compacts, c => CompactHasKey(c, key), 0);
    assert Keys(t)[n + f] == key;
    OnePlace(t, key, n + j, n + f);
  }

  /** The lookup answers a key with the one job that is remembered under it. */
  lemma LookupAnswers(t: Table, key: string, hash: nat, id: nat)
    requires KeysUnique(t) && key != ""
    ensures Remembers(t, key, hash, id) <==> LookupKey(t, key, hash) == Existing(id)
  {
    if Remembers(t, key, hash, id) {
      if i :| 0 <= i < |t.records| && HasKey(t.records[i], key)
              && t.records[i].value.hash == hash && t.records[i].value.id == id {
        RecordAnswers(t, key, hash, i);
      } else {
        var j :| 0 <= j < |t.compacts| && CompactHasKey(t.compacts[j], key)
                 && t.compacts[j].value.hash == hash && t.compacts[j].value.id == id;
        CompactAnswers(t, key, hash, j);
      }
    }
    hide KeysUnique;
  }

  /** A key the table does not hold is nowhere among its keys. */
  lemma LookupNothing(t: Table, key: string, hash: nat)
    requires key != "" && LookupKey(t, key, hash).Nothing?
    ensures key !in Keys(t)
  {
    assert forall i | 0 <= i < |t.records| :: !HasKey(t.records[i], key);
    assert forall j | 0 <= j < |t.compacts| :: !CompactHasKey(t.compacts[j], key);
    forall i | 0 <= i < |Keys(t)|
      ensures Keys(t)[i] != key
    {
      assert i < |t.records| || !CompactHasKey(t.compacts[i - |t.records|], key);
    }
  }

  lemma ExpireKeepsKeysUnique(t: Table, cutoff: int)
    requires KeysUnique(t)
    ensures KeysUnique(t.(compacts := Expire(t.compacts, cutoff)))
  {
    var t' := t.(compacts := Expire(t.compacts, cutoff));
    forall i | 0 <= i < |Keys(t)|
      ensures Keys(t')[i] == Keys(t)[i] || Keys(t')[i] == ""
    {
      if |t.records| <= i {
        assert t'.compacts[i - |t.records|] in {None, t.compacts[i - |t.records|]};
      }
    }
    hide Keys;
  }

  lemma MoveKeepsDistinct(keys: seq<string>, i: nat, key: string, j: nat)
    requires Distinct(keys) && i < j < |keys| && (key == "" || key !in keys)
    ensures Distinct(keys[i := key][j := keys[i]])
  {
  }

  lemma DropKeepsDistinct(keys: seq<string>, i: nat, key: string)
    requires Distinct(keys) && i < |keys| && (key == "" || key !in keys)
    ensures Distinct(keys[i := key])
  {
  }

  /** Placing a job writes its key over one place, and moves the key it finds there to the other tier. */
  lemma PlaceMovesKeys(t: Table, k: nat, p: Params, now: int)
    requires k < |t.records|
    ensures var keys := Keys(t);
            Keys(Place(t, k, p, now)) ==
            if t.records[k].None? || t.compacts == [] then keys[k := p.key]
            else keys[k := p.key][|t.records| + CompactSlot(t.compacts) := keys[k]]
  {
    hide CompactSlot;
  }

  lemma PlaceKeepsKeysUnique(t: Table, k: nat, p: Params, now: int)
    requires KeysUnique(t) && k < |t.records|
    requires p.key == "" || LookupKey(t, p.key, p.hash).Nothing?
    ensures KeysUnique(Place(t, k, p, now))
  {
    hide LookupKey, CompactSlot, Distinct, Place, Keys;
    if p.key != "" {
      LookupNothing(t, p.key, p.hash);
    }
    PlaceMovesKeys(t, k, p, now);
    if t.records[k].None? || t.compacts == [] {
      DropKeepsDistinct(Keys(t), k, p.key);
    } else {
      MoveKeepsDistinct(Keys(t), k, p.key, |t.records| + CompactSlot(t.compacts));
    }
  }

  /** No key ever names two jobs, so a retried request can never start a second one while it is remembered. */
  lemma CreateKeepsKeysUnique(t: Table, p: Params, now: int, cutoff: int)
    requires KeysUnique(t)
    ensures KeysUnique(Create(t, p, now, cutoff).0)
  {
    hide LookupKey, Place, Expire, ClaimSlot, KeysUnique;
    ExpireKeepsKeysUnique(t, cutoff);
    var t0 := t.(compacts := Expire(t.compacts, cutoff));
    if Create(t, p, now, cutoff).1.New? {
      PlaceKeepsKeysUnique(t0, ClaimSlot(t0.records), p, now);
    }
  }

  /** A full record that has to make room is still remembered under its key. */
  lemma EvictionRemembers(t: Table, k: nat, p: Params, now: int)
    requires k < |t.records| && t.records[k].Some? && t.records[k].value.key != "" && t.compacts != []
    ensures var j := t.records[k].value; Remembers(Place(t, k, p, now), j.key, j.hash, j.id)
  {
    var t' := Place(t, k, p, now);
    var c := CompactSlot(t.compacts);
    assert CompactHasKey(t'.compacts[c], t.records[k].value.key);
  }

  // ---- The calls other threads make --------------------------------------------------------------

  datatype Call =
    | CreateCall(p: Params, cutoff: int)
    | CancelCall(id: nat)
    | StateCall(id: nat, to: State)
    | FailCall(id: nat, retryable: bool)
    | CancellableCall(id: nat, on: bool)

  function Apply(t: Table, c: Call, now: int): Table {
    match c
    case CreateCall(p, cutoff) => Create(t, p, now, cutoff).0
    case CancelCall(id) => Cancel(t, id, now).0
    case StateCall(id, to) => SetState(t, id, to, now).0
    case FailCall(id, retryable) => Fail(t, id, retryable, now).0
    case CancellableCall(id, on) => SetCancellable(t, id, on, now).0
  }

  /** Nobody but its owner moves a job; anyone may create jobs and ask for cancellations. */
  predicate LeavesToOwner(c: Call, id: nat) {
    c.CreateCall? || c.CancelCall? || c.id != id
  }

  lemma FindHasId(t: Table, id: nat)
    ensures Find(t, id).Some? ==> Find(t, id).value.id == id && IndexOf(t, id) < |t.records|
  {
  }

  /** A call on a job touches that job alone, an ended one not at all, and only a cancellable one is cancelled. */
  lemma TouchesOneJob(t: Table, c: Call, now: int)
    requires Valid(t) && !c.CreateCall?
    ensures var t' := Apply(t, c, now);
            && Valid(t')
            && (forall x | x != c.id :: Find(t', x) == Find(t, x))
            && (!Active(t, c.id) ==> Find(t', c.id) == Find(t, c.id))
            && (Active(t, c.id) && c.CancelCall? && !Find(t, c.id).value.cancellable ==>
                 Find(t', c.id) == Find(t, c.id))
            && t'.counter == t.counter && t'.compacts == t.compacts
  {
    FindHasId(t, c.id);
    hide Find, Valid;
    if Find(t, c.id).Some? {
      var j := Find(t, c.id).value;
      match c
      case CancelCall(_) =>
        UpdateFinds(t, c.id, j.(state := Cancelled, cancellable := false, updated := now));
      case StateCall(_, to) =>
        UpdateFinds(t, c.id, j.(state := to, updated := now, cancellable := j.cancellable && !Terminal(to)));
      case FailCall(_, retryable) =>
        UpdateFinds(t, c.id, j.(state := Failed, cancellable := false, retryable := Some(retryable), updated := now));
      case CancellableCall(_, on) =>
        UpdateFinds(t, c.id, j.(cancellable := on, updated := now));
    }
  }

  lemma SetStateEffect(t: Table, id: nat, s: State, now: int)
    requires Valid(t)
    ensures var t' := SetState(t, id, s, now).0;
            var r := Find(t, id);
            && Valid(t') && t'.counter == t.counter
            && (if r.None? || !Allowed(r.value.state, s) then t' == t
                else Find(t', id) == Some(r.value.(state := s, updated := now,
                                                   cancellable := r.value.cancellable && !Terminal(s))))
  {
    FindHasId(t, id);
    hide Find, Valid, Allowed;
    if Find(t, id).Some? {
      var j := Find(t, id).value;
      UpdateFinds(t, id, j.(state := s, updated := now, cancellable := j.cancellable && !Terminal(s)));
    }
  }

  lemma FailEffect(t: Table, id: nat, retryable: bool, now: int)
    requires Valid(t)
    ensures var t' := Fail(t, id, retryable, now).0;
            var r := Find(t, id);
            && Valid(t') && t'.counter == t.counter
            && (if r.None? || Terminal(r.value.state) then t' == t
                else Find(t', id) == Some(r.value.(state := Failed, cancellable := false,
                                                   retryable := Some(retryable), updated := now)))
  {
    FindHasId(t, id);
    hide Find, Valid;
    if Find(t, id).Some? {
      var j := Find(t, id).value;
      UpdateFinds(t, id, j.(state := Failed, cancellable := false, retryable := Some(retryable), updated := now));
    }
  }

  lemma ApplyKeepsValid(t: Table, c: Call, now: int)
    requires Valid(t)
    ensures Valid(Apply(t, c, now))
  {
    hide Find, Create, Valid, Update;
    if c.CreateCall? {
      CreateKeepsActive(t, c.p, now, c.cutoff);
    } else {
      TouchesOneJob(t, c, now);
    }
  }

  /** A job in flight that must not be cancelled is out of reach of every call but its owner's. */
  lemma OutOfReach(t: Table, c: Call, now: int, id: nat)
    requires Valid(t) && Active(t, id) && !Find(t, id).value.cancellable && LeavesToOwner(c, id)
    ensures Find(Apply(t, c, now), id) == Find(t, id)
  {
    if c.CreateCall? {
      hide Find, Create;
      CreateKeepsActive(t, c.p, now, c.cutoff);
    } else {
      hide Find, Apply, Valid;
      TouchesOneJob(t, c, now);
    }
  }

  function Calls(t: Table, calls: seq<(Call, int)>): Table
    decreases |calls|
  {
    if calls == [] then t else Calls(Apply(t, calls[0].0, calls[0].1), calls[1..])
  }

  /** ... whatever the number and the order of those calls. */
  lemma {:induction false} NeverEvictedNorCancelled(t: Table, calls: seq<(Call, int)>, id: nat)
    requires Valid(t) && Active(t, id) && !Find(t, id).value.cancellable
    requires forall c | c in calls :: LeavesToOwner(c.0, id)
    ensures Valid(Calls(t, calls)) && Find(Calls(t, calls), id) == Find(t, id)
    decreases |calls|
  {
    if calls != [] {
      hide Find, Apply, Valid;
      OutOfReach(t, calls[0].0, calls[0].1, id);
      ApplyKeepsValid(t, calls[0].0, calls[0].1);
      NeverEvictedNorCancelled(Apply(t, calls[0].0, calls[0].1), calls[1..], id);
    }
  }

  lemma CounterGrows(t: Table, c: Call, now: int)
    ensures t.counter <= Apply(t, c, now).counter
  {
  }

  /** The id of a job whose record is gone is never given to another. */
  lemma NeverAgain(t: Table, c: Call, now: int, id: nat)
    requires Valid(t) && Find(t, id).None? && id <= t.counter
    ensures Find(Apply(t, c, now), id).None?
  {
    if c.CreateCall? {
      hide Find, Create;
      CreateKeepsActive(t, c.p, now, c.cutoff);
    } else {
      hide Find, Apply, Valid;
      TouchesOneJob(t, c, now);
    }
  }

  /** An ended job keeps its outcome for as long as its record lives. */
  lemma TerminalIsFinal(t: Table, c: Call, now: int, id: nat)
    requires Valid(t) && Find(t, id).Some? && Terminal(Find(t, id).value.state)
    ensures Find(Apply(t, c, now), id) == Find(t, id) || Find(Apply(t, c, now), id).None?
  {
    if c.CreateCall? {
      hide Find, Create;
      CreateKeepsActive(t, c.p, now, c.cutoff);
    } else {
      hide Find, Apply, Valid;
      TouchesOneJob(t, c, now);
    }
  }

  // ---- The manager ------------------------------------------------------------------------------

  /** What the manager's lock guards. Every method below is one critical section, or a part of one. */
  class Manager {
    const records: array<Option<Job>>
    const compacts: array<Option<Compact>>
    var counter: nat

    ghost function View(): Table
      reads this, records, compacts
    {
      Table(records[..], compacts[..], counter)
    }

    constructor (full: nat, compact: nat)
      ensures View() == Table(seq(full, i => None), seq(compact, i => None), 0)
      ensures fresh(records) && fresh(compacts)
    {
      records := new Option<Job>[full](i => None);
      compacts := new Option<Compact>[compact](i => None);
      counter := 0;
      new;
      assert records[..] == seq(full, i => None);
      assert compacts[..] == seq(compact, i => None);
    }

    method FindRecord(id: nat) returns (k: nat)
      ensures k == IndexOf(View(), id)
    {
      ghost var p := (r: Option<Job>) => r.Some? && r.value.id == id;
      k := 0;
      while k < records.Length
        invariant k <= records.Length
        invariant IndexOf(View(), id) == FirstIndex(records[..], p, k)
      {
        if records[k].Some? && records[k].value.id == id {
          return;
        }
        k := k + 1;
      }
    }

    method ExpireCompacts(cutoff: int)
      modifies compacts
      ensures compacts[..] == Expire(old(compacts[..]), cutoff)
    {
      ghost var was := compacts[..];
      var i := 0;
      while i < compacts.Length
        invariant i <= compacts.Length
        invariant forall x | 0 <= x < i :: compacts[x] == Expire(was, cutoff)[x]
        invariant forall x | i <= x < compacts.Length :: compacts[x] == was[x]
      {
        if compacts[i].Some? && compacts[i].value.retired < cutoff {
          compacts[i] := None;
        }
        i := i + 1;
      }
    }

    method RetireToCompact(j: Job, now: int)
      modifies compacts
      ensures compacts[..] == Retire(old(compacts[..]), j, now)
    {
      var slot := compacts.Length;
      var i := 0;
      ghost var free := (x: Option<Compact>) => x.None?;
      while i < compacts.Length
        invariant i <= compacts.Length
        invariant forall x | 0 <= x < i :: compacts[x].Some?
        invariant FirstIndex(compacts[..], free, 0) == FirstIndex(compacts[..], free, i)
        invariant slot == OldestCompact(compacts[..], i)
      {
        if compacts[i].None? {
          slot := i;
          break;
        }
        if slot == compacts.Length || compacts[i].value.retired < compacts[slot].value.retired {
          slot := i;
        }
        i := i + 1;
      }
      assert slot == CompactSlot(compacts[..]);
      if slot < compacts.Length {
        compacts[slot] := Some(Compact(j.id, j.kind, j.state, j.key, j.hash, now));
      }
    }

    /** The record that is free to use; its old job is retired first. */
    method ClaimRecord(now: int) returns (k: nat)
      modifies records, compacts
      ensures k == ClaimSlot(old(records[..]))
      ensures records[..] == if k == records.Length then old(records[..]) else old(records[..])[k := None]
      ensures compacts[..] == if k < records.Length && old(records[..])[k].Some?
                              then Retire(old(compacts[..]), old(records[..])[k].value, now) else old(compacts[..])
    {
      ghost var free := (r: Option<Job>) => r.None?;
      k := 0;
      while k < records.Length
        invariant k <= records.Length
        invariant FirstIndex(records[..], free, 0) == FirstIndex(records[..], free, k)
      {
        if records[k].None? {
          assert records[..] == records[..][k := None];
          return;
        }
        k := k + 1;
      }
      var victim := records.Length;
      var i := 0;
      while i < records.Length
        invariant i <= records.Length && victim == Victim(records[..], i)
      {
        if records[i].Some? && Terminal(records[i].value.state)
           && (victim == records.Length || records[i].value.updated < records[victim].value.updated) {
          victim := i;
        }
        i := i + 1;
      }
      if victim < records.Length {
        RetireToCompact(records[victim].value, now);
        records[victim] := None;
      }
      return victim;
    }

    method LookupLocked(key: string, hash: nat) returns (l: Lookup)
      requires key != ""
      ensures l == LookupKey(View(), key, hash)
    {
      ghost var p := (r: Option<Job>) => HasKey(r, key);
      var i := 0;
      while i < records.Length
        invariant i <= records.Length
        invariant FirstIndex(records[..], r => HasKey(r, key), 0) == FirstIndex(records[..], r => HasKey(r, key), i)
      {
        if HasKey(records[i], key) {
          return if records[i].value.hash != hash then Conflict else Existing(records[i].value.id);
        }
        i := i + 1;
      }
      i := 0;
      while i < compacts.Length
        invariant i <= compacts.Length
        invariant FirstIndex(compacts[..], c => CompactHasKey(c, key), 0)
                  == FirstIndex(compacts[..], c => CompactHasKey(c, key), i)
      {
        if CompactHasKey(compacts[i], key) {
          return if compacts[i].value.hash != hash then Conflict else Existing(compacts[i].value.id);
        }
        i := i + 1;
      }
      return Nothing;
    }

    method JobCreate(p: Params, now: int, cutoff: int) returns (r: Created)
      modifies this, records, compacts
      ensures (View(), r) == Create(old(View()), p, now, cutoff)
    {
      hide LookupKey, FirstIndex, Expire, Retire, Victim;
      ExpireCompacts(cutoff);
      ghost var t0 := View();
      if p.key != "" {
        var seen := LookupLocked(p.key, p.hash);
        match seen
        case Existing(id) => return Old(id);
        case Conflict => return KeyConflict;
        case Nothing =>
      }
      var k := ClaimRecord(now);
      if k == records.Length {
        return Exhausted;
      }
      counter := counter + 1;
      records[k] := Some(Job(counter, p.kind, Queued, p.cancellable, now, p.key, p.hash, None));
      assert records[..] == t0.records[k := Some(Fresh(t0, p, now))];
      assert View() == Place(t0, k, p, now);
      return New(counter);
    }

    method JobSetState(id: nat, s: State, now: int) returns (rc: Rc)
      modifies records
      ensures (View(), rc) == SetState(old(View()), id, s, now)
    {
      var k := FindRecord(id);
      if k == records.Length { return NoSuchJob; }
      var j := records[k].value;
      if !Allowed(j.state, s) { return NotAllowed; }
      records[k] := Some(j.(state := s, updated := now, cancellable := if Terminal(s) then false else j.cancellable));
      return Ok;
    }

    method JobFail(id: nat, retryable: bool, now: int) returns (rc: Rc)
      modifies records
      ensures (View(), rc) == Fail(old(View()), id, retryable, now)
    {
      var k := FindRecord(id);
      if k == records.Length { return NoSuchJob; }
      var j := records[k].value;
      if !Allowed(j.state, Failed) { return NotAllowed; }
      records[k] := Some(j.(state := Failed, cancellable := false, retryable := Some(retryable), updated := now));
      return Ok;
    }

    method JobSetCancellable(id: nat, cancellable: bool, now: int) returns (rc: Rc)
      modifies records
      ensures (View(), rc) == SetCancellable(old(View()), id, cancellable, now)
    {
      var k := FindRecord(id);
      if k == records.Length { return NoSuchJob; }
      var j := records[k].value;
      if Terminal(j.state) { return NotAllowed; }
      records[k] := Some(j.(cancellable := cancellable, updated := now));
      return Ok;
    }

    method JobCancel(id: nat, now: int) returns (rc: Rc)
      modifies records
      ensures (View(), rc) == Cancel(old(View()), id, now)
    {
      var k := FindRecord(id);
      if k == records.Length { return NoSuchJob; }
      var j := records[k].value;
      if Terminal(j.state) { return NotAllowed; }
      if !j.cancellable { return NotPermitted; }
      records[k] := Some(j.(state := Cancelled, cancellable := false, updated := now));
      return Ok;
    }
  }
}
