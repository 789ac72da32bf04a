/**
 * What a log reader gets: two lists of records merged by sequence number, read
 * forwards while producers append and evict, or positioned by a backward search.
 */
module LogReading {
  import opened LogRecords

  /** One source: everything ever appended, and how many of the oldest are gone. */
  datatype View = View(recs: seq<Record>, gone: nat)

  datatype Log = Log(stm32: View, esp32: View, next: nat)

  /** Which sources a filter selects. */
  datatype Sources = Sources(stm32: bool, esp32: bool)

  /** Where a reader stands: the next record to look at in each list. */
  datatype Place = Place(i: nat, j: nat, gap: bool)

  ghost predicate Increasing(s: seq<Record>) {
    forall a, b | 0 <= a < b < |s| :: s[a].seqNo < s[b].seqNo
  }

  ghost predicate Below(s: seq<Record>, bound: nat) {
    forall a | 0 <= a < |s| :: s[a].seqNo < bound
  }

  ghost predicate Disjoint(s: seq<Record>, t: seq<Record>) {
    forall a, b | 0 <= a < |s| && 0 <= b < |t| :: s[a].seqNo != t[b].seqNo
  }

  ghost predicate ValidView(v: View, next: nat) {
    v.gone <= |v.recs| && Increasing(v.recs) && Below(v.recs, next)
  }

  ghost predicate Valid(log: Log) {
    && ValidView(log.stm32, log.next) && ValidView(log.esp32, log.next)
    && Disjoint(log.stm32.recs, log.esp32.recs)
    && log.next > 0
  }

  ghost predicate InRange(log: Log, at: Place) {
    at.i <= |log.stm32.recs| && at.j <= |log.esp32.recs|
  }

  // ---- One locked section of log_store_read() ---------------------------------------

  function Max(a: nat, b: nat): nat { if a < b then b else a }

  /** A reader behind the tail is moved up to it, and told so. */
  function CatchUp(log: Log, sel: Sources, at: Place): Place {
    Place(if sel.stm32 then Max(at.i, log.stm32.gone) else at.i,
          if sel.esp32 then Max(at.j, log.esp32.gone) else at.j,
          || at.gap
          || (sel.stm32 && at.i < log.stm32.gone)
          || (sel.esp32 && at.j < log.esp32.gone))
  }

  datatype Seen = Nothing | Found(rec: Record)

  /** The unread record with the lowest sequence number. */
  function Oldest(log: Log, sel: Sources, at: Place): Seen {
    var a := sel.stm32 && at.i < |log.stm32.recs|;
    var b := sel.esp32 && at.j < |log.esp32.recs|;
    if a && (!b || log.stm32.recs[at.i].seqNo <= log.esp32.recs[at.j].seqNo)
    then Found(log.stm32.recs[at.i])
    else if b then Found(log.esp32.recs[at.j])
    else Nothing
  }

  /** Past the record Oldest() found. */
  function Advance(log: Log, sel: Sources, at: Place): Place {
    var a := sel.stm32 && at.i < |log.stm32.recs|;
    var b := sel.esp32 && at.j < |log.esp32.recs|;
    if a && (!b || log.stm32.recs[at.i].seqNo <= log.esp32.recs[at.j].seqNo)
    then at.(i := at.i + 1)
    else if b then at.(j := at.j + 1)
    else at
  }

  function Look(log: Log, sel: Sources, upper: nat, at: Place): (Place, Seen) {
    var here := CatchUp(log, sel, at);
    match Oldest(log, sel, here)
    case Nothing => (here, Nothing)
    case Found(r) =>
      if upper != 0 && r.seqNo >= upper then (here, Nothing)
      else (Advance(log, sel, here), Found(r))
  }

  /** What the code takes, from which rings have a record and the sequence numbers read there. */
  datatype Choice = Neither | First | Second

  function Choose(have0: bool, seq0: nat, have1: bool, seq1: nat, upper: nat): Choice {
    if !have0 && !have1 then Neither
    else
      var second := have1 && (!have0 || seq1 < seq0);
      if upper != 0 && (if second then seq1 else seq0) >= upper then Neither
      else if second then Second else First
  }

  lemma LookIsChoice(log: Log, sel: Sources, upper: nat, at: Place, have0: bool, seq0: nat, have1: bool, seq1: nat)
    requires var here := CatchUp(log, sel, at);
             && InRange(log, here)
             && have0 == (sel.stm32 && here.i < |log.stm32.recs|)
             && have1 == (sel.esp32 && here.j < |log.esp32.recs|)
             && (have0 ==> seq0 == log.stm32.recs[here.i].seqNo)
             && (have1 ==> seq1 == log.esp32.recs[here.j].seqNo)
    ensures var here := CatchUp(log, sel, at);
            Look(log, sel, upper, at) ==
              match Choose(have0, seq0, have1, seq1, upper)
              case Neither => (here, Nothing)
              case First => (here.(i := here.i + 1), Found(log.stm32.recs[here.i]))
              case Second => (here.(j := here.j + 1), Found(log.esp32.recs[here.j]))
  {
  }

  datatype ReadResult = Rec(rec: Record) | End | Budget

  /** A whole log_store_read() with nobody appending meanwhile: looks until one matches. */
  function Read(log: Log, sel: Sources, upper: nat, m: Record -> bool, budget: nat, at: Place): (Place, ReadResult) {
    if budget == 0 then (at, Budget)
    else
      var (at', seen) := Look(log, sel, upper, at);
      match seen
      case Nothing => (at', End)
      case Found(r) => if m(r) then (at', Rec(r)) else Read(log, sel, upper, m, budget - 1, at')
  }

  // ---- A reader among producers -----------------------------------------------------

  /** An append to one source, with whatever it evicts there; or one locked section of a read. */
  datatype Event =
    | Append(toEsp32: bool, rec: Record, gone: nat)
    | LookOnce

  /** `looked` is every record the reader was shown; `ended` says the last look answered END. */
  datatype World = World(log: Log, at: Place, looked: seq<Record>, ended: bool)

  function Grow(v: View, e: Event): View
    requires e.Append?
  {
    View(v.recs + [e.rec], e.gone)
  }

  ghost predicate Enabled(log: Log, e: Event) {
    e.Append? ==>
      && e.rec.seqNo == log.next
      && var v := if e.toEsp32 then log.esp32 else log.stm32;
         v.gone <= e.gone <= |v.recs|
  }

  /** The log after an append. */
  function AfterAppend(log: Log, e: Event): Log
    requires e.Append?
  {
    if e.toEsp32 then Log(log.stm32, Grow(log.esp32, e), log.next + 1)
    else Log(Grow(log.stm32, e), log.esp32, log.next + 1)
  }

  function Step(w: World, sel: Sources, upper: nat, e: Event): World {
    match e
    case Append(toEsp32, rec, gone) =>
      w.(log := AfterAppend(w.log, e), ended := false)
    case LookOnce =>
      var (at, seen) := Look(w.log, sel, upper, w.at);
      match seen
      case Nothing => w.(at := at, ended := true)
      case Found(r) => w.(at := at, looked := w.looked + [r], ended := false)
  }

  ghost predicate RunEnabled(w: World, sel: Sources, upper: nat, run: seq<Event>)
    decreases |run|
  {
    run == [] || (Enabled(w.log, run[0]) && RunEnabled(Step(w, sel, upper, run[0]), sel, upper, run[1..]))
  }

  function Run(w: World, sel: Sources, upper: nat, run: seq<Event>): World
    decreases |run|
  {
    if run == [] then w else Run(Step(w, sel, upper, run[0]), sel, upper, run[1..])
  }

  /** r is one of the records lo..hi of a list the filter selects. */
  ghost predicate InSpan(r: Record, v: View, selected: bool, lo: nat, hi: nat)
    requires hi <= |v.recs|
  {
    selected && exists k :: lo <= k < hi && v.recs[k] == r
  }

  /** What lies between two places of a reader. */
  ghost predicate Between(r: Record, log: Log, sel: Sources, from: Place, at: Place)
    requires InRange(log, at)
  {
    || InSpan(r, log.stm32, sel.stm32, from.i, at.i)
    || InSpan(r, log.esp32, sel.esp32, from.j, at.j)
  }

  /** What is still to come. */
  ghost predicate Unread(r: Record, log: Log, sel: Sources, at: Place)
    requires InRange(log, at)
  {
    || InSpan(r, log.stm32, sel.stm32, at.i, |log.stm32.recs|)
    || InSpan(r, log.esp32, sel.esp32, at.j, |log.esp32.recs|)
  }

  /** A record between the start and here was never shown to the reader. */
  ghost predicate Missed(w: World, sel: Sources, from: Place)
    requires InRange(w.log, w.at)
  {
    exists r :: Between(r, w.log, sel, from, w.at) && r !in w.looked
  }

  /** What was shown came in order, from between the two places, ahead of all that is unread. */
  ghost predicate InOrder(w: World, sel: Sources, upper: nat, from: Place)
    requires InRange(w.log, w.at)
  {
    && Increasing(w.looked) && Below(w.looked, w.log.next)
    && (forall r | r in w.looked :: Between(r, w.log, sel, from, w.at) && (upper == 0 || r.seqNo < upper))
    && (forall r, u | r in w.looked && Unread(u, w.log, sel, w.at) :: r.seqNo < u.seqNo)
  }

  ghost predicate ReaderInv(w: World, sel: Sources, upper: nat, from: Place) {
    && Valid(w.log) && InRange(w.log, w.at)
    && from.i <= w.at.i && from.j <= w.at.j
    && InOrder(w, sel, upper, from)
    // The reader is told of a gap exactly when it missed something.
    && (w.at.gap <==> from.gap || Missed(w, sel, from))
    // END means caught up.
    && (w.ended ==> forall u | Unread(u, w.log, sel, w.at) :: upper != 0 && u.seqNo >= upper)
  }

  lemma GrowKeepsSpans(v: View, selected: bool, e: Event, r: Record, lo: nat, hi: nat)
    requires e.Append? && hi <= |v.recs|
    ensures InSpan(r, Grow(v, e), selected, lo, hi) <==> InSpan(r, v, selected, lo, hi)
    ensures InSpan(r, Grow(v, e), selected, lo, |v.recs| + 1) ==> r == e.rec || InSpan(r, v, selected, lo, |v.recs|)
  {
    var v' := Grow(v, e);
    if InSpan(r, v, selected, lo, hi) {
      var k :| lo <= k < hi && v.recs[k] == r;
      assert v'.recs[k] == r;
    }
  }

  lemma AppendKeepsSpans(w: World, sel: Sources, from: Place, e: Event)
    requires InRange(w.log, w.at) && e.Append? && Enabled(w.log, e)
    ensures forall upper :: var w' := Step(w, sel, upper, e);
              && InRange(w'.log, w'.at)
              && (forall r :: Between(r, w'.log, sel, from, w'.at) <==> Between(r, w.log, sel, from, w.at))
              && (forall r | Unread(r, w'.log, sel, w'.at) :: r == e.rec || Unread(r, w.log, sel, w.at))
  {
    forall r, upper
      ensures var w' := Step(w, sel, upper, e);
        && (Between(r, w'.log, sel, from, w'.at) <==> Between(r, w.log, sel, from, w.at))
        && (Unread(r, w'.log, sel, w'.at) ==> r == e.rec || Unread(r, w.log, sel, w.at))
    {
      GrowKeepsSpans(w.log.stm32, sel.stm32, e, r, from.i, w.at.i);
      GrowKeepsSpans(w.log.esp32, sel.esp32, e, r, from.j, w.at.j);
      GrowKeepsSpans(w.log.stm32, sel.stm32, e, r, w.at.i, |w.log.stm32.recs|);
      GrowKeepsSpans(w.log.esp32, sel.esp32, e, r, w.at.j, |w.log.esp32.recs|);
    }
  }

  lemma AppendKeepsValid(log: Log, e: Event)
    requires Valid(log) && e.Append? && Enabled(log, e)
    ensures Valid(AfterAppend(log, e))
  {
  }

  lemma AppendKeepsInv(w: World, sel: Sources, upper: nat, from: Place, e: Event)
    requires ReaderInv(w, sel, upper, from) && e.Append? && Enabled(w.log, e)
    ensures ReaderInv(Step(w, sel, upper, e), sel, upper, from)
  {
    AppendKeepsSpans(w, sel, from, e);
    AppendKeepsValid(w.log, e);
    var w' := Step(w, sel, upper, e);
    SameMissed(w, w', sel, from);
    assert InOrder(w', sel, upper, from);
  }

  lemma SameMissed(w: World, w': World, sel: Sources, from: Place)
    requires InRange(w.log, w.at) && InRange(w'.log, w'.at)
    requires forall r :: Between(r, w'.log, sel, from, w'.at) && r !in w'.looked
                    <==> Between(r, w.log, sel, from, w.at) && r !in w.looked
    ensures Missed(w', sel, from) <==> Missed(w, sel, from)
  {
  }

  /** Being moved up to the tails shows nothing, and is a gap exactly when it skips something. */
  lemma CatchUpKeepsInv(w: World, sel: Sources, upper: nat, from: Place)
    requires ReaderInv(w, sel, upper, from)
    ensures ReaderInv(w.(at := CatchUp(w.log, sel, w.at), ended := false), sel, upper, from)
  {
    var w' := w.(at := CatchUp(w.log, sel, w.at), ended := false);
    forall r
      ensures Between(r, w.log, sel, from, w.at) ==> Between(r, w.log, sel, from, w'.at)
      ensures Unread(r, w.log, sel, w'.at) ==> Unread(r, w.log, sel, w.at)
      ensures Between(r, w.log, sel, from, w'.at) ==>
                Between(r, w.log, sel, from, w.at) || Unread(r, w.log, sel, w.at)
    {
    }
    if sel.stm32 && w.at.i < w.log.stm32.gone {
      Skipped(w, w', sel, from, w.log.stm32.recs[w.at.i]);
    }
    if sel.esp32 && w.at.j < w.log.esp32.gone {
      Skipped(w, w', sel, from, w.log.esp32.recs[w.at.j]);
    }
    if w.at.gap && !from.gap {
      var r :| Between(r, w.log, sel, from, w.at) && r !in w.looked;
      assert Between(r, w.log, sel, from, w'.at);
    }
    if !w'.at.gap {
      assert w'.at == w.at;
    }
  }

  lemma Skipped(w: World, w': World, sel: Sources, from: Place, r: Record)
    requires InRange(w.log, w.at) && w'.log == w.log && w'.looked == w.looked && InRange(w.log, w'.at)
    requires forall x, u | x in w.looked && Unread(u, w.log, sel, w.at) :: x.seqNo < u.seqNo
    requires Unread(r, w.log, sel, w.at) && Between(r, w.log, sel, from, w'.at)
    ensures Missed(w', sel, from)
  {
    assert r !in w.looked;
  }

  /** The record a look returns is the oldest one unread. */
  lemma OldestIsOldest(log: Log, sel: Sources, at: Place)
    requires Valid(log) && InRange(log, at)
    ensures Oldest(log, sel, at).Nothing? ==> forall u :: !Unread(u, log, sel, at)
    ensures forall r | Oldest(log, sel, at) == Found(r) ::
              && Unread(r, log, sel, at) && InRange(log, Advance(log, sel, at))
              && (forall u | Unread(u, log, sel, at) :: u == r || r.seqNo < u.seqNo)
              && (forall u :: Unread(u, log, sel, Advance(log, sel, at)) ==> Unread(u, log, sel, at) && u != r)
  {
  }

  lemma AdvanceAddsOne(log: Log, sel: Sources, from: Place, at: Place, r: Record)
    requires InRange(log, at) && from.i <= at.i && from.j <= at.j
    requires Oldest(log, sel, at) == Found(r)
    ensures var at' := Advance(log, sel, at);
            && InRange(log, at') && at.i <= at'.i && at.j <= at'.j && at'.gap == at.gap
            && (forall u :: Between(u, log, sel, from, at') <==> Between(u, log, sel, from, at) || u == r)
  {
  }

  /** Found(r) as a fact about this r. */
  lemma FoundIsOldest(log: Log, sel: Sources, at: Place, r: Record)
    requires Valid(log) && InRange(log, at) && Oldest(log, sel, at) == Found(r)
    ensures Unread(r, log, sel, at) && InRange(log, Advance(log, sel, at)) && r.seqNo < log.next
    ensures forall u | Unread(u, log, sel, at) :: u == r || r.seqNo < u.seqNo
    ensures forall u :: Unread(u, log, sel, Advance(log, sel, at)) ==> Unread(u, log, sel, at) && u != r
  {
    OldestIsOldest(log, sel, at);
  }

  lemma AdvanceKeepsInv(w: World, sel: Sources, upper: nat, from: Place, r: Record)
    requires ReaderInv(w, sel, upper, from)
    requires Oldest(w.log, sel, w.at) == Found(r) && (upper == 0 || r.seqNo < upper)
    ensures ReaderInv(World(w.log, Advance(w.log, sel, w.at), w.looked + [r], false), sel, upper, from)
  {
    var w' := World(w.log, Advance(w.log, sel, w.at), w.looked + [r], false);
    FoundIsOldest(w.log, sel, w.at, r);
    AdvanceAddsOne(w.log, sel, from, w.at, r);
    hide InSpan, Between, Unread, Oldest, Advance, Valid;
    assert forall u :: u in w'.looked <==> u in w.looked || u == r;
    assert r !in w.looked;
    SameMissed(w, w', sel, from);
    assert InOrder(w', sel, upper, from);
  }

  lemma EndKeepsInv(w: World, sel: Sources, upper: nat, from: Place)
    requires ReaderInv(w, sel, upper, from)
    requires forall u | Unread(u, w.log, sel, w.at) :: upper != 0 && u.seqNo >= upper
    ensures ReaderInv(w.(ended := true), sel, upper, from)
  {
    assert Missed(w.(ended := true), sel, from) <==> Missed(w, sel, from);
  }

  lemma LookKeepsInv(w: World, sel: Sources, upper: nat, from: Place)
    requires ReaderInv(w, sel, upper, from)
    ensures ReaderInv(Step(w, sel, upper, LookOnce), sel, upper, from)
  {
    CatchUpKeepsInv(w, sel, upper, from);
    var here := w.(at := CatchUp(w.log, sel, w.at), ended := false);
    OldestIsOldest(w.log, sel, here.at);
    var seen := Oldest(w.log, sel, here.at);
    if seen.Nothing? || (upper != 0 && seen.rec.seqNo >= upper) {
      EndKeepsInv(here, sel, upper, from);
    } else {
      AdvanceKeepsInv(here, sel, upper, from, seen.rec);
    }
  }

  lemma StepKeepsInv(w: World, sel: Sources, upper: nat, from: Place, e: Event)
    requires ReaderInv(w, sel, upper, from) && Enabled(w.log, e)
    ensures ReaderInv(Step(w, sel, upper, e), sel, upper, from)
  {
    match e
    case Append(_, _, _) => AppendKeepsInv(w, sel, upper, from, e);
    case LookOnce => LookKeepsInv(w, sel, upper, from);
  }

  lemma {:induction false} RunKeepsInv(w: World, sel: Sources, upper: nat, from: Place, run: seq<Event>)
    requires ReaderInv(w, sel, upper, from) && RunEnabled(w, sel, upper, run)
    ensures ReaderInv(Run(w, sel, upper, run), sel, upper, from)
    decreases |run|
  {
    if run != [] {
      StepKeepsInv(w, sel, upper, from, run[0]);
      RunKeepsInv(Step(w, sel, upper, run[0]), sel, upper, from, run[1..]);
    }
  }

  /**
   * A reader among any number of appends and evictions. The records it is shown come
   * in strictly increasing sequence; it is told of a gap exactly when it missed one;
   * and when it reaches the end without one it has been shown every record of the
   * selected sources since its start, up to its bound.
   */
  lemma ReaderSeesAll(log: Log, sel: Sources, upper: nat, from: Place, run: seq<Event>)
    requires Valid(log) && InRange(log, from) && !from.gap
    requires RunEnabled(World(log, from, [], false), sel, upper, run)
    ensures var w := Run(World(log, from, [], false), sel, upper, run);
            && InRange(w.log, w.at) && Increasing(w.looked)
            && (w.at.gap <==> Missed(w, sel, from))
            && (w.ended && !w.at.gap ==>
                  forall r :: r in w.looked <==>
                    Between(r, w.log, sel, from, Place(|w.log.stm32.recs|, |w.log.esp32.recs|, false))
                    && (upper == 0 || r.seqNo < upper))
  {
    var w0 := World(log, from, [], false);
    RunKeepsInv(w0, sel, upper, from, run);
    var w := Run(w0, sel, upper, run);
    var heads := Place(|w.log.stm32.recs|, |w.log.esp32.recs|, false);
    forall r
      ensures Between(r, w.log, sel, from, heads) <==> Between(r, w.log, sel, from, w.at) || Unread(r, w.log, sel, w.at)
    {
    }
  }

  // ---- Reading to the end with nobody appending ---------------------------------------

  /** Every record from `at` on, in the order reads return them. */
  function Forward(log: Log, sel: Sources, at: Place): seq<Record>
    requires InRange(log, at)
    decreases |log.stm32.recs| - at.i + |log.esp32.recs| - at.j
  {
    match Oldest(log, sel, at)
    case Nothing => []
    case Found(r) => [r] + Forward(log, sel, Advance(log, sel, at))
  }

  function Matching(m: Record -> bool, s: seq<Record>): seq<Record> {
    if s == [] then [] else (if m(s[0]) then [s[0]] else []) + Matching(m, s[1..])
  }

  lemma {:induction false} MatchingConcat(m: Record -> bool, s: seq<Record>, t: seq<Record>)
    ensures Matching(m, s + t) == Matching(m, s) + Matching(m, t)
  {
    if s == [] {
      assert s + t == t;
    } else {
      hide Matching;
      assert s == [s[0]] + s[1..] && s + t == [s[0]] + (s[1..] + t);
      MatchingFirst(m, s[0], s[1..]);
      MatchingFirst(m, s[0], s[1..] + t);
      MatchingConcat(m, s[1..], t);
    }
  }

  lemma MatchingFirst(m: Record -> bool, r: Record, s: seq<Record>)
    ensures Matching(m, [r] + s) == (if m(r) then [r] else []) + Matching(m, s)
  {
    assert ([r] + s)[1..] == s;
  }

  // ---- log_store_reader_tail() --------------------------------------------------------

  /** The newest record not yet walked past, over both sources. */
  function Newest(log: Log, sel: Sources, at: Place): Seen
    requires InRange(log, at)
  {
    var a := sel.stm32 && at.i > log.stm32.gone;
    var b := sel.esp32 && at.j > log.esp32.gone;
    if b && (!a || log.esp32.recs[at.j - 1].seqNo > log.stm32.recs[at.i - 1].seqNo)
    then Found(log.esp32.recs[at.j - 1])
    else if a then Found(log.stm32.recs[at.i - 1])
    else Nothing
  }

  function Retreat(log: Log, sel: Sources, at: Place): (at': Place)
    requires InRange(log, at)
    ensures InRange(log, at')
  {
    var a := sel.stm32 && at.i > log.stm32.gone;
    var b := sel.esp32 && at.j > log.esp32.gone;
    if b && (!a || log.esp32.recs[at.j - 1].seqNo > log.stm32.recs[at.i - 1].seqNo)
    then at.(j := at.j - 1)
    else if a then at.(i := at.i - 1)
    else at
  }

  /** Where the backward search ends: the place, the matches and the records walked past. */
  datatype Search = Search(at: Place, matched: nat, scanned: nat)

  /** One locked section of the search: the newest record not yet walked past is counted. */
  function Back(log: Log, sel: Sources, m: Record -> bool, s: Search): (t: Search)
    requires InRange(log, s.at) && Newest(log, sel, s.at).Found?
    ensures InRange(log, t.at) && t.scanned == s.scanned + 1
  {
    Search(Retreat(log, sel, s.at), s.matched + (if m(Newest(log, sel, s.at).rec) then 1 else 0), s.scanned + 1)
  }

  predicate Stops(log: Log, sel: Sources, count: nat, budget: nat, s: Search)
    requires InRange(log, s.at)
  {
    s.matched >= count || s.scanned >= budget || Newest(log, sel, s.at).Nothing?
  }

  function Tail(log: Log, sel: Sources, m: Record -> bool, count: nat, budget: nat, s: Search): (t: Search)
    requires InRange(log, s.at)
    ensures InRange(log, t.at)
    decreases budget - s.scanned
  {
    if Stops(log, sel, count, budget, s) then s else Tail(log, sel, m, count, budget, Back(log, sel, m, s))
  }

  function Heads(log: Log): Place { Place(|log.stm32.recs|, |log.esp32.recs|, false) }

  /** Where the oldest kept records are, in the lists a filter selects. */
  function Tails(log: Log, sel: Sources): Place {
    Place(if sel.stm32 then log.stm32.gone else |log.stm32.recs|,
          if sel.esp32 then log.esp32.gone else |log.esp32.recs|, false)
  }

  function Last(s: seq<Record>, count: nat): seq<Record> {
    if |s| <= count then s else s[|s| - count..]
  }

  /** Between the tails and `at` everything is older than from `at` on. */
  ghost predicate Splits(log: Log, sel: Sources, at: Place) {
    && InRange(log, at) && !at.gap
    && (if sel.stm32 then log.stm32.gone <= at.i else at.i == |log.stm32.recs|)
    && (if sel.esp32 then log.esp32.gone <= at.j else at.j == |log.esp32.recs|)
    && (sel.stm32 && sel.esp32 ==>
          && (at.i > log.stm32.gone && at.j < |log.esp32.recs| ==>
               log.stm32.recs[at.i - 1].seqNo < log.esp32.recs[at.j].seqNo)
          && (at.j > log.esp32.gone && at.i < |log.stm32.recs| ==>
               log.esp32.recs[at.j - 1].seqNo < log.stm32.recs[at.i].seqNo))
  }

  /** One step back puts exactly the record walked past in front of what reads return. */
  lemma RetreatThenForward(log: Log, sel: Sources, at: Place, r: Record)
    requires Valid(log) && Splits(log, sel, at) && Newest(log, sel, at) == Found(r)
    ensures Splits(log, sel, Retreat(log, sel, at))
    ensures Forward(log, sel, Retreat(log, sel, at)) == [r] + Forward(log, sel, at)
  {
    var back := Retreat(log, sel, at);
    assert Oldest(log, sel, back) == Found(r);
    assert Advance(log, sel, back) == at;
  }

  /** What is kept ends with what reads return from a place that splits it. */
  lemma {:induction false} ForwardIsSuffix(log: Log, sel: Sources, at: Place) returns (pre: seq<Record>)
    requires Valid(log) && Splits(log, sel, at)
    ensures Forward(log, sel, Tails(log, sel)) == pre + Forward(log, sel, at)
    decreases at.i + at.j
  {
    match Newest(log, sel, at)
    case Nothing =>
      assert at == Tails(log, sel);
      pre := [];
    case Found(r) =>
      RetreatThenForward(log, sel, at, r);
      pre := ForwardIsSuffix(log, sel, Retreat(log, sel, at));
      pre := pre + [r];
  }

  /** Reading from where the search stands returns as many matches as it has counted. */
  ghost predicate SearchInv(log: Log, sel: Sources, m: Record -> bool, count: nat, s: Search) {
    && Splits(log, sel, s.at) && s.matched <= count
    && |Matching(m, Forward(log, sel, s.at))| == s.matched
  }

  lemma BackKeeps(log: Log, sel: Sources, m: Record -> bool, count: nat, s: Search)
    requires Valid(log) && SearchInv(log, sel, m, count, s)
    requires s.matched < count && Newest(log, sel, s.at).Found?
    ensures SearchInv(log, sel, m, count, Back(log, sel, m, s))
  {
    var r := Newest(log, sel, s.at).rec;
    RetreatThenForward(log, sel, s.at, r);
    MatchingFirst(m, r, Forward(log, sel, s.at));
  }

  lemma {:induction false} TailKeeps(log: Log, sel: Sources, m: Record -> bool, count: nat, budget: nat, s: Search)
    requires Valid(log) && SearchInv(log, sel, m, count, s)
    ensures var t := Tail(log, sel, m, count, budget, s);
            SearchInv(log, sel, m, count, t) && Stops(log, sel, count, budget, t)
    decreases budget - s.scanned
  {
    if !Stops(log, sel, count, budget, s) {
      BackKeeps(log, sel, m, count, s);
      TailKeeps(log, sel, m, count, budget, Back(log, sel, m, s));
    }
  }

  /**
   * Reading to the end from where the backward search stopped returns exactly the
   * newest matching records, oldest first: `count` of them, or all there are, unless
   * the search ran out of its scan budget first.
   */
  lemma TailThenReadIsNewest(log: Log, sel: Sources, m: Record -> bool, count: nat, budget: nat)
    requires Valid(log)
    ensures var s := Tail(log, sel, m, count, budget, Search(Heads(log), 0, 0));
            var all := Matching(m, Forward(log, sel, Tails(log, sel)));
            var got := Matching(m, Forward(log, sel, s.at));
            && got == Last(all, s.matched)
            && (s.scanned < budget ==> got == Last(all, count))
  {
    var s0 := Search(Heads(log), 0, 0);
    assert Forward(log, sel, Heads(log)) == [];
    TailKeeps(log, sel, m, count, budget, s0);
    var s := Tail(log, sel, m, count, budget, s0);
    var pre := ForwardIsSuffix(log, sel, s.at);
    MatchingConcat(m, pre, Forward(log, sel, s.at));
    if Newest(log, sel, s.at).Nothing? {
      assert s.at == Tails(log, sel);
    }
  }

  /** Reading to the end with nobody appending: looks, one after the other, until END. */
  lemma {:induction false} ForwardIsLooks(log: Log, sel: Sources, at: Place, looked: seq<Record>)
    returns (n: nat)
    requires Valid(log) && InRange(log, at) && CatchUp(log, sel, at) == at
    ensures var w := Run(World(log, at, looked, false), sel, 0, seq(n, i => LookOnce));
            w.ended && w.looked == looked + Forward(log, sel, at)
    decreases |log.stm32.recs| - at.i + |log.esp32.recs| - at.j
  {
    var w := World(log, at, looked, false);
    match Oldest(log, sel, at)
    case Nothing =>
      n := 1;
      var run := seq(1, i => LookOnce);
      assert run[1..] == [];
      assert Run(w, sel, 0, run) == Run(Step(w, sel, 0, LookOnce), sel, 0, run[1..]);
    case Found(r) =>
      var at' := Advance(log, sel, at);
      n := ForwardIsLooks(log, sel, at', looked + [r]);
      var run := seq(n + 1, i => LookOnce);
      assert run[1..] == seq(n, i => LookOnce);
      assert Step(w, sel, 0, LookOnce) == World(log, at', looked + [r], false);
      assert looked + [r] + Forward(log, sel, at') == looked + ([r] + Forward(log, sel, at'));
      n := n + 1;
  }
}
