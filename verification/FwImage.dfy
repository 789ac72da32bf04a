/** The full-flash file (fw_image.c): bootloader, partition table, erased data, application. */
module FwImage {
  import opened Bytes
  import opened Options
  import opened EspImage

  const TABLE_LEN: nat := 0xC00
  const TABLE_END: nat := 0x8C00
  const DATA_OFFSET: nat := 0x9000

  const PART_ENTRY_LEN: nat := 32
  const PART_MAX_ENTRIES: nat := 96
  const PART_MAGIC: nat := 0x50AA
  const PART_MAGIC_MD5: nat := 0xEBEB
  const PART_LABEL_LEN: nat := 16

  predicate Erased(s: seq<Byte>) { forall i | 0 <= i < |s| :: s[i] == 0xFF }

  // ---- The partition table ------------------------------------------------------------------------

  datatype LayoutEntry = LayoutEntry(name: seq<Byte>, kind: Byte, subtype: Byte, offset: nat, size: nat, flags: nat)

  /** cedar-c6-ota-4m-2x1792k: nvs, otadata, phy_init, ota_0, ota_1. */
  const LAYOUT: seq<LayoutEntry> :=
    [LayoutEntry([110, 118, 115], 1, 2, 0x9000, 0x4000, 0),
     LayoutEntry([111, 116, 97, 100, 97, 116, 97], 1, 0, 0xd000, 0x2000, 0),
     LayoutEntry([112, 104, 121, 95, 105, 110, 105, 116], 1, 1, 0xf000, 0x1000, 0),
     LayoutEntry([111, 116, 97, 95, 48], 0, 0x10, 0x10000, 0x1c0000, 0),
     LayoutEntry([111, 116, 97, 95, 49], 0, 0x11, 0x1d0000, 0x1c0000, 0)]

  /** label_is(): the label, and NULs up to the end of its field. */
  predicate LabelIs(field: seq<Byte>, name: seq<Byte>)
    requires |field| == PART_LABEL_LEN
  {
    |name| <= PART_LABEL_LEN && field[..|name|] == name && (forall i | |name| <= i < PART_LABEL_LEN :: field[i] == 0)
  }

  predicate EntryIs(e: seq<Byte>, want: LayoutEntry)
    requires |e| == PART_ENTRY_LEN
  {
    && e[2] == want.kind && e[3] == want.subtype && FromLe(e[4..8]) == want.offset && FromLe(e[8..12]) == want.size
    && LabelIs(e[12..28], want.name) && FromLe(e[28..32]) == want.flags
  }

  function Entry(t: seq<Byte>, k: nat): (e: seq<Byte>)
    requires |t| == TABLE_LEN && k < PART_MAX_ENTRIES
    ensures |e| == PART_ENTRY_LEN
  {
    t[k * PART_ENTRY_LEN..(k + 1) * PART_ENTRY_LEN]
  }

  /** match_layout(), of the one layout there is. */
  predicate MatchesLayout(t: seq<Byte>, count: nat)
    requires |t| == TABLE_LEN && count <= PART_MAX_ENTRIES
  {
    count == |LAYOUT| && forall i | 0 <= i < |LAYOUT| :: EntryIs(Entry(t, i), LAYOUT[i])
  }

  datatype TableResult = TableOk(known: bool) | TableBad(message: Message)

  /** check_table(), from entry k on. */
  function CheckTable(h: Hashes, t: seq<Byte>, k: nat, entries: nat, md5Seen: bool): TableResult
    requires |t| == TABLE_LEN && entries <= k <= PART_MAX_ENTRIES
    decreases PART_MAX_ENTRIES - k
  {
    if k == PART_MAX_ENTRIES then TableBad(NoTableEnd)
    else
      var e := Entry(t, k);
      var magic := FromLe(e[..2]);
      if magic == PART_MAGIC && !md5Seen then CheckTable(h, t, k + 1, entries + 1, md5Seen)
      else if magic == PART_MAGIC_MD5 && !md5Seen && entries > 0 then
        if h.md5(t[..k * PART_ENTRY_LEN]) != e[16..32] then TableBad(TableMd5Mismatch)
        else CheckTable(h, t, k + 1, entries, true)
      else if Erased(e) && entries > 0 then
        if !md5Seen then TableBad(NoMd5Record)
        else if !Erased(t[k * PART_ENTRY_LEN..]) then TableBad(AfterTableEnd)
        else TableOk(MatchesLayout(t, entries))
      else TableBad(if k == 0 then NoTable else CorruptEntry)
  }

  /** A table of n entries: the MD5 record over them, and nothing but erased flash after it. */
  predicate IsTable(h: Hashes, t: seq<Byte>, n: nat)
    requires |t| == TABLE_LEN
  {
    && 0 < n && n + 1 < PART_MAX_ENTRIES
    && (forall i | 0 <= i < n :: FromLe(Entry(t, i)[..2]) == PART_MAGIC)
    && FromLe(Entry(t, n)[..2]) == PART_MAGIC_MD5
    && h.md5(t[..n * PART_ENTRY_LEN]) == Entry(t, n)[16..32]
    && Erased(t[(n + 1) * PART_ENTRY_LEN..])
  }

  lemma ErasedEntry(t: seq<Byte>, k: nat)
    requires |t| == TABLE_LEN && k < PART_MAX_ENTRIES && Erased(t[k * PART_ENTRY_LEN..])
    ensures Erased(Entry(t, k)) && FromLe(Entry(t, k)[..2]) == 0xFFFF
  {
    var e := Entry(t, k);
    forall i | 0 <= i < PART_ENTRY_LEN
      ensures e[i] == 0xFF
    {
      assert e[i] == t[k * PART_ENTRY_LEN..][i];
    }
    Le16(0);
    assert |e[..2]| == 2 && e[..2][0] == 0xFF && e[..2][1] == 0xFF;
  }

  /** After the MD5 record of a table of n entries. */
  lemma TableRest(h: Hashes, t: seq<Byte>, n: nat)
    requires |t| == TABLE_LEN && 0 < n < PART_MAX_ENTRIES
    ensures CheckTable(h, t, n + 1, n, true).TableOk? <==> n + 1 < PART_MAX_ENTRIES
                                                           && Erased(t[(n + 1) * PART_ENTRY_LEN..])
    ensures CheckTable(h, t, n + 1, n, true).TableOk? ==> CheckTable(h, t, n + 1, n, true).known == MatchesLayout(t, n)
  {
    hide MatchesLayout;
    if n + 1 < PART_MAX_ENTRIES && Erased(t[(n + 1) * PART_ENTRY_LEN..]) {
      ErasedEntry(t, n + 1);
    }
  }

  /** The number of entries a table begins with. */
  function EntryCount(t: seq<Byte>, k: nat): (n: nat)
    requires |t| == TABLE_LEN && k <= PART_MAX_ENTRIES
    ensures k <= n <= PART_MAX_ENTRIES
    ensures forall i | k <= i < n :: FromLe(Entry(t, i)[..2]) == PART_MAGIC
    ensures n < PART_MAX_ENTRIES ==> FromLe(Entry(t, n)[..2]) != PART_MAGIC
    decreases PART_MAX_ENTRIES - k
  {
    if k == PART_MAX_ENTRIES || FromLe(Entry(t, k)[..2]) != PART_MAGIC then k else EntryCount(t, k + 1)
  }

  /** The check accepts exactly the tables, and says whether their layout is the known one. */
  lemma {:induction false} CheckAcceptsTables(h: Hashes, t: seq<Byte>, k: nat)
    requires |t| == TABLE_LEN && k <= PART_MAX_ENTRIES
    requires forall i | 0 <= i < k :: FromLe(Entry(t, i)[..2]) == PART_MAGIC
    ensures var r := CheckTable(h, t, k, k, false);
            var n := EntryCount(t, k);
            && (r.TableOk? <==> IsTable(h, t, n))
            && (r.TableOk? ==> r.known == MatchesLayout(t, n))
    decreases PART_MAX_ENTRIES - k
  {
    hide MatchesLayout, Erased;
    if k < PART_MAX_ENTRIES {
      if FromLe(Entry(t, k)[..2]) == PART_MAGIC {
        CheckAcceptsTables(h, t, k + 1);
      } else if k > 0 {
        TableRest(h, t, k);
      }
    }
  }

  lemma TableIsUnique(h: Hashes, t: seq<Byte>, n: nat)
    requires |t| == TABLE_LEN && IsTable(h, t, n)
    ensures n == EntryCount(t, 0)
  {
  }

  // ---- The check -----------------------------------------------------------------------------------

  datatype Table = Unseen | Known | Unknown

  /** Under way, or past its first structural fault: then only the whole file's digest goes on. */
  datatype Check =
    | Running(size: nat, fed: seq<Byte>, boot: Walk, app: Walk, table: Table)
    | Failed(size: nat, fed: seq<Byte>, message: Message, texts: Texts, table: Table, bootBytes: nat, appBytes: nat)

  const NO_TEXTS: Texts := Texts([], [], [])

  function WalkBytes(part: Part, w: Walk): nat {
    if w.Done? && Base(part) <= w.end then w.end - Base(part) else 0
  }

  function Fail(c: Check, m: Message): Check
    requires c.Running?
  {
    Failed(c.size, c.fed, m, c.app.texts, c.table, WalkBytes(Boot, c.boot), WalkBytes(App, c.app))
  }

  predicate CheckOk(c: Check) {
    c.Running? ==> WalkOk(c.boot) && WalkOk(c.app) && (TABLE_END <= |c.fed| || c.table.Unseen?)
  }

  /** fw_image_check_begin() */
  function Begin(size: nat): (c: Check)
    ensures CheckOk(c)
  {
    if size > MAX_BYTES then Failed(size, [], TooLarge, NO_TEXTS, Unseen, 0, 0)
    else Running(size, [], StartWalk(Boot, TABLE_OFFSET), StartWalk(App, size), Unseen)
  }

  function InBoot(h: Hashes, c: Check, b: Byte): Check
    requires CheckOk(c) && c.Running?
  {
    if c.boot.Done? then if b != 0xFF then Fail(c, GapNotErased) else c
    else
      var d := Running(c.size, c.fed, StepWalk(h, c.boot, b), c.app, c.table);
      if d.boot.Faulted? then Fail(d, d.boot.message)
      else if |c.fed| == TABLE_OFFSET && !d.boot.Done? then Fail(d, BootOverruns)
      else d
  }

  function InTable(h: Hashes, c: Check): Check
    requires c.Running? && TABLE_OFFSET < |c.fed| <= TABLE_END
  {
    if |c.fed| < TABLE_END then c
    else
      match CheckTable(h, c.fed[TABLE_OFFSET..TABLE_END], 0, 0, false)
      case TableBad(m) => Fail(c, m)
      case TableOk(known) => Running(c.size, c.fed, c.boot, c.app, if known then Known else Unknown)
  }

  function InApp(h: Hashes, c: Check, b: Byte): Check
    requires CheckOk(c) && c.Running?
  {
    if c.app.Done? then Fail(c, BytesFollow)
    else
      var d := Running(c.size, c.fed, c.boot, StepWalk(h, c.app, b), c.table);
      if d.app.Faulted? then Fail(d, d.app.message) else d
  }

  /** One byte of the file; those past its declared size are ignored. */
  function StepByte(h: Hashes, c: Check, b: Byte): Check
    requires CheckOk(c)
  {
    if |c.fed| >= c.size then c
    else
      match c
      case Failed(size, fed, m, texts, table, boot, app) => Failed(size, fed + [b], m, texts, table, boot, app)
      case Running(size, fed, boot, app, table) =>
        var d := Running(size, fed + [b], boot, app, table);
        if |fed| < TABLE_OFFSET then InBoot(h, d, b)
        else if |fed| < TABLE_END then InTable(h, d)
        else if |fed| < DATA_OFFSET then if b != 0xFF then Fail(d, AfterTable) else d
        else if |fed| < APP_OFFSET then if b != 0xFF then Fail(d, DataNotErased) else d
        else InApp(h, d, b)
  }

  lemma StepByteOk(h: Hashes, c: Check, b: Byte)
    requires CheckOk(c)
    ensures CheckOk(StepByte(h, c, b)) && StepByte(h, c, b).size == c.size
    ensures StepByte(h, c, b).fed == if |c.fed| < c.size then c.fed + [b] else c.fed
    ensures c.Failed? ==> StepByte(h, c, b).Failed? && StepByte(h, c, b).message == c.message
  {
    if c.Running? {
      StepWalkOk(h, c.boot, b);
      StepWalkOk(h, c.app, b);
    }
    hide StepWalk, WalkOk, CheckTable;
  }

  /** Any number of bytes, in order: what every way of cutting the file into pieces comes to. */
  function FeedAll(h: Hashes, c: Check, s: seq<Byte>): (d: Check)
    requires CheckOk(c)
    ensures CheckOk(d)
    decreases |s|
  {
    if s == [] then c
    else
      StepByteOk(h, c, s[0]);
      FeedAll(h, StepByte(h, c, s[0]), s[1..])
  }

  lemma {:induction false} FeedAllConcat(h: Hashes, c: Check, a: seq<Byte>, b: seq<Byte>)
    requires CheckOk(c)
    ensures FeedAll(h, c, a + b) == FeedAll(h, FeedAll(h, c, a), b)
    decreases |a|
  {
    hide StepByte, CheckOk;
    if a == [] {
      assert a + b == b;
    } else {
      StepByteOk(h, c, a[0]);
      FeedAllConcat(h, StepByte(h, c, a[0]), a[1..], b);
      assert (a + b)[1..] == a[1..] + b;
    }
  }

  lemma FeedAllByte(h: Hashes, c: Check, b: Byte)
    requires CheckOk(c)
    ensures FeedAll(h, c, [b]) == StepByte(h, c, b)
  {
    hide StepByte, CheckOk;
    StepByteOk(h, c, b);
    assert [b][1..] == [];
  }

  datatype Result = Accepted | Invalid | UnsupportedTarget | Incompatible

  datatype Info = Info(texts: Texts, layout: bool, bootBytes: nat, appBytes: nat, sha: Option<seq<Byte>>)

  datatype Outcome = Outcome(result: Result, message: Option<Message>, info: Info)

  /** What a structural fault makes of the file. */
  function ResultOf(m: Message): Result {
    if m.OtherChip? then UnsupportedTarget else Invalid
  }

  /** fw_image_check_end(): the first fault, or what is wrong with a file that had none. */
  function Verdict(c: Check): Option<Message> {
    match c
    case Failed(_, _, m, _, _, _, _) => Some(m)
    case Running(size, fed, _, app, table) =>
      if |fed| < size then Some(TooShort)
      else if size <= APP_OFFSET then Some(NoApplication)
      else if !app.Done? then Some(CutShort)
      else if table.Unknown? then Some(LayoutUnsupported)
      else None
  }

  function End(h: Hashes, c: Check): Outcome {
    var m := Verdict(c);
    var result := if m.None? then Accepted
                  else if c.Running? && m.value.LayoutUnsupported? then Incompatible
                  else ResultOf(m.value);
    var sha := if |c.fed| == c.size then Some(h.sha(c.fed)) else None;
    var known := c.table.Known? && (result.Accepted? || result.Incompatible?);
    var texts := if c.Failed? then c.texts else c.app.texts;
    var boot := if c.Failed? then c.bootBytes else WalkBytes(Boot, c.boot);
    var app := if c.Failed? then c.appBytes else WalkBytes(App, c.app);
    Outcome(result, m, Info(texts, known, boot, app, sha))
  }
}
