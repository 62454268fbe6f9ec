/**
  The slotted page, byte for byte:
    | header | slot directory growing up | free gap | cells growing down | special area |

  The operations are functions on all 4096 bytes. Each returns the bytes it leaves behind
  together with its status, so that what a failing call leaves behind can be stated.
  Offsets and casts are those of src/page/slotted_page.rs.
 */
module SlottedPage {
  import opened Bytes

  const PAGE_SIZE := 4096
  const ENTRY_SIZE := 4
  const LSN_OFFSET := 0
  const PAGE_TYPE_OFFSET := 10
  const FREE_START_OFFSET := 12
  const FREE_END_OFFSET := 14
  const SPECIAL_OFFSET := 16
  const HEADER_SIZE := 24

  type Page = b: seq<Byte> | |b| == PAGE_SIZE witness seq(PAGE_SIZE, _ => 0)
  type Cell = seq<Byte>

  datatype PageError =
    | EmptySlotDir
    | SlotIDOutOfBounds
    | CorruptCell
    | SpecialOffsetIsZero
    | SlotIndexNotInRange
    | NoContiguousSpace
    | NotEnoughFreeSpace
    | InvalidFreeEnd
    | InvalidFreeStart

  datatype Status = Ok | Err(error: PageError)

  datatype Result<+T> = Success(value: T) | Failure(error: PageError)

  /** What a mutating call leaves in the buffer, and what it returns. */
  datatype Effect = Effect(bytes: Page, status: Status)

  datatype Entry = Entry(offset: U16, length: U16)

  // ---------- Header ----------

  function FreeStart(b: Page): U16 { U16At(b, FREE_START_OFFSET) }

  function FreeEnd(b: Page): U16 { U16At(b, FREE_END_OFFSET) }

  function SpecialOffset(b: Page): U16 { U16At(b, SPECIAL_OFFSET) }

  function TypeByte(b: Page): Byte { b[PAGE_TYPE_OFFSET] }

  function Lsn(b: Page): U64 { U64At(b, LSN_OFFSET) }

  /** What the unsigned subtractions and the raw pointer writes of this layer rely on. */
  predicate HeaderOk(b: Page) {
    HEADER_SIZE <= FreeStart(b) <= FreeEnd(b) <= PAGE_SIZE
  }

  function SetTypeByte(b: Page, t: Byte): Page { b[PAGE_TYPE_OFFSET := t] }

  function SetLsn(b: Page, lsn: U64): Page { Splice(b, LSN_OFFSET, U64Bytes(lsn)) }

  function SetFreeStart(b: Page, offset: nat): Page {
    Splice(b, FREE_START_OFFSET, U16Bytes(offset))
  }

  function IncrementFreeStart(b: Page, n: nat): Effect {
    var newFreeStart := FreeStart(b) + n;
    if newFreeStart < HEADER_SIZE then Effect(b, Err(InvalidFreeStart))
    else Effect(SetFreeStart(b, newFreeStart), Ok)
  }

  function SetFreeEnd(b: Page, offset: nat): Effect {
    if offset < FreeStart(b) || offset < HEADER_SIZE then Effect(b, Err(InvalidFreeEnd))
    else Effect(Splice(b, FREE_END_OFFSET, U16Bytes(offset)), Ok)
  }

  /** `set_special_offset` asserts `special < PAGE_SIZE`. */
  function SetSpecialSize(b: Page, special: U16): Page
    requires special < PAGE_SIZE
  {
    Splice(b, SPECIAL_OFFSET, U16Bytes(PAGE_SIZE - special))
  }

  /** `init_new`: neither wipes the page nor sets a special offset. */
  function InitNew(raw: Page, pageType: Byte): Page {
    var b := SetTypeByte(raw, 0xFF);
    var b := Splice(b, FREE_START_OFFSET, U16Bytes(HEADER_SIZE));
    var b := Splice(b, FREE_END_OFFSET, U16Bytes(PAGE_SIZE));
    SetTypeByte(b, pageType)
  }

  /** All 4096 bytes after `init_new`: six of the header are written, the rest stays. */
  lemma InitNewBytes(raw: Page, pageType: Byte)
    ensures InitNew(raw, pageType) == raw[..10] + [pageType, raw[11], 24, 0, 0, 16] + raw[16..]
  {
    assert U16Bytes(HEADER_SIZE) == [24, 0] && U16Bytes(PAGE_SIZE) == [0, 16];
  }

  // ---------- Slot directory ----------

  function SlotCount(b: Page): nat
    requires HeaderOk(b)
  {
    (FreeStart(b) - HEADER_SIZE) / ENTRY_SIZE
  }

  function SlotAddress(i: nat): nat { HEADER_SIZE + i * ENTRY_SIZE }

  function RawEntry(b: Page, i: nat): (raw: seq<Byte>)
    requires SlotAddress(i) + ENTRY_SIZE <= PAGE_SIZE
    ensures |raw| == ENTRY_SIZE
  {
    b[SlotAddress(i)..SlotAddress(i) + ENTRY_SIZE]
  }

  function ParseEntry(raw: seq<Byte>): Entry
    requires |raw| == ENTRY_SIZE
  {
    Entry(U16At(raw, 0), U16At(raw, 2))
  }

  function EntryAt(b: Page, i: nat): Entry
    requires SlotAddress(i) + ENTRY_SIZE <= PAGE_SIZE
  {
    ParseEntry(RawEntry(b, i))
  }

  function EntryBytes(offset: nat, length: nat): (r: seq<Byte>)
    ensures |r| == ENTRY_SIZE
  {
    U16Bytes(offset) + U16Bytes(length)
  }

  function AppendSlotEntry(b: Page, size: U16, offset: U16): Effect
    requires HeaderOk(b)
  {
    var fs := FreeStart(b);
    if FreeEnd(b) - fs < ENTRY_SIZE then Effect(b, Err(NotEnoughFreeSpace))
    else IncrementFreeStart(Splice(b, fs, EntryBytes(offset, size)), ENTRY_SIZE)
  }

  /** The overlapping shift: `m` bytes from `at` moved up by one entry, and `entry` written into the hole. */
  function Shifted(b: Page, at: nat, m: nat, entry: seq<Byte>): Page
    requires |entry| == ENTRY_SIZE && at + m + ENTRY_SIZE <= PAGE_SIZE
  {
    Splice(Splice(b, at + ENTRY_SIZE, b[at..at + m]), at, entry)
  }

  function InsertSlotEntry(b: Page, idx: nat, e: Entry): Effect
    requires HeaderOk(b)
  {
    var slotCount := SlotCount(b);
    if FreeEnd(b) - FreeStart(b) < ENTRY_SIZE then Effect(b, Err(NotEnoughFreeSpace))
    else if idx > slotCount then Effect(b, Err(SlotIndexNotInRange))
    else if idx == slotCount then AppendSlotEntry(b, e.length, e.offset)
    else
      var shifted := Shifted(b, SlotAddress(idx), (slotCount - idx) * ENTRY_SIZE, EntryBytes(e.offset, e.length));
      IncrementFreeStart(shifted, ENTRY_SIZE)
  }

  // ---------- Cells ----------

  function AddCellAppend(b: Page, cell: Cell): Effect
    requires HeaderOk(b)
  {
    if |cell| + ENTRY_SIZE > FreeEnd(b) - FreeStart(b) then Effect(b, Err(NoContiguousSpace))
    else
      var start := FreeEnd(b) - |cell|;
      FinishAdd(AppendSlotEntry(b, AsU16(|cell|), AsU16(start)), start, cell)
  }

  function AddCellAt(b: Page, index: nat, cell: Cell): Effect
    requires HeaderOk(b)
  {
    if |cell| + ENTRY_SIZE > FreeEnd(b) - FreeStart(b) then Effect(b, Err(NoContiguousSpace))
    else
      var start := FreeEnd(b) - |cell|;
      FinishAdd(InsertSlotEntry(b, index, Entry(AsU16(start), AsU16(|cell|))), start, cell)
  }

  /** The common tail of both adds: `?` on the directory step, copy the cell, lower `free_end`. */
  function FinishAdd(dir: Effect, start: nat, cell: Cell): Effect
    requires start + |cell| <= PAGE_SIZE
  {
    if dir.status.Err? then dir
    else SetFreeEnd(Splice(dir.bytes, start, cell), start)
  }

  /** `cell_slice_from_id`. */
  function CellFromId(b: Page, id: nat): Result<Cell>
    requires HeaderOk(b)
  {
    if SlotCount(b) == 0 then Failure(EmptySlotDir)
    else if id >= SlotCount(b) then Failure(SlotIDOutOfBounds)
    else
      var e := EntryAt(b, id);
      if e.offset + e.length > PAGE_SIZE then Failure(CorruptCell)
      else Success(b[e.offset..e.offset + e.length])
  }

  /** The directory as a sequence of entries. */
  function Entries(b: Page): (es: seq<Entry>)
    requires HeaderOk(b)
    ensures |es| == SlotCount(b)
    ensures forall i :: 0 <= i < |es| ==> es[i] == EntryAt(b, i)
  {
    seq(SlotCount(b), i requires 0 <= i < SlotCount(b) => EntryAt(b, i))
  }

  // ---------- What a page holds ----------

  function Insert<T>(s: seq<T>, i: nat, x: T): (r: seq<T>)
    requires i <= |s|
    ensures |r| == |s| + 1
    ensures forall j :: 0 <= j < |r| ==> r[j] == if j < i then s[j] else if j == i then x else s[j - 1]
  {
    s[..i] + [x] + s[i..]
  }

  /** Where slot `j` is after an insert at slot `i`. */
  function Bump(i: nat, j: nat): nat { if j >= i then j + 1 else j }

  function BumpAll(i: nat, order: seq<nat>): (r: seq<nat>)
    ensures |r| == |order|
  {
    seq(|order|, k requires 0 <= k < |order| => Bump(i, order[k]))
  }

  function Total(cells: seq<Cell>): nat {
    if cells == [] then 0 else |cells[0]| + Total(cells[1..])
  }

  ghost predicate Permutation(order: seq<nat>, n: nat) {
    && |order| == n
    && (forall k :: 0 <= k < n ==> order[k] < n)
    && (forall j, k :: 0 <= j < k < n ==> order[j] != order[k])
    && (forall i :: 0 <= i < n ==> i in order)
  }

  /** The entries in the order their cells were added; `order` lists slots, oldest cell first. */
  function Physical(es: seq<Entry>, order: seq<nat>): (ph: seq<Entry>)
    requires forall k :: 0 <= k < |order| ==> order[k] < |es|
    ensures |ph| == |order|
  {
    seq(|order|, k requires 0 <= k < |order| => es[order[k]])
  }

  /** Laid end to end, oldest first, the extents go down from `hi` and stop at `lo`. */
  ghost predicate Chain(ph: seq<Entry>, lo: nat, hi: nat) {
    if ph == [] then lo == hi
    else
      var last := ph[|ph| - 1];
      last.offset == lo && Chain(ph[..|ph| - 1], lo + last.length, hi)
  }

  ghost predicate Tiled(es: seq<Entry>, order: seq<nat>, lo: nat, hi: nat) {
    Permutation(order, |es|) && Chain(Physical(es, order), lo, hi)
  }

  ghost predicate Stores(b: Page, e: Entry, cell: Cell) {
    e.length == |cell| && e.offset + e.length <= PAGE_SIZE && b[e.offset..e.offset + e.length] == cell
  }

  ghost predicate StoresAll(b: Page, es: seq<Entry>, cells: seq<Cell>) {
    |es| == |cells| && forall i :: 0 <= i < |es| ==> Stores(b, es[i], cells[i])
  }

  /**
    With `free_start` at `fs`, `free_end` at `fe` and directory `es`, the bytes represent the
    slot-ordered list `cells`, added in the order `order`, below `cellEnd`.
   */
  ghost predicate Layout(b: Page, fs: nat, fe: nat, es: seq<Entry>, cellEnd: nat, cells: seq<Cell>, order: seq<nat>) {
    && fs == SlotAddress(|cells|) <= fe <= cellEnd <= PAGE_SIZE
    && fe == cellEnd - Total(cells)
    && StoresAll(b, es, cells)
    && Tiled(es, order, fe, cellEnd)
  }

  /** The page invariant; `cellEnd` is 4096, or 4080 when a 16-byte special area follows. */
  ghost predicate Holds(b: Page, cellEnd: nat, cells: seq<Cell>, order: seq<nat>) {
    HeaderOk(b) && Layout(b, FreeStart(b), FreeEnd(b), Entries(b), cellEnd, cells, order)
  }

  /** Nothing an add may touch: the header but `free_start`/`free_end`, and the special area. */
  ghost predicate SameOutside(b: Page, c: Page, cellEnd: nat) {
    forall p :: 0 <= p < PAGE_SIZE && (p < FREE_START_OFFSET || SPECIAL_OFFSET <= p < HEADER_SIZE || cellEnd <= p) ==>
      b[p] == c[p]
  }

  // ---------- The directory step ----------

  /** All that an add does to the header and the directory, in terms of decoded entries. */
  ghost predicate DirectoryInserted(b: Page, r: Page, i: nat, e: Entry)
    requires HeaderOk(b) && i <= SlotCount(b)
  {
    && HeaderOk(r)
    && FreeStart(r) == FreeStart(b) + ENTRY_SIZE
    && FreeEnd(r) == FreeEnd(b)
    && Entries(r) == Insert(Entries(b), i, e)
    && (forall p :: 0 <= p < FREE_START_OFFSET || FREE_END_OFFSET <= p < HEADER_SIZE ==> r[p] == b[p])
    && (forall p :: FreeStart(r) <= p < PAGE_SIZE ==> r[p] == b[p])
  }

  lemma EntryRoundTrip(e: Entry)
    ensures ParseEntry(EntryBytes(e.offset, e.length)) == e
    ensures EntryBytes(e.offset, e.length) == [e.offset % 256, e.offset / 256, e.length % 256, e.length / 256]
  {
  }

  /** Through the overlapping shift, entries below stay and those past the hole move up by one. */
  lemma ShiftedBytes(b: Page, at: nat, m: nat, entry: seq<Byte>, x: nat)
    requires |entry| == ENTRY_SIZE && at + m + ENTRY_SIZE <= PAGE_SIZE && x + ENTRY_SIZE <= PAGE_SIZE
    ensures x + ENTRY_SIZE <= at ==> Shifted(b, at, m, entry)[x..x + ENTRY_SIZE] == b[x..x + ENTRY_SIZE]
    ensures x == at ==> Shifted(b, at, m, entry)[x..x + ENTRY_SIZE] == entry
    ensures at + ENTRY_SIZE <= x <= at + m ==> Shifted(b, at, m, entry)[x..x + ENTRY_SIZE] == b[x - ENTRY_SIZE..x]
  {
    var w := Shifted(b, at, m, entry);
    if at + ENTRY_SIZE <= x <= at + m {
      forall p | x <= p < x + ENTRY_SIZE
        ensures w[p] == b[p - ENTRY_SIZE]
      {
        assert w[p] == Splice(b, at + ENTRY_SIZE, b[at..at + m])[p] == b[at..at + m][p - at - ENTRY_SIZE];
      }
    }
  }

  function DirectoryWritten(b: Page, i: nat, e: Entry): Page
    requires HeaderOk(b) && i <= SlotCount(b) && FreeEnd(b) - FreeStart(b) >= ENTRY_SIZE
  {
    Shifted(b, SlotAddress(i), (SlotCount(b) - i) * ENTRY_SIZE, EntryBytes(e.offset, e.length))
  }

  lemma DirectoryWrittenRaw(b: Page, i: nat, e: Entry, j: nat)
    requires HeaderOk(b) && j <= SlotCount(b)
    requires FreeEnd(b) - FreeStart(b) >= ENTRY_SIZE && i <= SlotCount(b)
    ensures RawEntry(DirectoryWritten(b, i, e), j) ==
      if j < i then RawEntry(b, j) else if j == i then EntryBytes(e.offset, e.length) else RawEntry(b, j - 1)
  {
    var at, x := SlotAddress(i), SlotAddress(j);
    var m := (SlotCount(b) - i) * ENTRY_SIZE;
    ShiftedBytes(b, at, m, EntryBytes(e.offset, e.length), x);
    assert j < i ==> x + ENTRY_SIZE <= at;
    assert j > i ==> at + ENTRY_SIZE <= x <= at + m && SlotAddress(j - 1) == x - ENTRY_SIZE;
  }

  lemma DirectoryWrittenEntries(b: Page, i: nat, e: Entry)
    requires HeaderOk(b) && FreeEnd(b) - FreeStart(b) >= ENTRY_SIZE && i <= SlotCount(b)
    ensures forall j :: 0 <= j <= SlotCount(b) ==> EntryAt(DirectoryWritten(b, i, e), j) == Insert(Entries(b), i, e)[j]
  {
    forall j | 0 <= j <= SlotCount(b)
      ensures EntryAt(DirectoryWritten(b, i, e), j) == Insert(Entries(b), i, e)[j]
    {
      DirectoryWrittenRaw(b, i, e, j);
      EntryRoundTrip(e);
    }
  }

  lemma DirectoryWrittenFrame(b: Page, i: nat, e: Entry)
    requires HeaderOk(b) && i <= SlotCount(b) && FreeEnd(b) - FreeStart(b) >= ENTRY_SIZE
    ensures var w := DirectoryWritten(b, i, e);
      forall p :: 0 <= p < HEADER_SIZE || FreeStart(b) + ENTRY_SIZE <= p < PAGE_SIZE ==> w[p] == b[p]
    ensures FreeStart(DirectoryWritten(b, i, e)) == FreeStart(b) && FreeEnd(DirectoryWritten(b, i, e)) == FreeEnd(b)
  {
  }

  /** The directory reads the same wherever its own bytes are the same. */
  lemma EntriesSame(b: Page, r: Page)
    requires HeaderOk(b) && HeaderOk(r) && FreeStart(r) == FreeStart(b)
    requires forall p :: HEADER_SIZE <= p < FreeStart(b) ==> r[p] == b[p]
    ensures Entries(r) == Entries(b)
  {
  }

  lemma EntriesInserted(b: Page, w: Page, r: Page, i: nat, e: Entry)
    requires HeaderOk(b) && FreeStart(b) == SlotAddress(SlotCount(b)) && i <= SlotCount(b)
    requires HeaderOk(r) && FreeStart(r) == FreeStart(b) + ENTRY_SIZE
    requires forall j :: 0 <= j <= SlotCount(b) ==> EntryAt(w, j) == Insert(Entries(b), i, e)[j]
    requires forall p :: HEADER_SIZE <= p < PAGE_SIZE ==> r[p] == w[p]
    ensures Entries(r) == Insert(Entries(b), i, e)
  {
  }

  lemma InsertSlotEntryWrites(b: Page, i: nat, e: Entry)
    requires HeaderOk(b) && FreeStart(b) == SlotAddress(SlotCount(b))
    requires FreeEnd(b) - FreeStart(b) >= ENTRY_SIZE && i <= SlotCount(b)
    ensures InsertSlotEntry(b, i, e) == Effect(SetFreeStart(DirectoryWritten(b, i, e), FreeStart(b) + ENTRY_SIZE), Ok)
  {
    DirectoryWrittenFrame(b, i, e);
    if i == SlotCount(b) {
      assert Splice(b, SlotAddress(i) + ENTRY_SIZE, []) == b;
    }
  }

  /** Both ways into the directory insert one entry at one place, whole directory considered. */
  lemma InsertSlotEntryInserts(b: Page, i: nat, e: Entry)
    requires HeaderOk(b) && FreeStart(b) == SlotAddress(SlotCount(b))
    requires FreeEnd(b) - FreeStart(b) >= ENTRY_SIZE && i <= SlotCount(b)
    ensures InsertSlotEntry(b, i, e).status == Ok
    ensures DirectoryInserted(b, InsertSlotEntry(b, i, e).bytes, i, e)
  {
    var w := DirectoryWritten(b, i, e);
    var r := SetFreeStart(w, FreeStart(b) + ENTRY_SIZE);
    InsertSlotEntryWrites(b, i, e);
    DirectoryWrittenFrame(b, i, e);
    DirectoryWrittenEntries(b, i, e);
    WriteU16(w, FREE_START_OFFSET, FreeStart(b) + ENTRY_SIZE);
    assert FreeEnd(r) == FreeEnd(w);
    EntriesInserted(b, w, r, i, e);
  }

  // ---------- Tiling ----------

  lemma {:induction false} ChainBounds(ph: seq<Entry>, lo: nat, hi: nat, k: nat)
    requires Chain(ph, lo, hi) && k < |ph|
    ensures lo <= ph[k].offset && ph[k].offset + ph[k].length <= hi
  {
    var last := ph[|ph| - 1];
    if k < |ph| - 1 {
      ChainBounds(ph[..|ph| - 1], lo + last.length, hi, k);
    } else if |ph| > 1 {
      ChainBounds(ph[..|ph| - 1], lo + last.length, hi, |ph| - 2);
    }
  }

  /** Every slot lies inside the cell area. */
  lemma SlotInArea(es: seq<Entry>, order: seq<nat>, lo: nat, hi: nat, i: nat)
    requires Tiled(es, order, lo, hi) && i < |es|
    ensures lo <= es[i].offset && es[i].offset + es[i].length <= hi
  {
    assert i in order;
    var k :| 0 <= k < |order| && order[k] == i;
    ChainBounds(Physical(es, order), lo, hi, k);
  }

  lemma SlotsInArea(es: seq<Entry>, order: seq<nat>, lo: nat, hi: nat)
    requires Tiled(es, order, lo, hi)
    ensures forall i :: 0 <= i < |es| ==> lo <= es[i].offset && es[i].offset + es[i].length <= hi
  {
    forall i | 0 <= i < |es|
      ensures lo <= es[i].offset && es[i].offset + es[i].length <= hi
    {
      SlotInArea(es, order, lo, hi, i);
    }
  }

  lemma PermutationGrows(order: seq<nat>, n: nat, i: nat)
    requires Permutation(order, n) && i <= n
    ensures Permutation(BumpAll(i, order) + [i], n + 1)
  {
    var order' := BumpAll(i, order) + [i];
    forall j | 0 <= j < n + 1
      ensures j in order'
    {
      if j != i {
        var was := if j < i then j else j - 1;
        assert was in order;
        var k :| 0 <= k < |order| && order[k] == was;
        assert order'[k] == j;
      } else {
        assert order'[n] == i;
      }
    }
  }

  lemma TilingGrows(es: seq<Entry>, order: seq<nat>, lo: nat, hi: nat, i: nat, e: Entry)
    requires Tiled(es, order, lo, hi) && i <= |es| && e.offset + e.length == lo
    ensures Tiled(Insert(es, i, e), BumpAll(i, order) + [i], e.offset, hi)
  {
    var es', order' := Insert(es, i, e), BumpAll(i, order) + [i];
    PermutationGrows(order, |es|, i);
    assert Physical(es', order') == Physical(es, order) + [e];
    assert Physical(es', order')[..|order|] == Physical(es, order);
  }

  lemma {:induction false} TotalOfInsert(cells: seq<Cell>, i: nat, c: Cell)
    requires i <= |cells|
    ensures Total(Insert(cells, i, c)) == Total(cells) + |c|
  {
    if i == 0 {
      assert Insert(cells, 0, c)[1..] == cells;
    } else {
      TotalOfInsert(cells[1..], i - 1, c);
      assert Insert(cells, i, c)[1..] == Insert(cells[1..], i - 1, c);
    }
  }

  // ---------- The add step ----------

  /** Appending is inserting at the end, byte for byte. */
  lemma AppendIsInsertAtEnd(b: Page, cell: Cell)
    requires HeaderOk(b)
    ensures AddCellAppend(b, cell) == AddCellAt(b, SlotCount(b), cell)
  {
  }

  /** The copy of the cell and the write of `free_end`, after the directory step left `d`. */
  function CellWritten(d: Page, start: nat, c: Cell): Page
    requires start + |c| <= PAGE_SIZE
  {
    Splice(Splice(d, start, c), FREE_END_OFFSET, U16Bytes(start))
  }

  lemma CellWrittenFrame(d: Page, start: nat, c: Cell)
    requires HEADER_SIZE <= start && start + |c| <= PAGE_SIZE
    ensures var r := CellWritten(d, start, c);
      && FreeStart(r) == FreeStart(d) && FreeEnd(r) == start
      && r[start..start + |c|] == c
      && (forall p :: 0 <= p < FREE_END_OFFSET || SPECIAL_OFFSET <= p < start || start + |c| <= p < PAGE_SIZE ==>
        r[p] == d[p])
  {
  }

  lemma FinishAddWrites(d: Page, start: nat, c: Cell)
    requires HEADER_SIZE <= FreeStart(d) <= start && start + |c| <= PAGE_SIZE
    ensures FinishAdd(Effect(d, Ok), start, c) == Effect(CellWritten(d, start, c), Ok)
  {
  }

  /** A fitting add, seen from outside: one more entry, one more cell, the gap smaller by both. */
  ghost predicate CellAdded(b: Page, r: Page, i: nat, c: Cell)
    requires HeaderOk(b) && i <= SlotCount(b) && |c| <= FreeEnd(b)
  {
    var start := FreeEnd(b) - |c|;
    && HeaderOk(r)
    && FreeStart(r) == FreeStart(b) + ENTRY_SIZE && FreeEnd(r) == start
    && Entries(r) == Insert(Entries(b), i, Entry(start, |c|))
    && r[start..FreeEnd(b)] == c
    && SameOutside(b, r, FreeEnd(b))
  }

  lemma DirectoryAfterCopy(b: Page, d: Page, i: nat, e: Entry, c: Cell)
    requires HeaderOk(b) && i <= SlotCount(b) && FreeStart(b) == SlotAddress(SlotCount(b))
    requires DirectoryInserted(b, d, i, e)
    requires e.length == |c| && FreeStart(d) <= e.offset && e.offset + |c| == FreeEnd(b)
    ensures CellAdded(b, CellWritten(d, e.offset, c), i, c)
  {
    var r := CellWritten(d, e.offset, c);
    CellWrittenFrame(d, e.offset, c);
    EntriesSame(d, r);
  }

  lemma CellAfterDirectory(b: Page, dir: Effect, i: nat, e: Entry, c: Cell)
    requires HeaderOk(b) && i <= SlotCount(b) && FreeStart(b) == SlotAddress(SlotCount(b))
    requires dir.status == Ok && DirectoryInserted(b, dir.bytes, i, e)
    requires e.length == |c| && FreeStart(dir.bytes) <= e.offset && e.offset + |c| == FreeEnd(b)
    ensures var r := FinishAdd(dir, e.offset, c);
      r.status == Ok && CellAdded(b, r.bytes, i, c)
  {
    FinishAddWrites(dir.bytes, e.offset, c);
    DirectoryAfterCopy(b, dir.bytes, i, e, c);
  }

  /** A fitting add casts nothing away. */
  lemma AddCellUnfolds(b: Page, i: nat, c: Cell)
    requires HeaderOk(b) && |c| + ENTRY_SIZE <= FreeEnd(b) - FreeStart(b)
    ensures var start := FreeEnd(b) - |c|;
      AddCellAt(b, i, c) == FinishAdd(InsertSlotEntry(b, i, Entry(start, |c|)), start, c)
  {
  }

  lemma AddCellBytes(b: Page, i: nat, c: Cell)
    requires HeaderOk(b) && FreeStart(b) == SlotAddress(SlotCount(b)) && i <= SlotCount(b)
    requires |c| + ENTRY_SIZE <= FreeEnd(b) - FreeStart(b)
    ensures AddCellAt(b, i, c).status == Ok && CellAdded(b, AddCellAt(b, i, c).bytes, i, c)
  {
    var e := Entry(FreeEnd(b) - |c|, |c|);
    AddCellUnfolds(b, i, c);
    InsertSlotEntryInserts(b, i, e);
    CellAfterDirectory(b, InsertSlotEntry(b, i, e), i, e, c);
  }

  lemma StoresKept(b: Page, r: Page, e: Entry, cell: Cell)
    requires Stores(b, e, cell)
    requires forall p :: e.offset <= p < e.offset + e.length ==> r[p] == b[p]
    ensures Stores(r, e, cell)
  {
  }

  /** The new cell is where its entry says, and no older cell, all at or above `lo`, lost a byte. */
  lemma CellsKept(b: Page, r: Page, es: seq<Entry>, cells: seq<Cell>, lo: nat, i: nat, e: Entry, c: Cell)
    requires StoresAll(b, es, cells) && i <= |cells| && Stores(r, e, c)
    requires forall j :: 0 <= j < |es| ==> lo <= es[j].offset
    requires forall p :: lo <= p < PAGE_SIZE ==> r[p] == b[p]
    ensures StoresAll(r, Insert(es, i, e), Insert(cells, i, c))
  {
  }

  lemma LayoutGrows(b: Page, r: Page, fs: nat, fe: nat, es: seq<Entry>, fs': nat, fe': nat, es': seq<Entry>,
                    cellEnd: nat, cells: seq<Cell>, order: seq<nat>, i: nat, c: Cell)
    requires Layout(b, fs, fe, es, cellEnd, cells, order) && i <= |cells| && |c| + ENTRY_SIZE <= fe - fs
    requires fs' == fs + ENTRY_SIZE && fe' == fe - |c| && es' == Insert(es, i, Entry(fe', |c|))
    requires r[fe'..fe] == c && forall p :: fe <= p < PAGE_SIZE ==> r[p] == b[p]
    ensures Layout(r, fs', fe', es', cellEnd, Insert(cells, i, c), BumpAll(i, order) + [i])
  {
    var e := Entry(fe', |c|);
    assert StoresAll(r, es', Insert(cells, i, c)) by {
      SlotsInArea(es, order, fe, cellEnd);
      CellsKept(b, r, es, cells, fe, i, e, c);
    }
    TilingGrows(es, order, fe, cellEnd, i, e);
    TotalOfInsert(cells, i, c);
  }

  /**
    What an add may do on a page that holds `cells`: fail with one of two errors and leave all
    4096 bytes alone, or insert, after which the page holds the longer list, the new `free_end`
    is still above the new `free_start`, and nothing else has moved.
   */
  ghost predicate AddOutcome(b: Page, r: Effect, cellEnd: nat, cells: seq<Cell>, order: seq<nat>, i: nat, c: Cell) {
    if |c| + ENTRY_SIZE > FreeEnd(b) - FreeStart(b) then r == Effect(b, Err(NoContiguousSpace))
    else if i > |cells| then r == Effect(b, Err(SlotIndexNotInRange))
    else
      && r.status == Ok
      && Holds(r.bytes, cellEnd, Insert(cells, i, c), BumpAll(i, order) + [i])
      && FreeStart(b) + ENTRY_SIZE == FreeStart(r.bytes) <= FreeEnd(r.bytes) == FreeEnd(b) - |c|
      && SameOutside(b, r.bytes, cellEnd)
  }

  lemma HoldsGrows(b: Page, q: Page, cellEnd: nat, cells: seq<Cell>, order: seq<nat>, i: nat, c: Cell)
    requires Holds(b, cellEnd, cells, order) && i <= |cells| && |c| + ENTRY_SIZE <= FreeEnd(b) - FreeStart(b)
    requires CellAdded(b, q, i, c)
    ensures Holds(q, cellEnd, Insert(cells, i, c), BumpAll(i, order) + [i])
  {
    var fe := FreeEnd(b);
    assert forall p :: fe <= p < PAGE_SIZE ==> q[p] == b[p];
    LayoutGrows(b, q, FreeStart(b), fe, Entries(b), FreeStart(q), FreeEnd(q), Entries(q), cellEnd, cells, order, i, c);
  }

  lemma AddSucceeds(b: Page, r: Effect, cellEnd: nat, cells: seq<Cell>, order: seq<nat>, i: nat, c: Cell)
    requires Holds(b, cellEnd, cells, order) && i <= |cells| && |c| + ENTRY_SIZE <= FreeEnd(b) - FreeStart(b)
    requires r.status == Ok && CellAdded(b, r.bytes, i, c)
    ensures AddOutcome(b, r, cellEnd, cells, order, i, c)
  {
    HoldsGrows(b, r.bytes, cellEnd, cells, order, i, c);
  }

  /** No other error can come out of an add, and its casts and subtractions are all exact. */
  lemma AddCellRefines(b: Page, cellEnd: nat, cells: seq<Cell>, order: seq<nat>, i: nat, c: Cell)
    requires Holds(b, cellEnd, cells, order)
    ensures AddOutcome(b, AddCellAt(b, i, c), cellEnd, cells, order, i, c)
    ensures |c| + ENTRY_SIZE <= FreeEnd(b) - FreeStart(b) ==>
      AsU16(|c|) == |c| && AsU16(FreeEnd(b) - |c|) == FreeEnd(b) - |c|
  {
    assert SlotCount(b) == |cells|;
    if |c| + ENTRY_SIZE <= FreeEnd(b) - FreeStart(b) && i <= |cells| {
      AddCellBytes(b, i, c);
      AddSucceeds(b, AddCellAt(b, i, c), cellEnd, cells, order, i, c);
    }
  }

  // ---------- Reading back ----------

  /** The invariant fixes what every slot id reads, in range or not: the list is in the bytes. */
  lemma CellFromIdReads(b: Page, cellEnd: nat, cells: seq<Cell>, order: seq<nat>, id: nat)
    requires Holds(b, cellEnd, cells, order)
    ensures CellFromId(b, id) ==
      if cells == [] then Failure(EmptySlotDir)
      else if id >= |cells| then Failure(SlotIDOutOfBounds)
      else Success(cells[id])
  {
  }

  /**
    On any page, damaged or not: a cell comes out if and only if the slot's entry stores it inside
    the page, and a slot in range is reported corrupt if and only if its entry can store nothing.
   */
  lemma CellFromIdOnAnyPage(b: Page, id: nat)
    requires HeaderOk(b)
    ensures forall c :: CellFromId(b, id) == Success(c) <==> id < |Entries(b)| && Stores(b, Entries(b)[id], c)
    ensures CellFromId(b, id) == Failure(CorruptCell) <==>
      id < |Entries(b)| && forall c :: !Stores(b, Entries(b)[id], c)
    ensures CellFromId(b, id) == Failure(EmptySlotDir) <==> Entries(b) == []
    ensures CellFromId(b, id) == Failure(SlotIDOutOfBounds) <==> 0 < |Entries(b)| <= id
  {
    if id < |Entries(b)| {
      var e := Entries(b)[id];
      if e.offset + e.length <= PAGE_SIZE {
        assert Stores(b, e, b[e.offset..e.offset + e.length]);
      }
    }
  }

  /** Slot `i` is found alike by its directory entry and by its id. */
  ghost predicate FoundAlike(b: Page, i: nat)
    requires HeaderOk(b)
  {
    i < SlotCount(b) ==>
      var e := Entries(b)[i];
      e.offset + e.length <= PAGE_SIZE && CellFromId(b, i) == Success(b[e.offset..e.offset + e.length])
  }

  lemma EntryFindsCell(b: Page, cellEnd: nat, cells: seq<Cell>, order: seq<nat>, i: nat)
    requires Holds(b, cellEnd, cells, order)
    ensures FoundAlike(b, i)
  {
    if i < SlotCount(b) {
      assert Stores(b, Entries(b)[i], cells[i]);
    }
  }

  lemma InitNewHolds(raw: Page, pageType: Byte)
    ensures var b := InitNew(raw, pageType);
      && Holds(b, PAGE_SIZE, [], [])
      && TypeByte(b) == pageType
      && Lsn(b) == Lsn(raw) && SpecialOffset(b) == SpecialOffset(raw)
  {
    var b1 := SetTypeByte(raw, 0xFF);
    var b2 := Splice(b1, FREE_START_OFFSET, U16Bytes(HEADER_SIZE));
    var b3 := Splice(b2, FREE_END_OFFSET, U16Bytes(PAGE_SIZE));
    WriteU16(b1, FREE_START_OFFSET, HEADER_SIZE);
    WriteU16(b2, FREE_END_OFFSET, PAGE_SIZE);
    var b := InitNew(raw, pageType);
    assert FreeStart(b) == FreeStart(b2) && FreeEnd(b) == FreeEnd(b3);
    assert b[LSN_OFFSET..LSN_OFFSET + 8] == raw[LSN_OFFSET..LSN_OFFSET + 8];
  }

  /** Setters of the type byte and the LSN leave the stored list as it is. */
  lemma HeaderSettersKeep(b: Page, cellEnd: nat, cells: seq<Cell>, order: seq<nat>, r: Page)
    requires Holds(b, cellEnd, cells, order)
    requires forall p :: FREE_START_OFFSET <= p < SPECIAL_OFFSET || HEADER_SIZE <= p < cellEnd ==> r[p] == b[p]
    ensures Holds(r, cellEnd, cells, order)
  {
    assert FreeStart(r) == FreeStart(b) && FreeEnd(r) == FreeEnd(b);
    EntriesSame(b, r);
    SlotsInArea(Entries(b), order, FreeEnd(b), cellEnd);
    forall i | 0 <= i < |cells|
      ensures Stores(r, Entries(r)[i], cells[i])
    {
      StoresKept(b, r, Entries(b)[i], cells[i]);
    }
  }
}
