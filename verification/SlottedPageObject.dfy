/**
  `SlottedPageMut` and its directory iterator as objects over a 4096-byte array. Each method is
  proved to leave exactly the bytes, and return exactly the status, of the function it carries out.
 */
module SlottedPageObject {
  import opened Bytes
  import opened SlottedPage

  class SlottedPageMut {
    const bytes: array<Byte>

    ghost predicate Valid() { bytes.Length == PAGE_SIZE }

    constructor FromBytes(raw: array<Byte>)
      requires raw.Length == PAGE_SIZE
      ensures Valid() && bytes == raw
    {
      bytes := raw;
    }

    ghost function Contents(): (b: Page)
      requires Valid()
      reads bytes
    {
      bytes[..]
    }

    // ---------- Raw copies ----------

    /** `copy_nonoverlapping` / `copy_from_slice` of `src` to offset `at`. */
    method CopyIn(at: nat, src: seq<Byte>)
      requires Valid() && at + |src| <= PAGE_SIZE
      modifies bytes
      ensures Contents() == Splice(old(Contents()), at, src)
    {
      var i := 0;
      while i < |src|
        invariant 0 <= i <= |src|
        invariant bytes[..] == Splice(old(bytes[..]), at, src[..i])
      {
        bytes[at + i] := src[i];
        i := i + 1;
      }
      assert src[..i] == src;
    }

    /** `ptr::copy` to a higher, possibly overlapping place: the last byte moves first. */
    method MoveUp(from: nat, to: nat, n: nat)
      requires Valid() && from <= to && to + n <= PAGE_SIZE
      modifies bytes
      ensures Contents() == Splice(old(Contents()), to, old(Contents())[from..from + n])
    {
      var i := n;
      while i > 0
        invariant 0 <= i <= n
        invariant forall p :: 0 <= p < PAGE_SIZE && !(to + i <= p < to + n) ==> bytes[p] == old(bytes[p])
        invariant forall p :: to + i <= p < to + n ==> bytes[p] == old(bytes[p - (to - from)])
      {
        i := i - 1;
        bytes[to + i] := bytes[from + i];
      }
    }

    method ReadU16(at: nat) returns (v: U16)
      requires Valid() && at + 2 <= PAGE_SIZE
      ensures v == U16At(Contents(), at)
    {
      v := bytes[at] as int + 256 * bytes[at + 1] as int;
    }

    // ---------- Header ----------

    method WipePage()
      requires Valid()
      modifies bytes
      ensures Contents() == seq(PAGE_SIZE, _ => 0)
    {
      var i := 0;
      while i < PAGE_SIZE
        invariant 0 <= i <= PAGE_SIZE
        invariant forall p :: 0 <= p < i ==> bytes[p] == 0
      {
        bytes[i] := 0;
        i := i + 1;
      }
    }

    method SetPageType(t: Byte)
      requires Valid()
      modifies bytes
      ensures Contents() == SetTypeByte(old(Contents()), t)
    {
      bytes[PAGE_TYPE_OFFSET] := t;
    }

    method GetPageType() returns (t: Byte)
      requires Valid()
      ensures t == TypeByte(Contents())
    {
      t := bytes[PAGE_TYPE_OFFSET];
    }

    method InitNewPage(pageType: Byte)
      requires Valid()
      modifies bytes
      ensures Contents() == InitNew(old(Contents()), pageType)
    {
      bytes[PAGE_TYPE_OFFSET] := 0xFF;
      CopyIn(FREE_START_OFFSET, U16Bytes(HEADER_SIZE));
      CopyIn(FREE_END_OFFSET, U16Bytes(PAGE_SIZE));
      SetPageType(pageType);
    }

    method WriteLsn(lsn: U64)
      requires Valid()
      modifies bytes
      ensures Contents() == SetLsn(old(Contents()), lsn)
    {
      CopyIn(LSN_OFFSET, U64Bytes(lsn));
    }

    method IncrementFreeStartBy(n: nat) returns (status: Status)
      requires Valid()
      modifies bytes
      ensures Effect(Contents(), status) == IncrementFreeStart(old(Contents()), n)
    {
      var freeStart := ReadU16(FREE_START_OFFSET);
      var newFreeStart := freeStart + n;
      if newFreeStart < HEADER_SIZE {
        return Err(InvalidFreeStart);
      }
      CopyIn(FREE_START_OFFSET, U16Bytes(newFreeStart));
      return Ok;
    }

    method WriteFreeStart(offset: nat)
      requires Valid()
      modifies bytes
      ensures Contents() == SetFreeStart(old(Contents()), offset)
    {
      CopyIn(FREE_START_OFFSET, U16Bytes(offset));
    }

    method WriteFreeEnd(offset: nat) returns (status: Status)
      requires Valid()
      modifies bytes
      ensures Effect(Contents(), status) == SetFreeEnd(old(Contents()), offset)
    {
      var freeStart := ReadU16(FREE_START_OFFSET);
      if offset < freeStart || offset < HEADER_SIZE {
        return Err(InvalidFreeEnd);
      }
      CopyIn(FREE_END_OFFSET, U16Bytes(offset));
      return Ok;
    }

    method WriteSpecialSize(special: U16)
      requires Valid() && special < PAGE_SIZE
      modifies bytes
      ensures Contents() == SetSpecialSize(old(Contents()), special)
    {
      CopyIn(SPECIAL_OFFSET, U16Bytes(PAGE_SIZE - special));
    }

    // ---------- Slot directory ----------

    method AppendEntry(size: U16, offset: U16) returns (status: Status)
      requires Valid() && HeaderOk(Contents())
      modifies bytes
      ensures Effect(Contents(), status) == AppendSlotEntry(old(Contents()), size, offset)
    {
      var fs := ReadU16(FREE_START_OFFSET);
      var end := ReadU16(FREE_END_OFFSET);
      if end - fs < ENTRY_SIZE {
        return Err(NotEnoughFreeSpace);
      }
      CopyIn(fs, EntryBytes(offset, size));
      status := IncrementFreeStartBy(ENTRY_SIZE);
    }

    /** Moves the `m` directory bytes from `at` up by one entry and writes `entry` into the hole. */
    method OpenSlot(at: nat, m: nat, entry: seq<Byte>)
      requires Valid() && |entry| == ENTRY_SIZE && at + m + ENTRY_SIZE <= PAGE_SIZE
      modifies bytes
      ensures Contents() == Shifted(old(Contents()), at, m, entry)
    {
      MoveUp(at, at + ENTRY_SIZE, m);
      CopyIn(at, entry);
    }

    method InsertEntry(idx: nat, e: Entry) returns (status: Status)
      requires Valid() && HeaderOk(Contents())
      modifies bytes
      ensures Effect(Contents(), status) == InsertSlotEntry(old(Contents()), idx, e)
    {
      var oldFreeStart := ReadU16(FREE_START_OFFSET);
      var end := ReadU16(FREE_END_OFFSET);
      if end - oldFreeStart < ENTRY_SIZE {
        return Err(NotEnoughFreeSpace);
      }
      var slotCount := (oldFreeStart - HEADER_SIZE) / ENTRY_SIZE;
      if idx > slotCount {
        return Err(SlotIndexNotInRange);
      }
      if idx == slotCount {
        status := AppendEntry(e.length, e.offset);
        return;
      }
      ghost var b := Contents();
      assert slotCount == SlotCount(b);
      ghost var shifted := Shifted(b, SlotAddress(idx), (slotCount - idx) * ENTRY_SIZE, EntryBytes(e.offset, e.length));
      assert InsertSlotEntry(b, idx, e) == IncrementFreeStart(shifted, ENTRY_SIZE);
      OpenSlot(SlotAddress(idx), (slotCount - idx) * ENTRY_SIZE, EntryBytes(e.offset, e.length));
      status := IncrementFreeStartBy(ENTRY_SIZE);
    }

    // ---------- Cells ----------

    method AddCellAppendSlotEntry(cell: Cell) returns (status: Status)
      requires Valid() && HeaderOk(Contents())
      modifies bytes
      ensures Effect(Contents(), status) == AddCellAppend(old(Contents()), cell)
    {
      var freeStart := ReadU16(FREE_START_OFFSET);
      var freeEnd := ReadU16(FREE_END_OFFSET);
      if |cell| + ENTRY_SIZE > freeEnd - freeStart {
        return Err(NoContiguousSpace);
      }
      var start := freeEnd - |cell|;
      status := AppendEntry(AsU16(|cell|), AsU16(start));
      if status.Err? {
        return;
      }
      CopyIn(start, cell);
      status := WriteFreeEnd(start);
    }

    method AddCellAtSlotEntryIndex(index: nat, cell: Cell) returns (status: Status)
      requires Valid() && HeaderOk(Contents())
      modifies bytes
      ensures Effect(Contents(), status) == AddCellAt(old(Contents()), index, cell)
    {
      var freeStart := ReadU16(FREE_START_OFFSET);
      var freeEnd := ReadU16(FREE_END_OFFSET);
      if |cell| + ENTRY_SIZE > freeEnd - freeStart {
        return Err(NoContiguousSpace);
      }
      var start := freeEnd - |cell|;
      status := InsertEntry(index, Entry(AsU16(start), AsU16(|cell|)));
      if status.Err? {
        return;
      }
      CopyIn(start, cell);
      status := WriteFreeEnd(start);
    }

    method CellSliceFromId(id: nat) returns (r: Result<Cell>)
      requires Valid() && HeaderOk(Contents())
      ensures r == CellFromId(Contents(), id)
    {
      var freeStart := ReadU16(FREE_START_OFFSET);
      var slotCount := (freeStart - HEADER_SIZE) / ENTRY_SIZE;
      if slotCount == 0 {
        return Failure(EmptySlotDir);
      }
      if id >= slotCount {
        return Failure(SlotIDOutOfBounds);
      }
      var e := ReadEntry(id);
      if e.offset + e.length > PAGE_SIZE {
        return Failure(CorruptCell);
      }
      return Success(bytes[e.offset..e.offset + e.length]);
    }

    method ReadEntry(i: nat) returns (e: Entry)
      requires Valid() && SlotAddress(i) + ENTRY_SIZE <= PAGE_SIZE
      ensures e == EntryAt(Contents(), i)
    {
      var base := HEADER_SIZE + i * ENTRY_SIZE;
      var offset := ReadU16(base);
      var length := ReadU16(base + 2);
      e := Entry(offset, length);
    }

    method SlotDirIter() returns (it: SlotDirIter)
      requires Valid() && HeaderOk(Contents())
      ensures fresh(it) && it.page == this && it.pos == 0 && it.size == FreeStart(Contents()) - HEADER_SIZE
    {
      var freeStart := ReadU16(FREE_START_OFFSET);
      it := new SlotDirIter(this, freeStart - HEADER_SIZE);
    }
  }

  class SlotDirIter {
    const page: SlottedPageMut
    const size: nat
    var pos: nat

    constructor (page: SlottedPageMut, size: nat)
      ensures this.page == page && this.size == size && pos == 0
    {
      this.page := page;
      this.size := size;
      pos := 0;
    }

    /** Set up over a page whose directory it still spans. */
    ghost predicate Over(b: Page)
      reads this, page.bytes
    {
      page.Valid() && b == page.Contents() && HeaderOk(b) && size == FreeStart(b) - HEADER_SIZE
    }

    /** Hands out the next entry, or nothing once all of them have been handed out. */
    method NextEntry(ghost b: Page) returns (some: bool, e: Entry)
      requires Over(b)
      modifies this
      ensures Over(b)
      ensures some <==> old(pos) < |Entries(b)|
      ensures pos == old(pos) + if some then 1 else 0
      ensures some ==> e == Entries(b)[old(pos)]
    {
      if pos >= size / ENTRY_SIZE {
        return false, Entry(0, 0);
      }
      e := page.ReadEntry(pos);
      pos := pos + 1;
      some := true;
    }
  }

  /** Driving the iterator to its end visits each slot once, in order, and then stops. */
  method CollectEntries(page: SlottedPageMut) returns (es: seq<Entry>)
    requires page.Valid() && HeaderOk(page.Contents())
    ensures es == Entries(page.Contents())
  {
    ghost var b := page.Contents();
    var it := page.SlotDirIter();
    es := [];
    var more, e := it.NextEntry(b);
    while more
      invariant it.Over(b) && fresh(it) && it.page == page
      invariant |es| <= |Entries(b)| && es == Entries(b)[..|es|]
      invariant it.pos == |es| + if more then 1 else 0
      invariant more ==> |es| < |Entries(b)| && e == Entries(b)[|es|]
      invariant !more ==> |es| == |Entries(b)|
      decreases |Entries(b)| - |es|, more
    {
      es := es + [e];
      more, e := it.NextEntry(b);
    }
  }
}
