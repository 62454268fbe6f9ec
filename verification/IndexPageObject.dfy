/**
  `IndexPageMut` and `IndexPageRef` as an object over a slotted page, with `find_child_ptr`
  proved against the router for every page whose slots hold index cells.
 */
module IndexPageObject {
  import opened Wrappers
  import opened Bytes
  import opened SlottedPage
  import opened SlottedRun
  import opened IndexPage
  import opened NodeHistory
  import opened Router
  import opened SlottedPageObject

  /** `IndexCellOwned::new`: a growing buffer, filled field by field. */
  method NewIndexCell(key: Key, child: U64) returns (cell: Cell)
    ensures |cell| == KEY_DATA_OFFSET + |key| && IsIndexCell(cell)
    ensures CellKey(cell) == key && CellChild(cell) == child
  {
    cell := [];
    cell := cell + U64Bytes(child);
    cell := cell + U16Bytes(AsU16(|key|));
    cell := cell + key;
    assert cell == EncodeCell(Separator(key, child));
    CellRoundTrip(Separator(key, child));
  }

  class IndexPageMut {
    const page: SlottedPageMut

    constructor FromSlottedPage(page: SlottedPageMut)
      ensures this.page == page
    {
      this.page := page;
    }

    ghost predicate Valid() { page.Valid() }

    ghost function Contents(): (b: Page)
      requires Valid()
      reads page.bytes
    {
      page.Contents()
    }

    /** Whatever the buffer held, it becomes an empty internal node. */
    method InitIndexPage(lsn: U64) returns (status: Status)
      requires Valid()
      modifies page.bytes
      ensures Effect(Contents(), status) == InitInPlace(lsn)
    {
      page.WipePage();
      page.SetPageType(PageType(KindBits(IndexInternal), 0) as int);
      page.WriteSpecialSize(INDEX_SPECIAL_SIZE);
      page.WriteFreeStart(HEADER_SIZE);
      status := page.WriteFreeEnd(CELL_END);
      if status.Err? {
        return;
      }
      page.WriteLsn(lsn);
    }

    method SetKind(kind: PageKind)
      requires Valid()
      modifies page.bytes
      ensures Contents() == SetRawType(old(Contents()), KindBits(kind))
    {
      page.SetPageType(KindBits(kind) as int);
    }

    method SetLevel(level: bv8)
      requires Valid()
      modifies page.bytes
      ensures Contents() == SetRawType(old(Contents()), WithLevel(RawType(old(Contents())), level))
    {
      var t := page.GetPageType();
      page.SetPageType(WithLevel(t as bv8, level) as int);
    }

    method LinkRightSibling(id: U64)
      requires Valid() && SpecialOk(Contents())
      modifies page.bytes
      ensures Contents() == SetRightSibling(old(Contents()), id)
    {
      var special := page.ReadU16(SPECIAL_OFFSET);
      if special != 0 {
        page.CopyIn(special + RIGHT_SIBLING_OFFSET, U64Bytes(id));
      }
    }

    method AppendIndexCell(s: Separator) returns (status: Status)
      requires Valid() && HeaderOk(Contents())
      modifies page.bytes
      ensures Effect(Contents(), status) == AddCellAppend(old(Contents()), EncodeCell(s))
    {
      status := page.AddCellAppendSlotEntry(EncodeCell(s));
    }

    method InsertIndexCell(index: nat, s: Separator) returns (status: Status)
      requires Valid() && HeaderOk(Contents())
      modifies page.bytes
      ensures Effect(Contents(), status) == AddCellAt(old(Contents()), index, EncodeCell(s))
    {
      status := page.AddCellAtSlotEntryIndex(index, EncodeCell(s));
    }

    method HasSibling() returns (r: bool)
      requires Valid() && SpecialOk(Contents())
      ensures r == HasRightSibling(Contents())
    {
      var special := page.ReadU16(SPECIAL_OFFSET);
      if special == 0 {
        return false;
      }
      var at := special + RIGHT_SIBLING_OFFSET;
      return page.bytes[at..at + 8] != [0, 0, 0, 0, 0, 0, 0, 0];
    }

    method Sibling() returns (r: Option<U64>)
      requires Valid() && SpecialOk(Contents())
      ensures r == GetRightSibling(Contents())
    {
      var special := page.ReadU16(SPECIAL_OFFSET);
      if special == 0 {
        return None;
      }
      var id := U64At(page.bytes[..], special + RIGHT_SIBLING_OFFSET);
      return if id == 0 then None else Some(id);
    }

    /** `cell_slice_from_entry`; what it debug-asserts on top is NodeMeetsDebugAssert. */
    method CellSliceFromEntry(e: Entry) returns (cell: Cell)
      requires Valid() && e.offset + e.length <= PAGE_SIZE
      ensures cell == Contents()[e.offset..e.offset + e.length]
    {
      cell := page.bytes[e.offset..e.offset + e.length];
    }

    /**
      On every page whose slots hold index cells: an error exactly when there is a sibling but no
      slot 0 to hold the high key, and otherwise where the router sends the key: strictly above the
      high key to the sibling that the page's bytes name, else to the first child above the key.
     */
    method FindChildPtr(key: seq<Byte>, ghost n: Node) returns (r: Result<Option<U64>>)
      requires Valid() && Searchable(Contents(), n)
      ensures r == if Routable(n) then Success(Target(n, key)) else Failure(EmptySlotDir)
      ensures r == Failure(EmptySlotDir) <==> n.sibling != 0 && n.seps == []
      ensures n.sibling != 0 && n.seps != [] && Less(n.seps[0].key, key) ==>
        r == Success(GetRightSibling(Contents())) == Success(Some(n.sibling))
      ensures n.sibling != 0 && n.seps != [] && !Less(n.seps[0].key, key) ==>
        r.Success? && FirstChildAbove(n.seps, 1, key, r.value)
      ensures n.sibling == 0 ==> r.Success? && FirstChildAbove(n.seps, 0, key, r.value)
    {
      hide Less, FirstAbove, EncodeCell, Readable, HeaderOk, SpecialOk, CellFromId, HasRightSibling, GetRightSibling;
      SearchableReads(Contents(), n);
      assert Routable(n) ==> SearchResult(n, key, Target(n, key)) by {
        if Routable(n) {
          TargetIsSearchResult(n, key);
        }
      }
      var highKey := HasSibling();
      if highKey {
        var hkc := page.CellSliceFromId(0);
        if hkc.Failure? {
          return Failure(hkc.error);
        }
        CellRoundTrip(n.seps[0]);
        if Less(CellKey(hkc.value), key) {
          var sibling := Sibling();
          return Success(sibling);
        }
      }
      var child := ScanSlots(key, if highKey then 1 else 0, n.seps);
      return Success(child);
    }

    /** The scan over the directory, past the high key when there is one. */
    method ScanSlots(key: seq<Byte>, skip: nat, ghost seps: seq<Separator>) returns (r: Option<U64>)
      requires Valid() && HeaderOk(Contents()) && Readable(Contents(), seps) && skip <= 1 && skip <= |seps|
      ensures var i := FirstAbove(seps, skip, key);
        r == if i < |seps| then Some(seps[i].child) else None
    {
      hide Less, U16At, EncodeCell, EntryAt, Stores;
      ghost var b := Contents();
      var it := page.SlotDirIter();
      var more, e := it.NextEntry(b);
      if skip == 1 {
        more, e := it.NextEntry(b);
      }
      ghost var i := skip;
      while more
        invariant it.Over(b) && fresh(it) && it.page == page
        invariant skip <= i <= |seps|
        invariant more ==> i < |seps| && it.pos == i + 1 && e == Entries(b)[i]
        invariant !more ==> i == |seps|
        invariant FirstAbove(seps, i, key) == FirstAbove(seps, skip, key)
        decreases |seps| - i, more
      {
        var cellKey, child := ReadIndexCell(e, seps[i]);
        ScanStep(seps, i, key);
        if Less(key, cellKey) {
          return Some(child);
        }
        i := i + 1;
        more, e := it.NextEntry(b);
      }
      return None;
    }

    method ReadIndexCell(e: Entry, ghost s: Separator) returns (key: seq<Byte>, child: U64)
      requires Valid() && Stores(Contents(), e, EncodeCell(s))
      ensures key == s.key && child == s.child
    {
      var cell := CellSliceFromEntry(e);
      CellRoundTrip(s);
      return CellKey(cell), CellChild(cell);
    }
  }

  /** One turn of the scan: a key not above the search key is passed over. */
  lemma ScanStep(seps: seq<Separator>, i: nat, key: seq<Byte>)
    requires i < |seps|
    ensures Less(key, seps[i].key) ==> FirstAbove(seps, i, key) == i
    ensures !Less(key, seps[i].key) ==> FirstAbove(seps, i, key) == FirstAbove(seps, i + 1, key)
  {
  }

  /** Each directory entry finds its separator's cell. */
  ghost predicate Readable(b: Page, seps: seq<Separator>)
    requires HeaderOk(b)
  {
    && |Entries(b)| == |seps|
    && forall i :: 0 <= i < |seps| ==> Stores(b, Entries(b)[i], EncodeCell(seps[i]))
  }

  /** A page, however made, whose slots hold these separators and whose sibling reads so. */
  ghost predicate Searchable(b: Page, n: Node) {
    && HeaderOk(b) && SpecialOk(b) && Readable(b, n.seps)
    && GetRightSibling(b) == if n.sibling == 0 then None else Some(n.sibling)
  }

  lemma SearchableReads(b: Page, n: Node)
    requires Searchable(b, n)
    ensures CellFromId(b, 0) == if n.seps == [] then Failure(EmptySlotDir) else Success(EncodeCell(n.seps[0]))
    ensures HasRightSibling(b) <==> n.sibling != 0
  {
    if SpecialOffset(b) != 0 {
      U64ZeroIffZeroBytes(b, SpecialOffset(b) + RIGHT_SIBLING_OFFSET);
    }
    if n.seps != [] {
      assert Stores(b, Entries(b)[0], EncodeCell(n.seps[0]));
    }
  }

  /** Any page that holds index cells can be searched, one made by `init_new` as well. */
  lemma HoldingPageIsSearchable(b: Page, cellEnd: nat, n: Node)
    requires Holds(b, cellEnd, Encoded(n.seps), n.order) && SpecialOk(b)
    requires GetRightSibling(b) == if n.sibling == 0 then None else Some(n.sibling)
    ensures Searchable(b, n)
  {
    forall i | 0 <= i < |n.seps|
      ensures Stores(b, Entries(b)[i], EncodeCell(n.seps[i]))
    {
      assert Stores(b, Entries(b)[i], Encoded(n.seps)[i]);
    }
  }

  lemma NodeIsSearchable(b: Page, n: Node)
    requires IsNode(b, n)
    ensures Searchable(b, n)
  {
    NodeReads(b, n, 0);
    HoldingPageIsSearchable(b, CELL_END, n);
  }

  /** After any run of adds from `init_new` over zeroed bytes, index cells are found without a sibling. */
  lemma InitNewPageIsSearchable(raw: Page, pageType: Byte, ops: seq<PageOp>, n: Node)
    requires SpecialOffset(raw) == 0 && n.sibling == 0
    requires var q := ListRun(Contents(PAGE_SIZE, [], [], pageType, Lsn(raw)), ops).contents;
      q.cells == Encoded(n.seps) && q.order == n.order
    ensures Framed(InitNew(raw, pageType)) && Searchable(Run(InitNew(raw, pageType), ops).bytes, n)
  {
    InitNewHolds(raw, pageType);
    var b := InitNew(raw, pageType);
    RunRefines(b, Contents(PAGE_SIZE, [], [], pageType, Lsn(raw)), ops);
    SpecialOffsetStays(b, PAGE_SIZE, Run(b, ops).bytes);
    HoldingPageIsSearchable(Run(b, ops).bytes, PAGE_SIZE, n);
  }

  /** On a node every entry meets the debug assertion of `cell_slice_from_entry`. */
  lemma NodeMeetsDebugAssert(b: Page, n: Node)
    requires IsNode(b, n)
    ensures EndsBelowPageEnd(Entries(b))
  {
    SlotsInArea(Entries(b), n.order, FreeEnd(b), CELL_END);
  }

  /** A page that has held a cell can be searched without error for good, siblings or not. */
  lemma SearchableAfterFirstCell(n: Node, ops: seq<IndexOp>)
    requires n.seps != []
    ensures Routable(NodeRun(n, ops).node)
  {
    SlotsOnlyGrow(n, ops);
  }
}
