/**
  Whole runs of slotted-page operations, from any page that holds a list of cells: what the bytes
  decode to, how the cells tile the page, and which lists of cells fit.
 */
module SlottedRun {
  import opened Bytes
  import opened SlottedPage

  datatype PageOp =
    | Append(cell: Cell)
    | InsertAt(index: nat, cell: Cell)
    | SetPageType(t: Byte)
    | SetPageLsn(lsn: U64)

  /** A header with a whole number of slots. */
  predicate Framed(b: Page) {
    HeaderOk(b) && FreeStart(b) == SlotAddress(SlotCount(b))
  }

  function Step(b: Page, op: PageOp): (r: Effect)
    requires Framed(b)
    ensures Framed(r.bytes)
  {
    match op
    case Append(c) => AddKeepsFrame(b, SlotCount(b), c); AppendIsInsertAtEnd(b, c); AddCellAppend(b, c)
    case InsertAt(i, c) => AddKeepsFrame(b, i, c); AddCellAt(b, i, c)
    case SetPageType(t) => Effect(SetTypeByte(b, t), Ok)
    case SetPageLsn(lsn) => Effect(SetLsn(b, lsn), Ok)
  }

  lemma AddKeepsFrame(b: Page, i: nat, c: Cell)
    requires Framed(b)
    ensures Framed(AddCellAt(b, i, c).bytes)
  {
    if |c| + ENTRY_SIZE <= FreeEnd(b) - FreeStart(b) && i <= SlotCount(b) {
      AddCellBytes(b, i, c);
    }
  }

  datatype Trace = Trace(bytes: Page, statuses: seq<Status>)

  function Run(b: Page, ops: seq<PageOp>): (r: Trace)
    requires Framed(b)
    ensures Framed(r.bytes) && |r.statuses| == |ops|
    decreases |ops|
  {
    if ops == [] then Trace(b, [])
    else
      var s := Step(b, ops[0]);
      var rest := Run(s.bytes, ops[1..]);
      Trace(rest.bytes, [s.status] + rest.statuses)
  }

  // ---------- The list a page stands for ----------

  datatype Contents = Contents(cellEnd: nat, cells: seq<Cell>, order: seq<nat>, pageType: Byte, lsn: U64)

  function Gap(a: Contents): int { a.cellEnd - SlotAddress(|a.cells|) - Total(a.cells) }

  datatype Outcome = Outcome(contents: Contents, status: Status)

  function Insertion(a: Contents, i: nat, c: Cell): Outcome {
    if |c| + ENTRY_SIZE > Gap(a) then Outcome(a, Err(NoContiguousSpace))
    else if i > |a.cells| then Outcome(a, Err(SlotIndexNotInRange))
    else Outcome(a.(cells := Insert(a.cells, i, c), order := BumpAll(i, a.order) + [i]), Ok)
  }

  function ListStep(a: Contents, op: PageOp): Outcome {
    match op
    case Append(c) => Insertion(a, |a.cells|, c)
    case InsertAt(i, c) => Insertion(a, i, c)
    case SetPageType(t) => Outcome(a.(pageType := t), Ok)
    case SetPageLsn(lsn) => Outcome(a.(lsn := lsn), Ok)
  }

  datatype ListTrace = ListTrace(contents: Contents, statuses: seq<Status>)

  function ListRun(a: Contents, ops: seq<PageOp>): (r: ListTrace)
    ensures |r.statuses| == |ops|
    decreases |ops|
  {
    if ops == [] then ListTrace(a, [])
    else
      var s := ListStep(a, ops[0]);
      var rest := ListRun(s.contents, ops[1..]);
      ListTrace(rest.contents, [s.status] + rest.statuses)
  }

  ghost predicate Represents(b: Page, a: Contents) {
    Holds(b, a.cellEnd, a.cells, a.order) && TypeByte(b) == a.pageType && Lsn(b) == a.lsn
  }

  /** From the header's special offset on, nothing moved: neither that field nor the tail. */
  ghost predicate SameSpecial(b: Page, r: Page, cellEnd: nat) {
    forall p :: 0 <= p < PAGE_SIZE && (SPECIAL_OFFSET <= p < HEADER_SIZE || cellEnd <= p) ==> r[p] == b[p]
  }

  lemma SpecialOffsetStays(b: Page, cellEnd: nat, r: Page)
    requires SameSpecial(b, r, cellEnd)
    ensures SpecialOffset(r) == SpecialOffset(b)
  {
  }

  ghost predicate StepAgrees(b: Page, cellEnd: nat, r: Effect, q: Outcome) {
    && r.status == q.status && Represents(r.bytes, q.contents)
    && SameSpecial(b, r.bytes, cellEnd) && q.contents.cellEnd == cellEnd
  }

  ghost predicate Agrees(b: Page, cellEnd: nat, r: Trace, q: ListTrace) {
    && r.statuses == q.statuses && Represents(r.bytes, q.contents)
    && SameSpecial(b, r.bytes, cellEnd) && q.contents.cellEnd == cellEnd
  }

  lemma AddStepRefines(b: Page, a: Contents, i: nat, c: Cell)
    requires Represents(b, a)
    ensures StepAgrees(b, a.cellEnd, AddCellAt(b, i, c), Insertion(a, i, c))
  {
    AddCellRefines(b, a.cellEnd, a.cells, a.order, i, c);
    AddOutcomeAgrees(b, a, AddCellAt(b, i, c), i, c);
  }

  lemma AddOutcomeAgrees(b: Page, a: Contents, r: Effect, i: nat, c: Cell)
    requires Represents(b, a) && AddOutcome(b, r, a.cellEnd, a.cells, a.order, i, c)
    ensures StepAgrees(b, a.cellEnd, r, Insertion(a, i, c))
  {
    assert r.bytes[LSN_OFFSET..LSN_OFFSET + 8] == b[LSN_OFFSET..LSN_OFFSET + 8];
  }

  lemma StepRefines(b: Page, a: Contents, op: PageOp)
    requires Represents(b, a)
    ensures Framed(b)
    ensures StepAgrees(b, a.cellEnd, Step(b, op), ListStep(a, op))
  {
    match op
    case Append(c) =>
      AppendIsInsertAtEnd(b, c);
      AddStepRefines(b, a, SlotCount(b), c);
    case InsertAt(i, c) =>
      AddStepRefines(b, a, i, c);
    case SetPageType(t) =>
      HeaderSettersKeep(b, a.cellEnd, a.cells, a.order, SetTypeByte(b, t));
      assert SetTypeByte(b, t)[LSN_OFFSET..LSN_OFFSET + 8] == b[LSN_OFFSET..LSN_OFFSET + 8];
    case SetPageLsn(lsn) =>
      HeaderSettersKeep(b, a.cellEnd, a.cells, a.order, SetLsn(b, lsn));
      WriteU64(b, LSN_OFFSET, lsn);
  }

  /**
    Every run refines its list run: the same status at every step, bytes that represent the list
    at the end, and the special area untouched. Decoding any slot id is then CellFromIdReads.
   */
  lemma {:induction false} RunRefines(b: Page, a: Contents, ops: seq<PageOp>)
    requires Represents(b, a)
    ensures Framed(b)
    ensures Agrees(b, a.cellEnd, Run(b, ops), ListRun(a, ops))
    decreases |ops|
  {
    if ops != [] {
      StepRefines(b, a, ops[0]);
      var s, o := Step(b, ops[0]), ListStep(a, ops[0]);
      RunRefines(s.bytes, o.contents, ops[1..]);
      AgreesAfterStep(b, a.cellEnd, s, o, Run(s.bytes, ops[1..]), ListRun(o.contents, ops[1..]));
    }
  }

  lemma AgreesAfterStep(b: Page, cellEnd: nat, s: Effect, o: Outcome, r: Trace, q: ListTrace)
    requires StepAgrees(b, cellEnd, s, o) && Agrees(s.bytes, cellEnd, r, q)
    ensures Agrees(b, cellEnd, Trace(r.bytes, [s.status] + r.statuses), ListTrace(q.contents, [o.status] + q.statuses))
  {
  }

  /** The headline for `init_new`: after any run, every slot id decodes to the list's element. */
  lemma RunFromInitNew(raw: Page, pageType: Byte, ops: seq<PageOp>, id: nat)
    ensures Framed(InitNew(raw, pageType))
    ensures var start := Contents(PAGE_SIZE, [], [], pageType, Lsn(raw));
      var r, q := Run(InitNew(raw, pageType), ops), ListRun(start, ops);
      && r.statuses == q.statuses
      && CellFromId(r.bytes, id) == (
        if q.contents.cells == [] then Failure(EmptySlotDir)
        else if id >= |q.contents.cells| then Failure(SlotIDOutOfBounds)
        else Success(q.contents.cells[id]))
      && TypeByte(r.bytes) == q.contents.pageType && Lsn(r.bytes) == q.contents.lsn
  {
    InitNewHolds(raw, pageType);
    var start := Contents(PAGE_SIZE, [], [], pageType, Lsn(raw));
    RunRefines(InitNew(raw, pageType), start, ops);
    var q := ListRun(start, ops).contents;
    CellFromIdReads(Run(InitNew(raw, pageType), ops).bytes, q.cellEnd, q.cells, q.order, id);
  }

  /** A failing operation leaves all 4096 bytes as they were, at any point of any run. */
  lemma FailedStepChangesNothing(b: Page, a: Contents, ops: seq<PageOp>, op: PageOp)
    requires Represents(b, a)
    ensures Framed(b)
    ensures var here := Run(b, ops).bytes;
      var s := Step(here, op);
      && (s.status.Err? ==> s.bytes == here)
      && s.status in {Ok, Err(NoContiguousSpace), Err(SlotIndexNotInRange)}
  {
    RunRefines(b, a, ops);
    var here, q := Run(b, ops).bytes, ListRun(a, ops).contents;
    match op
    case Append(c) =>
      AppendIsInsertAtEnd(here, c);
      AddCellRefines(here, q.cellEnd, q.cells, q.order, SlotCount(here), c);
    case InsertAt(i, c) =>
      AddCellRefines(here, q.cellEnd, q.cells, q.order, i, c);
    case _ =>
  }

  // ---------- Tiling ----------

  predicate Inside(e: Entry, p: int) { e.offset <= p < e.offset + e.length }

  lemma {:induction false} ChainCovers(ph: seq<Entry>, lo: nat, hi: nat, p: nat) returns (k: nat)
    requires Chain(ph, lo, hi) && lo <= p < hi
    ensures k < |ph| && Inside(ph[k], p)
  {
    var last := ph[|ph| - 1];
    if p < lo + last.length {
      k := |ph| - 1;
    } else {
      k := ChainCovers(ph[..|ph| - 1], lo + last.length, hi, p);
    }
  }

  lemma {:induction false} ChainDisjoint(ph: seq<Entry>, lo: nat, hi: nat, j: nat, k: nat)
    requires Chain(ph, lo, hi) && j < k < |ph|
    ensures ph[k].offset + ph[k].length <= ph[j].offset
  {
    var n := |ph| - 1;
    if k == n {
      ChainBounds(ph[..n], lo + ph[n].length, hi, j);
    } else {
      ChainDisjoint(ph[..n], lo + ph[n].length, hi, j, k);
    }
  }

  /** No two slots share a byte. */
  lemma SlotsDisjoint(es: seq<Entry>, order: seq<nat>, lo: nat, hi: nat, i: nat, j: nat, p: nat)
    requires Tiled(es, order, lo, hi) && i < |es| && j < |es|
    requires Inside(es[i], p) && Inside(es[j], p)
    ensures i == j
  {
    assert i in order && j in order;
    var x :| 0 <= x < |order| && order[x] == i;
    var y :| 0 <= y < |order| && order[y] == j;
    if x < y {
      ChainDisjoint(Physical(es, order), lo, hi, x, y);
    } else if y < x {
      ChainDisjoint(Physical(es, order), lo, hi, y, x);
    }
  }

  ghost predicate Covered(es: seq<Entry>, p: int) {
    exists i :: 0 <= i < |es| && Inside(es[i], p)
  }

  /** Each position in the range lies in exactly one extent, and the extents hold nothing else. */
  ghost predicate Partition(es: seq<Entry>, lo: nat, hi: nat) {
    && (forall p :: lo <= p < hi <==> Covered(es, p))
    && (forall i, j, p :: 0 <= i < |es| && 0 <= j < |es| && Inside(es[i], p) && Inside(es[j], p) ==> i == j)
  }

  lemma TilingIsPartition(es: seq<Entry>, order: seq<nat>, lo: nat, hi: nat)
    requires Tiled(es, order, lo, hi)
    ensures Partition(es, lo, hi)
  {
    SlotsInArea(es, order, lo, hi);
    forall p | lo <= p < hi
      ensures Covered(es, p)
    {
      var k := ChainCovers(Physical(es, order), lo, hi, p);
      assert Inside(es[order[k]], p);
    }
    forall i, j, p | 0 <= i < |es| && 0 <= j < |es| && Inside(es[i], p) && Inside(es[j], p)
      ensures i == j
    {
      SlotsDisjoint(es, order, lo, hi, i, j, p);
    }
  }

  /**
    In every page reached by a run, the cells partition the bytes from `free_end` to the end of
    the cell area, and the directory, the gap and the cell area follow one another.
   */
  lemma CellsTileThePage(b: Page, a: Contents, ops: seq<PageOp>)
    requires Represents(b, a)
    ensures Framed(b)
    ensures var r := Run(b, ops).bytes;
      && HEADER_SIZE <= SlotAddress(SlotCount(r)) == FreeStart(r) <= FreeEnd(r) <= a.cellEnd <= PAGE_SIZE
      && Partition(Entries(r), FreeEnd(r), a.cellEnd)
  {
    RunRefines(b, a, ops);
    var r, q := Run(b, ops).bytes, ListRun(a, ops).contents;
    TilingIsPartition(Entries(r), q.order, FreeEnd(r), a.cellEnd);
  }

  lemma {:induction false} OldestEndsAtTop(ph: seq<Entry>, lo: nat, hi: nat)
    requires Chain(ph, lo, hi) && ph != []
    ensures ph[0].offset + ph[0].length == hi
  {
    if |ph| > 1 {
      OldestEndsAtTop(ph[..|ph| - 1], lo + ph[|ph| - 1].length, hi);
    }
  }

  /** The condition `cell_slice_from_entry` debug-asserts of the entry it is given. */
  ghost predicate EndsBelowPageEnd(es: seq<Entry>) {
    forall i :: 0 <= i < |es| ==> es[i].offset + es[i].length < PAGE_SIZE
  }

  lemma TilingEndsBelow(es: seq<Entry>, order: seq<nat>, lo: nat, hi: nat)
    requires Tiled(es, order, lo, hi) && hi <= PAGE_SIZE
    ensures EndsBelowPageEnd(es) <==> hi < PAGE_SIZE || es == []
  {
    SlotsInArea(es, order, lo, hi);
    if es != [] {
      OldestEndsAtTop(Physical(es, order), lo, hi);
      assert es[order[0]].offset + es[order[0]].length == hi;
    }
  }

  /**
    `cell_slice_from_entry` debug-asserts that a cell ends strictly before 4096, where
    `cell_slice_from_id` allows 4096 itself. Over every run, that assertion holds of every slot
    if and only if the cell area ends below 4096 or no cell was added.
   */
  lemma DebugAssertHoldsIff(b: Page, a: Contents, ops: seq<PageOp>)
    requires Represents(b, a)
    ensures Framed(b)
    ensures EndsBelowPageEnd(Entries(Run(b, ops).bytes)) <==>
      a.cellEnd < PAGE_SIZE || ListRun(a, ops).contents.cells == []
  {
    RunRefines(b, a, ops);
    var r, q := Run(b, ops).bytes, ListRun(a, ops).contents;
    TilingEndsBelow(Entries(r), q.order, FreeEnd(r), a.cellEnd);
  }

  /** The input at which it fails: one fitting append to a page made by `init_new`. */
  lemma DebugAssertFailsAfterInitNew(raw: Page, pageType: Byte, c: Cell)
    requires |c| + ENTRY_SIZE <= PAGE_SIZE - HEADER_SIZE
    ensures Framed(InitNew(raw, pageType))
    ensures var r := Run(InitNew(raw, pageType), [Append(c)]);
      r.statuses == [Ok] && !EndsBelowPageEnd(Entries(r.bytes))
  {
    InitNewHolds(raw, pageType);
    hide InitNew;
    var a := Contents(PAGE_SIZE, [], [], pageType, Lsn(raw));
    RunRefines(InitNew(raw, pageType), a, [Append(c)]);
    DebugAssertHoldsIff(InitNew(raw, pageType), a, [Append(c)]);
    hide Step, Run;
    assert [Append(c)][1..] == [];
    assert ListRun(a, [Append(c)]) == ListTrace(ListStep(a, Append(c)).contents, [Ok]);
  }

  /** After any run, the `i`-th entry of the directory finds the cell that slot id `i` finds. */
  lemma EntryAndIdAgree(b: Page, a: Contents, ops: seq<PageOp>, i: nat)
    requires Represents(b, a)
    ensures Framed(b)
    ensures FoundAlike(Run(b, ops).bytes, i)
  {
    RunRefines(b, a, ops);
    hide FoundAlike;
    var q := ListRun(a, ops).contents;
    EntryFindsCell(Run(b, ops).bytes, q.cellEnd, q.cells, q.order, i);
  }

  // ---------- Capacity ----------

  /** What is spent on slots, cells and the remaining gap adds up to the same at every point. */
  lemma SpaceIsConserved(b: Page, a: Contents, ops: seq<PageOp>)
    requires Represents(b, a)
    ensures Framed(b)
    ensures var r, q := Run(b, ops).bytes, ListRun(a, ops).contents;
      FreeEnd(r) - FreeStart(r) + ENTRY_SIZE * SlotCount(r) + Total(q.cells) == a.cellEnd - HEADER_SIZE
  {
    RunRefines(b, a, ops);
  }

  function Cost(cells: seq<Cell>): nat {
    if cells == [] then 0 else |cells[0]| + ENTRY_SIZE + Cost(cells[1..])
  }

  predicate IsAdd(op: PageOp) { op.Append? || op.InsertAt? }

  function CellsOf(ops: seq<PageOp>): (cells: seq<Cell>)
    requires forall k :: 0 <= k < |ops| ==> IsAdd(ops[k])
    ensures |cells| == |ops|
  {
    if ops == [] then []
    else
      assert IsAdd(ops[0]) && forall k :: 0 <= k < |ops[1..]| ==> IsAdd(ops[1..][k]) == IsAdd(ops[k + 1]);
      [ops[0].cell] + CellsOf(ops[1..])
  }

  /** Adds whose index is in range provided the adds before them went through. */
  predicate AddsInRange(ops: seq<PageOp>, slots: nat) {
    forall k :: 0 <= k < |ops| ==> IsAdd(ops[k]) && (ops[k].InsertAt? ==> ops[k].index <= slots + k)
  }

  predicate AllOk(statuses: seq<Status>) { forall k :: 0 <= k < |statuses| ==> statuses[k] == Ok }

  lemma AllOkOfCons(status: Status, rest: seq<Status>)
    ensures AllOk([status] + rest) <==> status == Ok && AllOk(rest)
  {
    if AllOk([status] + rest) {
      assert ([status] + rest)[0] == status;
      assert forall k :: 0 <= k < |rest| ==> rest[k] == ([status] + rest)[k + 1];
    }
  }

  lemma {:induction false} ListCapacity(a: Contents, ops: seq<PageOp>)
    requires AddsInRange(ops, |a.cells|) && Gap(a) >= 0
    ensures AllOk(ListRun(a, ops).statuses) <==> Cost(CellsOf(ops)) <= Gap(a)
    decreases |ops|
  {
    if ops != [] {
      var s := ListStep(a, ops[0]);
      var i := if ops[0].Append? then |a.cells| else ops[0].index;
      assert ops[0].InsertAt? ==> ops[0].index <= |a.cells| + 0;
      AllOkOfCons(s.status, ListRun(s.contents, ops[1..]).statuses);
      if s.status == Ok {
        TotalOfInsert(a.cells, i, ops[0].cell);
        assert forall k :: 0 <= k < |ops[1..]| ==> ops[1..][k] == ops[k + 1];
        ListCapacity(s.contents, ops[1..]);
      }
    }
  }

  lemma {:induction false} CostOfRemoval(cells: seq<Cell>, i: nat)
    requires i < |cells|
    ensures Cost(cells) == |cells[i]| + ENTRY_SIZE + Cost(cells[..i] + cells[i + 1..])
  {
    if i == 0 {
      assert cells[..0] + cells[1..] == cells[1..];
    } else {
      CostOfRemoval(cells[1..], i - 1);
      assert (cells[..i] + cells[i + 1..])[1..] == cells[1..][..i - 1] + cells[1..][i..];
    }
  }

  lemma RemoveOne(s: seq<Cell>, i: nat)
    requires i < |s|
    ensures multiset(s[..i] + s[i + 1..]) == multiset(s) - multiset{s[i]}
  {
    assert s == s[..i] + ([s[i]] + s[i + 1..]);
  }

  lemma {:induction false} CostIsOrderFree(x: seq<Cell>, y: seq<Cell>)
    requires multiset(x) == multiset(y)
    ensures Cost(x) == Cost(y)
  {
    if x == [] {
      assert |multiset(y)| == |y|;
    } else {
      assert x[0] in multiset(x);
      assert x[0] in y;
      var i :| 0 <= i < |y| && y[i] == x[0];
      CostOfRemoval(y, i);
      RemoveOne(x, 0);
      RemoveOne(y, i);
      assert x[..0] + x[1..] == x[1..];
      CostIsOrderFree(x[1..], y[..i] + y[i + 1..]);
    }
  }

  /**
    Which cells fit does not depend on the order they come in or the slots they go to: two runs
    that add the same cells both go through or both do not, and they do exactly when the cells
    with their entries fit the gap.
   */
  lemma CapacityIsOrderFree(b: Page, a: Contents, x: seq<PageOp>, y: seq<PageOp>)
    requires Represents(b, a) && AddsInRange(x, |a.cells|) && AddsInRange(y, |a.cells|)
    requires multiset(CellsOf(x)) == multiset(CellsOf(y))
    ensures Framed(b)
    ensures AllOk(Run(b, x).statuses) <==> AllOk(Run(b, y).statuses)
    ensures AllOk(Run(b, x).statuses) <==> Cost(CellsOf(x)) <= FreeEnd(b) - FreeStart(b)
  {
    RunRefines(b, a, x);
    RunRefines(b, a, y);
    ListCapacity(a, x);
    ListCapacity(a, y);
    CostIsOrderFree(CellsOf(x), CellsOf(y));
  }

  /** A page made by `init_new` has room for exactly 4072 bytes of cells and entries. */
  lemma InitNewCapacity(raw: Page, pageType: Byte, x: seq<PageOp>)
    requires AddsInRange(x, 0)
    ensures Framed(InitNew(raw, pageType))
    ensures AllOk(Run(InitNew(raw, pageType), x).statuses) <==> Cost(CellsOf(x)) <= 4072
  {
    InitNewHolds(raw, pageType);
    CapacityIsOrderFree(InitNew(raw, pageType), Contents(PAGE_SIZE, [], [], pageType, Lsn(raw)), x, x);
  }
}
