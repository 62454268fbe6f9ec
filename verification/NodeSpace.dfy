/**
  Space on index pages, over every run of cell adds and setters from `init_in_place`: how the
  cells tile the page, what failing operations leave, what is conserved and what fits.
 */
module NodeSpace {
  import opened Bytes
  import opened SlottedPage
  import opened SlottedRun
  import opened IndexPage
  import opened NodeHistory

  /** The list of cells a node's page stands for. */
  function NodeContents(b: Page, n: Node): Contents {
    Contents(CELL_END, Encoded(n.seps), n.order, TypeByte(b), Lsn(b))
  }

  /** The page and the node after a run from `init_in_place`. */
  lemma Reached(lsn: U64, ops: seq<IndexOp>)
    ensures InitInPlace(lsn).status == Ok && IndexFramed(InitInPlace(lsn).bytes)
    ensures var b, n := IndexRun(InitInPlace(lsn).bytes, ops).bytes, NodeRun(EmptyNode(lsn), ops).node;
      IsNode(b, n) && Represents(b, NodeContents(b, n))
    ensures IndexRun(InitInPlace(lsn).bytes, ops).statuses == NodeRun(EmptyNode(lsn), ops).statuses
  {
    InitInPlaceIsEmptyNode(lsn);
    NodeRunRefines(InitInPlace(lsn).bytes, EmptyNode(lsn), ops);
  }

  /**
    The cells partition the bytes from `free_end` to 4080, directory and gap come before them and
    the special area after, and every slot ends short of the page end, as
    `cell_slice_from_entry` debug-asserts.
   */
  ghost predicate WellTiled(b: Page) {
    && HeaderOk(b)
    && HEADER_SIZE <= SlotAddress(SlotCount(b)) == FreeStart(b) <= FreeEnd(b) <= CELL_END == SpecialOffset(b)
    && Partition(Entries(b), FreeEnd(b), CELL_END)
    && EndsBelowPageEnd(Entries(b))
  }

  lemma NodeIsWellTiled(b: Page, n: Node, i: nat)
    requires IsNode(b, n)
    ensures WellTiled(b) && FoundAlike(b, i)
  {
    TilingIsPartition(Entries(b), n.order, FreeEnd(b), CELL_END);
    TilingEndsBelow(Entries(b), n.order, FreeEnd(b), CELL_END);
    EntryFindsCell(b, CELL_END, Encoded(n.seps), n.order, i);
  }

  /** Every reachable index page is well tiled, and its slots are found alike by entry and by id. */
  lemma IndexCellsTileThePage(lsn: U64, ops: seq<IndexOp>, i: nat)
    ensures InitInPlace(lsn).status == Ok && IndexFramed(InitInPlace(lsn).bytes)
    ensures WellTiled(IndexRun(InitInPlace(lsn).bytes, ops).bytes)
    ensures FoundAlike(IndexRun(InitInPlace(lsn).bytes, ops).bytes, i)
  {
    Reached(lsn, ops);
    NodeIsWellTiled(IndexRun(InitInPlace(lsn).bytes, ops).bytes, NodeRun(EmptyNode(lsn), ops).node, i);
  }

  /** A failing operation leaves all 4096 bytes of a reachable index page alone. */
  lemma IndexFailureChangesNothing(lsn: U64, ops: seq<IndexOp>, op: IndexOp)
    ensures InitInPlace(lsn).status == Ok && IndexFramed(InitInPlace(lsn).bytes)
    ensures var here := IndexRun(InitInPlace(lsn).bytes, ops).bytes;
      var s := IndexStep(here, op);
      && (s.status.Err? ==> s.bytes == here)
      && s.status in {Ok, Err(NoContiguousSpace), Err(SlotIndexNotInRange)}
  {
    Reached(lsn, ops);
    var here, n := IndexRun(InitInPlace(lsn).bytes, ops).bytes, NodeRun(EmptyNode(lsn), ops).node;
    if op.AppendCell? {
      FailedStepChangesNothing(here, NodeContents(here, n), [], Append(EncodeCell(op.sep)));
    } else if op.InsertCell? {
      FailedStepChangesNothing(here, NodeContents(here, n), [], InsertAt(op.index, EncodeCell(op.sep)));
    }
  }

  /** Gap, entries and cells of a reachable index page add up to 4056 bytes. */
  lemma IndexSpaceIsConserved(lsn: U64, ops: seq<IndexOp>)
    ensures InitInPlace(lsn).status == Ok && IndexFramed(InitInPlace(lsn).bytes)
    ensures var r, n := IndexRun(InitInPlace(lsn).bytes, ops).bytes, NodeRun(EmptyNode(lsn), ops).node;
      FreeEnd(r) - FreeStart(r) + ENTRY_SIZE * SlotCount(r) + Total(Encoded(n.seps)) == 4056
  {
    Reached(lsn, ops);
  }

  // ---------- Capacity ----------

  /** The cells a run adds, in order. */
  function AddedCells(ops: seq<IndexOp>): seq<Cell> {
    if ops == [] then []
    else if IsSetter(ops[0]) then AddedCells(ops[1..])
    else [EncodeCell(ops[0].sep)] + AddedCells(ops[1..])
  }

  /** Every insert is in range provided the adds before it went through. */
  predicate InsertsInRange(ops: seq<IndexOp>, slots: nat) {
    ops == [] ||
    if IsSetter(ops[0]) then InsertsInRange(ops[1..], slots)
    else (ops[0].InsertCell? ==> ops[0].index <= slots) && InsertsInRange(ops[1..], slots + 1)
  }

  lemma {:induction false} NodeCapacity(n: Node, ops: seq<IndexOp>)
    requires InsertsInRange(ops, |n.seps|) && NodeGap(n) >= 0
    ensures AllOk(NodeRun(n, ops).statuses) <==> Cost(AddedCells(ops)) <= NodeGap(n)
    decreases |ops|
  {
    hide NodeStep, EncodeCell, Total, Encoded;
    if ops != [] {
      var s := NodeStep(n, ops[0]);
      var rest := NodeRun(s.node, ops[1..]).statuses;
      AllOkOfCons(s.status, rest);
      StepGap(n, ops[0]);
      if s.status == Ok {
        NodeCapacity(s.node, ops[1..]);
      }
    }
  }

  lemma InsertGap(n: Node, m: Node, i: nat, s: Separator)
    requires i <= |n.seps| && m.seps == Insert(n.seps, i, s)
    ensures NodeGap(m) == NodeGap(n) - (|EncodeCell(s)| + ENTRY_SIZE)
  {
    EncodedInsert(n.seps, i, s);
    hide Encoded, EncodeCell;
    TotalOfInsert(Encoded(n.seps), i, EncodeCell(s));
    hide Total;
  }

  /** An add in range goes through exactly when it fits, and then takes its size plus four. */
  ghost predicate TakesItsSize(n: Node, s: NodeOutcome, size: nat) {
    && (s.status == Ok <==> size <= NodeGap(n))
    && (s.status == Ok ==> NodeGap(s.node) == NodeGap(n) - size && |s.node.seps| == |n.seps| + 1)
  }

  lemma InsertionGap(n: Node, i: nat, s: Separator)
    requires i <= |n.seps|
    ensures TakesItsSize(n, NodeInsertion(n, i, s), |EncodeCell(s)| + ENTRY_SIZE)
  {
    var o := NodeInsertion(n, i, s);
    if o.status == Ok {
      InsertGap(n, o.node, i, s);
    }
    hide NodeGap;
  }

  lemma StepGap(n: Node, op: IndexOp)
    ensures var s := NodeStep(n, op);
      if IsSetter(op) then s.status == Ok && s.node.seps == n.seps
      else if op.InsertCell? && op.index > |n.seps| then s.status != Ok
      else TakesItsSize(n, s, |EncodeCell(op.sep)| + ENTRY_SIZE)
  {
    if op.AppendCell? {
      InsertionGap(n, |n.seps|, op.sep);
    } else if op.InsertCell? && op.index <= |n.seps| {
      InsertionGap(n, op.index, op.sep);
    }
  }

  /**
    A run from `init_in_place` goes through if and only if its cells with their entries come to
    at most 4056 bytes, in whatever order they are added, to whichever slots, and however the
    adds are interleaved with setters.
   */
  lemma IndexCapacityIsOrderFree(lsn: U64, x: seq<IndexOp>, y: seq<IndexOp>)
    requires InsertsInRange(x, 0) && InsertsInRange(y, 0) && multiset(AddedCells(x)) == multiset(AddedCells(y))
    ensures InitInPlace(lsn).status == Ok && IndexFramed(InitInPlace(lsn).bytes)
    ensures var b := InitInPlace(lsn).bytes;
      && (AllOk(IndexRun(b, x).statuses) <==> AllOk(IndexRun(b, y).statuses))
      && (AllOk(IndexRun(b, x).statuses) <==> Cost(AddedCells(x)) <= 4056)
  {
    Reached(lsn, x);
    Reached(lsn, y);
    NodeCapacity(EmptyNode(lsn), x);
    NodeCapacity(EmptyNode(lsn), y);
    CostIsOrderFree(AddedCells(x), AddedCells(y));
  }
}
