/**
  What callers may rely on over the whole life of an index page: every slot id reads the node's
  cell, a stored cell stays decodable wherever later inserts push it, and each field reads the
  value last written to it.
 */
module NodeHistory {
  import opened Wrappers
  import opened Bytes
  import opened SlottedPage
  import opened SlottedRun
  import opened IndexPage

  function EmptyNode(lsn: U64): Node { Node([], [], 0, IndexInternal, 0, lsn) }

  /** The headline for `init_in_place`: statuses, cells and fields after any run of operations. */
  lemma RunFromInitInPlace(lsn: U64, ops: seq<IndexOp>, id: nat)
    ensures InitInPlace(lsn).status == Ok && IndexFramed(InitInPlace(lsn).bytes)
    ensures var r, q := IndexRun(InitInPlace(lsn).bytes, ops), NodeRun(EmptyNode(lsn), ops);
      && r.statuses == q.statuses
      && CellFromId(r.bytes, id) == (
        if q.node.seps == [] then Failure(EmptySlotDir)
        else if id >= |q.node.seps| then Failure(SlotIDOutOfBounds)
        else Success(EncodeCell(q.node.seps[id])))
      && GetRightSibling(r.bytes) == (if q.node.sibling == 0 then None else Some(q.node.sibling))
      && KindOf(RawType(r.bytes)) == q.node.kind && LevelOf(RawType(r.bytes)) == q.node.level
      && Lsn(r.bytes) == q.node.lsn
  {
    InitInPlaceIsEmptyNode(lsn);
    NodeRunRefines(InitInPlace(lsn).bytes, EmptyNode(lsn), ops);
    NodeReads(IndexRun(InitInPlace(lsn).bytes, ops).bytes, NodeRun(EmptyNode(lsn), ops).node, id);
  }

  // ---------- Durable cells ----------

  /** Where an operation moves slot `slot` to: up by one when a cell went in at or before it. */
  function Moved(n: Node, op: IndexOp, slot: nat): nat {
    if NodeStep(n, op).status == Ok && op.InsertCell? then Bump(op.index, slot) else slot
  }

  function Follow(n: Node, ops: seq<IndexOp>, slot: nat): nat
    decreases |ops|
  {
    if ops == [] then slot
    else Follow(NodeStep(n, ops[0]).node, ops[1..], Moved(n, ops[0], slot))
  }

  lemma MovedSeparatorStays(n: Node, op: IndexOp, slot: nat)
    requires slot < |n.seps|
    ensures var m := NodeStep(n, op).node;
      Moved(n, op, slot) < |m.seps| && m.seps[Moved(n, op, slot)] == n.seps[slot]
  {
    if op.AppendCell? || op.InsertCell? {
      var i := if op.InsertCell? then op.index else |n.seps|;
      if i <= |n.seps| {
        assert Insert(n.seps, i, op.sep)[Bump(i, slot)] == n.seps[slot];
      }
    }
  }

  lemma {:induction false} FollowedSeparatorStays(n: Node, ops: seq<IndexOp>, slot: nat)
    requires slot < |n.seps|
    ensures var q := NodeRun(n, ops).node;
      Follow(n, ops, slot) < |q.seps| && q.seps[Follow(n, ops, slot)] == n.seps[slot]
    decreases |ops|
  {
    if ops != [] {
      MovedSeparatorStays(n, ops[0], slot);
      FollowedSeparatorStays(NodeStep(n, ops[0]).node, ops[1..], Moved(n, ops[0], slot));
    }
  }

  /** What a slot read came back with is a cell of this key and this child. */
  predicate ReadsAs(read: Result<Cell>, s: Separator) {
    read.Success? && IsIndexCell(read.value) && CellKey(read.value) == s.key && CellChild(read.value) == s.child
  }

  lemma StoredSlotIsDurable(b: Page, n: Node, slot: nat, ops: seq<IndexOp>)
    requires IsNode(b, n) && slot < |n.seps|
    ensures IndexFramed(b)
    ensures ReadsAs(CellFromId(IndexRun(b, ops).bytes, Follow(n, ops, slot)), n.seps[slot])
  {
    NodeRunRefines(b, n, ops);
    FollowedSeparatorStays(n, ops, slot);
    NodeReads(IndexRun(b, ops).bytes, NodeRun(n, ops).node, Follow(n, ops, slot));
    CellRoundTrip(n.seps[slot]);
  }

  /**
    A cell built from a key and a child and stored with status Ok decodes to that key and that
    child after any later operations, at its slot shifted by the later inserts at or before it.
   */
  lemma StoredCellIsDurable(b: Page, n: Node, i: nat, s: Separator, ops: seq<IndexOp>)
    requires IsNode(b, n)
    ensures IndexFramed(b)
    ensures var stored, m := IndexStep(b, InsertCell(i, s)), NodeStep(n, InsertCell(i, s)).node;
      stored.status == Ok ==> ReadsAs(CellFromId(IndexRun(stored.bytes, ops).bytes, Follow(m, ops, i)), s)
  {
    NodeStepRefines(b, n, InsertCell(i, s));
    var stored, m := IndexStep(b, InsertCell(i, s)), NodeStep(n, InsertCell(i, s)).node;
    if stored.status == Ok {
      assert i < |m.seps| && m.seps[i] == s;
      StoredSlotIsDurable(stored.bytes, m, i, ops);
    }
  }

  // ---------- Fields ----------

  function LastSibling(ops: seq<IndexOp>, was: U64): U64 {
    if ops == [] then was
    else
      var last := ops[|ops| - 1];
      if last.LinkRight? then last.id else LastSibling(ops[..|ops| - 1], was)
  }

  function LastLsn(ops: seq<IndexOp>, was: U64): U64 {
    if ops == [] then was
    else
      var last := ops[|ops| - 1];
      if last.ChangeLsn? then last.lsn else LastLsn(ops[..|ops| - 1], was)
  }

  function LastKind(ops: seq<IndexOp>, was: PageKind): PageKind {
    if ops == [] then was
    else
      var last := ops[|ops| - 1];
      if last.ChangeKind? then last.kind else LastKind(ops[..|ops| - 1], was)
  }

  /** Changing the kind resets the level; only the low four bits of a level are kept. */
  function LastLevel(ops: seq<IndexOp>, was: bv8): bv8 {
    if ops == [] then was
    else
      var last := ops[|ops| - 1];
      if last.ChangeLevel? then last.level & 0x0F
      else if last.ChangeKind? then 0
      else LastLevel(ops[..|ops| - 1], was)
  }

  lemma {:induction false} NodeRunSplits(n: Node, x: seq<IndexOp>, op: IndexOp)
    ensures NodeRun(n, x + [op]).node == NodeStep(NodeRun(n, x).node, op).node
    decreases |x|
  {
    if x == [] {
      assert [op][1..] == [];
    } else {
      assert (x + [op])[1..] == x[1..] + [op];
      NodeRunSplits(NodeStep(n, x[0]).node, x[1..], op);
    }
  }

  lemma StepWritesField(n: Node, op: IndexOp)
    ensures var q := NodeStep(n, op).node;
      && q.sibling == (if op.LinkRight? then op.id else n.sibling)
      && q.lsn == (if op.ChangeLsn? then op.lsn else n.lsn)
      && q.kind == (if op.ChangeKind? then op.kind else n.kind)
      && q.level == (if op.ChangeLevel? then op.level & 0x0F else if op.ChangeKind? then 0 else n.level)
  {
  }

  lemma {:induction false} NodeFieldsHoldLastWrite(n: Node, ops: seq<IndexOp>)
    ensures var q := NodeRun(n, ops).node;
      && q.sibling == LastSibling(ops, n.sibling)
      && q.lsn == LastLsn(ops, n.lsn)
      && q.kind == LastKind(ops, n.kind)
      && q.level == LastLevel(ops, n.level)
    decreases |ops|
  {
    if ops != [] {
      var k := |ops| - 1;
      assert ops == ops[..k] + [ops[k]];
      NodeRunSplits(n, ops[..k], ops[k]);
      StepWritesField(NodeRun(n, ops[..k]).node, ops[k]);
      NodeFieldsHoldLastWrite(n, ops[..k]);
    }
  }

  /** Each field read from the bytes is the last value written to it, however writes and adds interleave. */
  lemma FieldsReadLastWrite(b: Page, n: Node, ops: seq<IndexOp>)
    requires IsNode(b, n)
    ensures IndexFramed(b)
    ensures var r, id := IndexRun(b, ops).bytes, LastSibling(ops, n.sibling);
      && GetRightSibling(r) == (if id == 0 then None else Some(id))
      && (HasRightSibling(r) <==> id != 0)
      && Lsn(r) == LastLsn(ops, n.lsn)
      && KindOf(RawType(r)) == LastKind(ops, n.kind)
      && LevelOf(RawType(r)) == LastLevel(ops, n.level)
  {
    NodeRunRefines(b, n, ops);
    NodeFieldsHoldLastWrite(n, ops);
    NodeReads(IndexRun(b, ops).bytes, NodeRun(n, ops).node, 0);
  }

  predicate IsSetter(op: IndexOp) { !op.AppendCell? && !op.InsertCell? }

  /** Setters can be dropped from a run without changing its separators. */
  lemma {:induction false} SettersKeepSeparators(n: Node, m: Node, ops: seq<IndexOp>)
    requires n.seps == m.seps && n.order == m.order
    ensures var x, y := NodeRun(n, ops).node, NodeRun(m, AddsOf(ops)).node;
      x.seps == y.seps && x.order == y.order
    decreases |ops|
  {
    if ops != [] {
      if IsSetter(ops[0]) {
        SettersKeepSeparators(NodeStep(n, ops[0]).node, m, ops[1..]);
      } else {
        SettersKeepSeparators(NodeStep(n, ops[0]).node, NodeStep(m, ops[0]).node, ops[1..]);
        assert AddsOf(ops)[1..] == AddsOf(ops[1..]);
      }
    }
  }

  function AddsOf(ops: seq<IndexOp>): seq<IndexOp> {
    if ops == [] then []
    else if IsSetter(ops[0]) then AddsOf(ops[1..])
    else [ops[0]] + AddsOf(ops[1..])
  }

  lemma {:induction false} SlotsOnlyGrow(n: Node, ops: seq<IndexOp>)
    ensures |n.seps| <= |NodeRun(n, ops).node.seps|
    decreases |ops|
  {
    if ops != [] {
      SlotsOnlyGrow(NodeStep(n, ops[0]).node, ops[1..]);
    }
  }

  // ---------- Sizes and missing special areas ----------

  /**
    `IndexCellOwned::new` admits cells of up to 4067 bytes, but an index page has room for one
    cell exactly when it is at most 4052 bytes long; no run can make a larger one fit.
   */
  lemma FirstCellFitsIff(lsn: U64, s: Separator)
    ensures InitInPlace(lsn).status == Ok && IndexFramed(InitInPlace(lsn).bytes)
    ensures IndexStep(InitInPlace(lsn).bytes, AppendCell(s)).status == Ok <==> |EncodeCell(s)| <= 4052
  {
    InitInPlaceIsEmptyNode(lsn);
    NodeStepRefines(InitInPlace(lsn).bytes, EmptyNode(lsn), AppendCell(s));
  }

  lemma OversizedCellNeverFits(b: Page, n: Node, ops: seq<IndexOp>, i: nat, s: Separator)
    requires IsNode(b, n) && |EncodeCell(s)| > 4052
    ensures IndexFramed(b)
    ensures IndexStep(IndexRun(b, ops).bytes, InsertCell(i, s)).status == Err(NoContiguousSpace)
  {
    NodeRunRefines(b, n, ops);
    NodeStepRefines(IndexRun(b, ops).bytes, NodeRun(n, ops).node, InsertCell(i, s));
  }

  /**
    A sibling written reads back if and only if the page has a special offset; without one the
    write is silently dropped. (The special area is taken to lie past the header.)
   */
  lemma SiblingSurvivesIff(b: Page, id: U64)
    requires id != 0 && (SpecialOffset(b) == 0 || HEADER_SIZE <= SpecialOffset(b) <= PAGE_SIZE - INDEX_SPECIAL_SIZE)
    ensures SpecialOk(b) && SpecialOk(SetRightSibling(b, id))
    ensures GetRightSibling(SetRightSibling(b, id)) == Some(id) <==> SpecialOffset(b) != 0
    ensures SpecialOffset(b) == 0 ==> SetRightSibling(b, id) == b
  {
    if SpecialOffset(b) != 0 {
      WriteU64(b, SpecialOffset(b) + RIGHT_SIBLING_OFFSET, id);
      assert SpecialOffset(SetRightSibling(b, id)) == SpecialOffset(b);
    }
  }

  /**
    After `init_new` and any run, a sibling written survives if and only if the raw bytes, which
    `init_new` does not wipe, happened to carry a special offset.
   */
  lemma SiblingAfterInitNew(raw: Page, pageType: Byte, ops: seq<PageOp>, id: U64)
    requires id != 0
    requires SpecialOffset(raw) == 0 || HEADER_SIZE <= SpecialOffset(raw) <= PAGE_SIZE - INDEX_SPECIAL_SIZE
    ensures Framed(InitNew(raw, pageType))
    ensures var b := Run(InitNew(raw, pageType), ops).bytes;
      && SpecialOk(b) && SpecialOk(SetRightSibling(b, id))
      && (GetRightSibling(SetRightSibling(b, id)) == Some(id) <==> SpecialOffset(raw) != 0)
  {
    InitNewHolds(raw, pageType);
    var b := InitNew(raw, pageType);
    RunRefines(b, Contents(PAGE_SIZE, [], [], pageType, Lsn(raw)), ops);
    SpecialOffsetStays(b, PAGE_SIZE, Run(b, ops).bytes);
    SiblingSurvivesIff(Run(b, ops).bytes, id);
  }
}
