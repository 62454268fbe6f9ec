/**
  The index page over the slotted page: a B-link internal node whose cells are
  `child_ptr | key_len | key`, with a right-sibling pointer in a 16-byte special area.
  Follows src/page/internal_page.rs and the type byte of src/page/mod.rs.
 */
module IndexPage {
  import opened Wrappers
  import opened Bytes
  import opened SlottedPage
  import opened SlottedRun

  const INDEX_SPECIAL_SIZE := 16
  const RIGHT_SIBLING_OFFSET := 8
  const CELL_END := PAGE_SIZE - INDEX_SPECIAL_SIZE
  const KEY_LEN_OFFSET := 8
  const KEY_DATA_OFFSET := 10
  const MAX_INDEX_CELL_SIZE := PAGE_SIZE - HEADER_SIZE - ENTRY_SIZE

  // ---------- Cells ----------

  /** The keys `IndexCellOwned::new` accepts: it asserts `10 + key.len() < MAX_INDEX_CELL_SIZE`. */
  type Key = k: seq<Byte> | KEY_DATA_OFFSET + |k| < MAX_INDEX_CELL_SIZE witness []

  datatype Separator = Separator(key: Key, child: U64)

  function EncodeCell(s: Separator): (c: Cell)
    ensures |c| == KEY_DATA_OFFSET + |s.key|
  {
    U64Bytes(s.child) + U16Bytes(|s.key|) + s.key
  }

  /** The bytes `IndexCell` may be laid over: `from` and `get_key` assert as much. */
  predicate IsIndexCell(c: Cell) {
    KEY_DATA_OFFSET <= |c| && KEY_DATA_OFFSET + U16At(c, KEY_LEN_OFFSET) <= |c|
  }

  function CellKey(c: Cell): seq<Byte>
    requires IsIndexCell(c)
  {
    c[KEY_DATA_OFFSET..KEY_DATA_OFFSET + U16At(c, KEY_LEN_OFFSET)]
  }

  function CellChild(c: Cell): U64
    requires IsIndexCell(c)
  {
    U64At(c, 0)
  }

  lemma CellRoundTrip(s: Separator)
    ensures var c := EncodeCell(s);
      IsIndexCell(c) && CellKey(c) == s.key && CellChild(c) == s.child
  {
    var c := EncodeCell(s);
    assert c[0..8] == U64Bytes(s.child);
    assert c[8..10] == U16Bytes(|s.key|);
    U64RoundTrip(c, 0, s.child);
    U16RoundTrip(c, KEY_LEN_OFFSET, |s.key|);
  }

  /** The layout of a cell, byte by byte. */
  lemma CellBytes(s: Separator)
    ensures var c := EncodeCell(s);
      && |c| == 10 + |s.key| && c[10..] == s.key
      && c[8] == |s.key| % 256 && c[9] == |s.key| / 256
      && c[0] == s.child % 256 && c[7] == s.child / 0x100_0000_0000_0000
  {
    hide ToLe;
    var c := EncodeCell(s);
    U64BytesAre(s.child);
    assert c[0] == U64Bytes(s.child)[0] && c[7] == U64Bytes(s.child)[7];
    assert c[8] == U16Bytes(|s.key|)[0] && c[9] == U16Bytes(|s.key|)[1];
  }

  function Encoded(seps: seq<Separator>): (cells: seq<Cell>)
    ensures |cells| == |seps|
    ensures forall i :: 0 <= i < |seps| ==> cells[i] == EncodeCell(seps[i])
  {
    seq(|seps|, i requires 0 <= i < |seps| => EncodeCell(seps[i]))
  }

  lemma EncodedInsert(seps: seq<Separator>, i: nat, s: Separator)
    requires i <= |seps|
    ensures Encoded(Insert(seps, i, s)) == Insert(Encoded(seps), i, EncodeCell(s))
  {
    hide EncodeCell;
  }

  // ---------- The type byte: kind in the low four bits, level in the high four ----------

  datatype PageKind = Heap | IndexInternal | IndexMiniLeaf | IndexLeaf | Meta | Free | Undefined

  const PAGE_TYPE_MASK: bv8 := 0x0F
  const SUBTYPE_MASK: bv8 := 0xF0

  function KindBits(k: PageKind): bv8 {
    match k
    case Undefined => 0
    case Heap => 1
    case IndexInternal => 2
    case IndexMiniLeaf => 3
    case IndexLeaf => 4
    case Meta => 5
    case Free => 6
  }

  /** `page_kind`: bit patterns no kind uses read as `Undefined`. */
  function KindOf(raw: bv8): PageKind {
    var bits := raw & PAGE_TYPE_MASK;
    if bits == 1 then Heap
    else if bits == 2 then IndexInternal
    else if bits == 3 then IndexMiniLeaf
    else if bits == 4 then IndexLeaf
    else if bits == 5 then Meta
    else if bits == 6 then Free
    else Undefined
  }

  function LevelOf(raw: bv8): bv8 { (raw & SUBTYPE_MASK) >> 4 }

  function PageType(pt: bv8, pst: bv8): bv8 { (pt & PAGE_TYPE_MASK) | ((pst & PAGE_TYPE_MASK) << 4) }

  function WithLevel(raw: bv8, level: bv8): bv8 { (raw & !SUBTYPE_MASK) | ((level & PAGE_TYPE_MASK) << 4) }

  lemma TypeBits(k: PageKind, level: bv8, raw: bv8)
    ensures KindOf(PageType(KindBits(k), level)) == k
    ensures LevelOf(PageType(KindBits(k), level)) == level & PAGE_TYPE_MASK
    ensures KindOf(WithLevel(raw, level)) == KindOf(raw)
    ensures LevelOf(WithLevel(raw, level)) == level & PAGE_TYPE_MASK
    ensures KindOf(KindBits(k)) == k && LevelOf(KindBits(k)) == 0
    ensures KindBits(k) == PageType(KindBits(k), 0)
  {
  }

  /** Every type byte, 255 too: seven patterns of the low half name kinds, all others read as Undefined. */
  lemma KindOfEveryByte(raw: bv8)
    ensures var low := raw as int % 16;
      KindOf(raw) ==
        if low < 7 then [Undefined, Heap, IndexInternal, IndexMiniLeaf, IndexLeaf, Meta, Free][low] else Undefined
    ensures KindBits(KindOf(raw)) as int == if raw as int % 16 < 7 then raw as int % 16 else 0
    ensures LevelOf(raw) as int == raw as int / 16
  {
    HalvesOf(raw);
    hide LevelOf;
  }

  lemma HalvesOf(raw: bv8)
    ensures (raw & PAGE_TYPE_MASK) as int == raw as int % 16 && LevelOf(raw) as int == raw as int / 16
  {
    assert (raw & PAGE_TYPE_MASK) == raw % 16;
    assert LevelOf(raw) == raw / 16;
  }

  function RawType(b: Page): bv8 { TypeByte(b) as bv8 }

  function SetRawType(b: Page, raw: bv8): Page { SetTypeByte(b, raw as int) }

  // ---------- Operations ----------

  /** `init_in_place`, which passes on the status of `set_free_end`. */
  function InitInPlace(lsn: U64): Effect {
    var b: Page := seq(PAGE_SIZE, _ => 0);
    var b := SetRawType(b, PageType(KindBits(IndexInternal), 0));
    var b := SetSpecialSize(b, INDEX_SPECIAL_SIZE);
    var b := SetFreeStart(b, HEADER_SIZE);
    var e := SetFreeEnd(b, CELL_END);
    if e.status.Err? then e else Effect(SetLsn(e.bytes, lsn), Ok)
  }

  /** The special area, when there is one, must reach past the sibling field (slice indexing). */
  predicate SpecialOk(b: Page) {
    SpecialOffset(b) == 0 || SpecialOffset(b) + RIGHT_SIBLING_OFFSET + 8 <= PAGE_SIZE
  }

  /** `set_right_sibling` ignores a page without a special area. */
  function SetRightSibling(b: Page, id: U64): Page
    requires SpecialOk(b)
  {
    if SpecialOffset(b) == 0 then b
    else Splice(b, SpecialOffset(b) + RIGHT_SIBLING_OFFSET, U64Bytes(id))
  }

  function HasRightSibling(b: Page): bool
    requires SpecialOk(b)
  {
    SpecialOffset(b) != 0 &&
    var at := SpecialOffset(b) + RIGHT_SIBLING_OFFSET; b[at..at + 8] != [0, 0, 0, 0, 0, 0, 0, 0]
  }

  function GetRightSibling(b: Page): Option<U64>
    requires SpecialOk(b)
  {
    if SpecialOffset(b) == 0 then None
    else
      var id := U64At(b, SpecialOffset(b) + RIGHT_SIBLING_OFFSET);
      if id == 0 then None else Some(id)
  }

  datatype IndexOp =
    | AppendCell(sep: Separator)
    | InsertCell(index: nat, sep: Separator)
    | LinkRight(id: U64)
    | ChangeLevel(level: bv8)
    | ChangeKind(kind: PageKind)
    | ChangeLsn(lsn: U64)

  predicate IndexFramed(b: Page) {
    Framed(b) && SpecialOffset(b) == CELL_END && FreeEnd(b) <= CELL_END
  }

  function IndexStep(b: Page, op: IndexOp): (r: Effect)
    requires IndexFramed(b)
    ensures IndexFramed(r.bytes)
  {
    match op
    case AppendCell(s) =>
      AppendIsInsertAtEnd(b, EncodeCell(s));
      AddKeepsIndexFrame(b, SlotCount(b), EncodeCell(s));
      AddCellAppend(b, EncodeCell(s))
    case InsertCell(i, s) =>
      AddKeepsIndexFrame(b, i, EncodeCell(s));
      AddCellAt(b, i, EncodeCell(s))
    case LinkRight(id) =>
      FrameKept(b, SetRightSibling(b, id));
      Effect(SetRightSibling(b, id), Ok)
    case ChangeLevel(level) =>
      FrameKept(b, SetRawType(b, WithLevel(RawType(b), level)));
      Effect(SetRawType(b, WithLevel(RawType(b), level)), Ok)
    case ChangeKind(kind) =>
      FrameKept(b, SetRawType(b, KindBits(kind)));
      Effect(SetRawType(b, KindBits(kind)), Ok)
    case ChangeLsn(lsn) =>
      FrameKept(b, SetLsn(b, lsn));
      Effect(SetLsn(b, lsn), Ok)
  }

  lemma FrameKept(b: Page, r: Page)
    requires IndexFramed(b)
    requires forall p :: FREE_START_OFFSET <= p < SPECIAL_OFFSET + 2 ==> r[p] == b[p]
    ensures IndexFramed(r)
  {
  }

  lemma AddKeepsIndexFrame(b: Page, i: nat, c: Cell)
    requires IndexFramed(b)
    ensures IndexFramed(AddCellAt(b, i, c).bytes)
  {
    AddKeepsFrame(b, i, c);
    if |c| + ENTRY_SIZE <= FreeEnd(b) - FreeStart(b) && i <= SlotCount(b) {
      AddCellBytes(b, i, c);
    }
  }

  function IndexRun(b: Page, ops: seq<IndexOp>): (r: Trace)
    requires IndexFramed(b)
    ensures IndexFramed(r.bytes) && |r.statuses| == |ops|
    decreases |ops|
  {
    if ops == [] then Trace(b, [])
    else
      var s := IndexStep(b, ops[0]);
      var rest := IndexRun(s.bytes, ops[1..]);
      Trace(rest.bytes, [s.status] + rest.statuses)
  }

  // ---------- The node a page stands for ----------

  datatype Node = Node(seps: seq<Separator>, order: seq<nat>, sibling: U64, kind: PageKind, level: bv8, lsn: U64)

  datatype NodeOutcome = NodeOutcome(node: Node, status: Status)

  datatype NodeTrace = NodeTrace(node: Node, statuses: seq<Status>)

  function NodeGap(n: Node): int { CELL_END - SlotAddress(|n.seps|) - Total(Encoded(n.seps)) }

  function NodeInsertion(n: Node, i: nat, s: Separator): NodeOutcome {
    if KEY_DATA_OFFSET + |s.key| + ENTRY_SIZE > NodeGap(n) then NodeOutcome(n, Err(NoContiguousSpace))
    else if i > |n.seps| then NodeOutcome(n, Err(SlotIndexNotInRange))
    else NodeOutcome(n.(seps := Insert(n.seps, i, s), order := BumpAll(i, n.order) + [i]), Ok)
  }

  function NodeStep(n: Node, op: IndexOp): NodeOutcome {
    match op
    case AppendCell(s) => NodeInsertion(n, |n.seps|, s)
    case InsertCell(i, s) => NodeInsertion(n, i, s)
    case LinkRight(id) => NodeOutcome(n.(sibling := id), Ok)
    case ChangeLevel(level) => NodeOutcome(n.(level := level & PAGE_TYPE_MASK), Ok)
    case ChangeKind(kind) => NodeOutcome(n.(kind := kind, level := 0), Ok)
    case ChangeLsn(lsn) => NodeOutcome(n.(lsn := lsn), Ok)
  }

  function NodeRun(n: Node, ops: seq<IndexOp>): (r: NodeTrace)
    ensures |r.statuses| == |ops|
    decreases |ops|
  {
    if ops == [] then NodeTrace(n, [])
    else
      var s := NodeStep(n, ops[0]);
      var rest := NodeRun(s.node, ops[1..]);
      NodeTrace(rest.node, [s.status] + rest.statuses)
  }

  function SiblingField(b: Page): U64 { U64At(b, CELL_END + RIGHT_SIBLING_OFFSET) }

  ghost predicate HasFields(b: Page, n: Node) {
    && SpecialOffset(b) == CELL_END
    && SiblingField(b) == n.sibling
    && KindOf(RawType(b)) == n.kind && LevelOf(RawType(b)) == n.level
    && Lsn(b) == n.lsn
  }

  ghost predicate IsNode(b: Page, n: Node) {
    Holds(b, CELL_END, Encoded(n.seps), n.order) && HasFields(b, n)
  }

  /** What a caller can read of a node: every cell, both sibling queries, kind, level and LSN. */
  lemma NodeReads(b: Page, n: Node, id: nat)
    requires IsNode(b, n)
    ensures IndexFramed(b) && SpecialOk(b)
    ensures CellFromId(b, id) ==
      if n.seps == [] then Failure(EmptySlotDir)
      else if id >= |n.seps| then Failure(SlotIDOutOfBounds)
      else Success(EncodeCell(n.seps[id]))
    ensures GetRightSibling(b) == if n.sibling == 0 then None else Some(n.sibling)
    ensures HasRightSibling(b) <==> n.sibling != 0
  {
    CellFromIdReads(b, CELL_END, Encoded(n.seps), n.order, id);
    U64ZeroIffZeroBytes(b, CELL_END + RIGHT_SIBLING_OFFSET);
  }

  /** A wiped page with the free-space bounds and the special offset written. */
  lemma InitBounds(b: Page)
    requires b[CELL_END..] == seq(INDEX_SPECIAL_SIZE, _ => 0)
    ensures var r := SetFreeStart(SetSpecialSize(b, INDEX_SPECIAL_SIZE), HEADER_SIZE);
      var e := SetFreeEnd(r, CELL_END);
      && e.status == Ok && Holds(e.bytes, CELL_END, [], []) && SpecialOffset(e.bytes) == CELL_END
      && TypeByte(e.bytes) == TypeByte(b) && e.bytes[CELL_END..] == b[CELL_END..]
  {
    var b2 := SetSpecialSize(b, INDEX_SPECIAL_SIZE);
    var b3 := SetFreeStart(b2, HEADER_SIZE);
    WriteU16(b, SPECIAL_OFFSET, CELL_END);
    WriteU16(b2, FREE_START_OFFSET, HEADER_SIZE);
    WriteU16(b3, FREE_END_OFFSET, CELL_END);
    var e := SetFreeEnd(b3, CELL_END).bytes;
    assert FreeStart(e) == FreeStart(b3) && SpecialOffset(e) == SpecialOffset(b3) == SpecialOffset(b2);
  }

  lemma InitInPlaceIsEmptyNode(lsn: U64)
    ensures InitInPlace(lsn).status == Ok
    ensures IsNode(InitInPlace(lsn).bytes, Node([], [], 0, IndexInternal, 0, lsn))
  {
    var b0: Page := seq(PAGE_SIZE, _ => 0);
    var b1 := SetRawType(b0, PageType(KindBits(IndexInternal), 0));
    InitBounds(b1);
    var b4 := SetFreeEnd(SetFreeStart(SetSpecialSize(b1, INDEX_SPECIAL_SIZE), HEADER_SIZE), CELL_END).bytes;
    assert InitInPlace(lsn) == Effect(SetLsn(b4, lsn), Ok);
    InitFields(b4, lsn);
  }

  /** All 4096 bytes of a fresh index page. */
  lemma InitInPlaceBytes(lsn: U64)
    ensures InitInPlace(lsn).bytes ==
      U64Bytes(lsn) + [0, 0, 2, 0, 24, 0, 0xF0, 0x0F, 0xF0, 0x0F] + seq(4078, _ => 0)
  {
    InitInPlaceIsEmptyNode(lsn);
    hide U64Bytes, U16Bytes, IsNode;
    assert U16Bytes(HEADER_SIZE) == [24, 0] && U16Bytes(CELL_END) == [0xF0, 0x0F] by {
      BoundsBytes();
    }
    assert PageType(KindBits(IndexInternal), 0) == 2;
  }

  lemma BoundsBytes()
    ensures U16Bytes(HEADER_SIZE) == [24, 0] && U16Bytes(CELL_END) == [0xF0, 0x0F]
  {
  }

  /** A sibling id takes the last eight bytes of an index page, least significant byte at 4088. */
  lemma SiblingBytes(b: Page, id: U64)
    requires IndexFramed(b)
    ensures SetRightSibling(b, id) == b[..4088] + U64Bytes(id)
    ensures SetRightSibling(b, id)[4088] == id % 256 && SetRightSibling(b, id)[4095] == id / 0x100_0000_0000_0000
  {
    hide ToLe;
    var r := SetRightSibling(b, id);
    assert r == b[..4088] + U64Bytes(id);
    U64BytesAre(id);
    assert r[4088] == U64Bytes(id)[0] && r[4095] == U64Bytes(id)[7];
  }

  lemma InitFields(b: Page, lsn: U64)
    requires Holds(b, CELL_END, [], []) && SpecialOffset(b) == CELL_END
    requires TypeByte(b) == PageType(KindBits(IndexInternal), 0) as int
    requires b[CELL_END..] == seq(INDEX_SPECIAL_SIZE, _ => 0)
    ensures IsNode(SetLsn(b, lsn), Node([], [], 0, IndexInternal, 0, lsn))
  {
    var r := SetLsn(b, lsn);
    var at := CELL_END + RIGHT_SIBLING_OFFSET;
    HeaderSettersKeep(b, CELL_END, [], [], r);
    WriteU64(b, LSN_OFFSET, lsn);
    TypeBits(IndexInternal, 0, 0);
    assert r[at..at + 8] == b[CELL_END..][8..16] == [0, 0, 0, 0, 0, 0, 0, 0];
    U64ZeroIffZeroBytes(r, at);
    assert Encoded([]) == [];
  }

  // ---------- Refinement ----------

  ghost predicate NodeStepAgrees(r: Effect, q: NodeOutcome) { r.status == q.status && IsNode(r.bytes, q.node) }

  ghost predicate NodeAgrees(r: Trace, q: NodeTrace) { r.statuses == q.statuses && IsNode(r.bytes, q.node) }

  lemma NodeAddRefines(b: Page, n: Node, i: nat, s: Separator)
    requires IsNode(b, n)
    ensures NodeStepAgrees(AddCellAt(b, i, EncodeCell(s)), NodeInsertion(n, i, s))
  {
    var a := Contents(CELL_END, Encoded(n.seps), n.order, TypeByte(b), Lsn(b));
    AddStepRefines(b, a, i, EncodeCell(s));
    NodeAddAgrees(b, n, a, AddCellAt(b, i, EncodeCell(s)), i, s);
  }

  lemma FieldsKept(b: Page, r: Page, n: Node)
    requires HasFields(b, n) && TypeByte(r) == TypeByte(b) && Lsn(r) == Lsn(b) && SameSpecial(b, r, CELL_END)
    ensures HasFields(r, n)
  {
    var at := CELL_END + RIGHT_SIBLING_OFFSET;
    assert r[at..at + 8] == b[at..at + 8];
  }

  lemma InsertionOfEncoded(n: Node, a: Contents, i: nat, s: Separator)
    requires a.cellEnd == CELL_END && a.cells == Encoded(n.seps) && a.order == n.order
    ensures var o, q := Insertion(a, i, EncodeCell(s)), NodeInsertion(n, i, s);
      && o.status == q.status && o.contents.cells == Encoded(q.node.seps) && o.contents.order == q.node.order
      && q.node == n.(seps := q.node.seps, order := q.node.order)
  {
  }

  lemma NodeAddAgrees(b: Page, n: Node, a: Contents, r: Effect, i: nat, s: Separator)
    requires IsNode(b, n) && a == Contents(CELL_END, Encoded(n.seps), n.order, TypeByte(b), Lsn(b))
    requires StepAgrees(b, CELL_END, r, Insertion(a, i, EncodeCell(s)))
    ensures NodeStepAgrees(r, NodeInsertion(n, i, s))
  {
    FieldsKept(b, r.bytes, n);
    InsertionOfEncoded(n, a, i, s);
  }

  lemma LinkRightFields(b: Page, n: Node, id: U64)
    requires HasFields(b, n)
    ensures HasFields(SetRightSibling(b, id), n.(sibling := id))
  {
    WriteU64(b, CELL_END + RIGHT_SIBLING_OFFSET, id);
    var r := SetRightSibling(b, id);
    assert r[LSN_OFFSET..LSN_OFFSET + 8] == b[LSN_OFFSET..LSN_OFFSET + 8];
  }

  lemma TypeFields(b: Page, n: Node, raw: bv8)
    requires HasFields(b, n)
    ensures HasFields(SetRawType(b, raw), n.(kind := KindOf(raw), level := LevelOf(raw)))
  {
  }

  lemma LsnFields(b: Page, n: Node, lsn: U64)
    requires HasFields(b, n)
    ensures HasFields(SetLsn(b, lsn), n.(lsn := lsn))
  {
    WriteU64(b, LSN_OFFSET, lsn);
    var r := SetLsn(b, lsn);
    var at := CELL_END + RIGHT_SIBLING_OFFSET;
    assert r[at..at + 8] == b[at..at + 8];
  }

  /** Each setter writes its own field and no other. */
  lemma SetterFields(b: Page, n: Node, op: IndexOp)
    requires IndexFramed(b) && HasFields(b, n) && !op.AppendCell? && !op.InsertCell?
    ensures HasFields(IndexStep(b, op).bytes, NodeStep(n, op).node)
  {
    match op
    case LinkRight(id) =>
      LinkRightFields(b, n, id);
    case ChangeLevel(level) =>
      TypeBits(n.kind, level, RawType(b));
      TypeFields(b, n, WithLevel(RawType(b), level));
    case ChangeKind(kind) =>
      TypeBits(kind, 0, 0);
      TypeFields(b, n, KindBits(kind));
    case ChangeLsn(lsn) =>
      LsnFields(b, n, lsn);
  }

  /** Setters write outside the free-space bounds, the directory and the cells. */
  lemma SetterBytes(b: Page, op: IndexOp)
    requires IndexFramed(b) && !op.AppendCell? && !op.InsertCell?
    ensures var r := IndexStep(b, op).bytes;
      forall p :: FREE_START_OFFSET <= p < SPECIAL_OFFSET || HEADER_SIZE <= p < CELL_END ==> r[p] == b[p]
  {
  }

  lemma NodeSetterRefines(b: Page, n: Node, op: IndexOp)
    requires IsNode(b, n) && !op.AppendCell? && !op.InsertCell?
    ensures IndexFramed(b)
    ensures NodeStepAgrees(IndexStep(b, op), NodeStep(n, op))
  {
    SetterBytes(b, op);
    SetterFields(b, n, op);
    var r := IndexStep(b, op);
    assert r.status == Ok;
    hide IndexStep, HasFields, Encoded;
    HeaderSettersKeep(b, CELL_END, Encoded(n.seps), n.order, r.bytes);
    hide Holds;
  }

  lemma NodeStepRefines(b: Page, n: Node, op: IndexOp)
    requires IsNode(b, n)
    ensures IndexFramed(b)
    ensures NodeStepAgrees(IndexStep(b, op), NodeStep(n, op))
  {
    match op
    case AppendCell(s) =>
      AppendIsInsertAtEnd(b, EncodeCell(s));
      NodeAddRefines(b, n, SlotCount(b), s);
    case InsertCell(i, s) =>
      NodeAddRefines(b, n, i, s);
    case _ =>
      NodeSetterRefines(b, n, op);
  }

  /** Every run on the bytes of an index page is the same run on its node. */
  lemma {:induction false} NodeRunRefines(b: Page, n: Node, ops: seq<IndexOp>)
    requires IsNode(b, n)
    ensures IndexFramed(b)
    ensures NodeAgrees(IndexRun(b, ops), NodeRun(n, ops))
    decreases |ops|
  {
    if ops != [] {
      NodeStepRefines(b, n, ops[0]);
      var s, o := IndexStep(b, ops[0]), NodeStep(n, ops[0]);
      NodeRunRefines(s.bytes, o.node, ops[1..]);
    }
  }
}
