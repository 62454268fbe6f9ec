/**
  The mapping table of src/buffer/page_table.rs over many latches: page ids to shared entries,
  each entry a latch that starts out with the page's disk offset.
 */
module MappingTable {
  import opened Wrappers
  import opened Bytes
  import P = SlottedPage
  import L = Latch
  import S = LatchSafety

  const PAGE_SIZE := P.PAGE_SIZE
  const TWO_52 := 0x10_0000_0000_0000

  // ---------- Disk offsets ----------

  /** `to_offset`, a 64-bit multiplication: without overflow checks it wraps. */
  function ToOffset(id: U64): U64 { id * PAGE_SIZE % 0x1_0000_0000_0000_0000 }

  lemma OffsetValue(id: U64)
    ensures ToOffset(id) == (id % TWO_52) * PAGE_SIZE
    ensures ToOffset(id) == id * PAGE_SIZE <==> id < TWO_52
  {
  }

  predicate RangesDisjoint(a: U64, b: U64) {
    ToOffset(a) + PAGE_SIZE <= ToOffset(b) || ToOffset(b) + PAGE_SIZE <= ToOffset(a)
  }

  /**
    Two pages have disjoint 4096-byte ranges on disk if and only if their ids differ modulo
    2^52; so ids below 2^52 never share a byte, and any larger id shares all of them with one.
   */
  lemma DiskRangesDisjointIff(a: U64, b: U64)
    ensures RangesDisjoint(a, b) <==> a % TWO_52 != b % TWO_52
    ensures a < TWO_52 && b < TWO_52 && a != b ==> RangesDisjoint(a, b)
  {
    OffsetValue(a);
    OffsetValue(b);
  }

  // ---------- The table and its latches as one system ----------

  datatype PageTableResult = Disk(offset: U64) | Memory(frame: U64)

  type Entry = L.State<PageTableResult>

  /** Records under which id, on which entry, `work` was called or a load returned Ok. */
  datatype Loading = Loading(id: U64, h: nat)

  datatype Loaded = Loaded(id: U64, h: nat, result: L.Seen<PageTableResult>)

  /**
    `latches` are the entries made so far, in order; `held` says which thread got which entry by
    looking up which id; `calls` says under which id a thread's current or last load on an entry
    was made.
   */
  datatype System = System(
    threads: nat,
    table: map<U64, nat>,
    latches: seq<Entry>,
    held: set<(nat, U64, nat)>,
    calls: map<(nat, nat), U64>,
    loadings: seq<Loading>,
    loaded: seq<Loaded>)

  datatype SysAction =
    | NewEntry(id: U64)
    | InsertEntry(id: U64, h: nat)
    | GetEntry(t: nat, id: U64)
    | Load(t: nat, id: U64, h: nat)
    | Latched(h: nat, a: L.Action<PageTableResult>)

  function Start(threads: nat): System { System(threads, map[], [], {}, map[], [], []) }

  predicate Can(s: System, x: SysAction) {
    match x
    case NewEntry(_) => true
    case InsertEntry(_, h) => h < |s.latches|
    case GetEntry(t, id) => t < s.threads && id in s.table
    case Load(t, id, h) => (t, id, h) in s.held && h < |s.latches| && L.Enabled(s.latches[h], L.StartLoad(t))
    case Latched(h, a) => h < |s.latches| && L.Enabled(s.latches[h], a) && !a.StartLoad?
  }

  predicate Returning(a: L.Action<PageTableResult>) { a.EndFast? || a.Publish? }

  /** The log entries a latch step adds: a won exchange begins a load, a return from load ends one. */
  function Log(s: System, h: nat, a: L.Action<PageTableResult>, after: Entry): System {
    if (a.t, h) !in s.calls then s
    else
      var id := s.calls[(a.t, h)];
      if a.CasWin? then s.(loadings := s.loadings + [Loading(id, h)])
      else if Returning(a) && after.results != [] && after.results[|after.results| - 1].LoadOk? then
        s.(loaded := s.loaded + [Loaded(id, h, after.results[|after.results| - 1].result)])
      else s
  }

  function Do(s: System, x: SysAction): System
    requires Can(s, x)
  {
    match x
    case NewEntry(id) => s.(latches := s.latches + [L.Init(Disk(ToOffset(id)), s.threads)])
    case InsertEntry(id, h) => s.(table := s.table[id := h])
    case GetEntry(t, id) => s.(held := s.held + {(t, id, s.table[id])})
    case Load(t, id, h) =>
      s.(latches := s.latches[h := L.Apply(s.latches[h], L.StartLoad(t))], calls := s.calls[(t, h) := id])
    case Latched(h, a) =>
      var after := L.Apply(s.latches[h], a);
      Log(s.(latches := s.latches[h := after]), h, a, after)
  }

  ghost predicate CanRun(s: System, xs: seq<SysAction>)
    decreases |xs|
  {
    xs == [] || (Can(s, xs[0]) && CanRun(Do(s, xs[0]), xs[1..]))
  }

  function DoAll(s: System, xs: seq<SysAction>): System
    requires CanRun(s, xs)
    decreases |xs|
  {
    if xs == [] then s else DoAll(Do(s, xs[0]), xs[1..])
  }

  // ---------- The table object ----------

  /**
    The table the system holds. Handles stand for the shared entries: the `h`-th latch made.
    Each method carries out the table's part of one step of the system.
   */
  class NaiveMappingTable {
    var entries: map<U64, nat>

    ghost predicate TableOf(s: System)
      reads this
    {
      entries == s.table
    }

    constructor (ghost threads: nat)
      ensures TableOf(Start(threads))
    {
      entries := map[];
    }

    /** Finds an entry exactly when the system's lookup step is possible, and the one it hands out. */
    method Get(id: U64, ghost t: nat, ghost s: System) returns (r: Option<nat>)
      requires TableOf(s) && t < s.threads
      ensures r.Some? <==> Can(s, GetEntry(t, id))
      ensures r.Some? ==> TableOf(Do(s, GetEntry(t, id))) && (t, id, r.value) in Do(s, GetEntry(t, id)).held
    {
      r := if id in entries then Some(entries[id]) else None;
    }

    /** Leaves the table of the system's insert step, in which any earlier entry is replaced. */
    method Insert(id: U64, h: nat, ghost s: System)
      requires TableOf(s) && Can(s, InsertEntry(id, h))
      modifies this
      ensures TableOf(Do(s, InsertEntry(id, h)))
    {
      entries := entries[id := h];
    }
  }

  // ---------- Which schedules are safe ----------

  /** All inserts of a page id carry one handle; inserting that again is allowed. */
  ghost predicate OneHandlePerId(xs: seq<SysAction>) {
    forall id, h, g :: InsertEntry(id, h) in xs && InsertEntry(id, g) in xs ==> h == g
  }

  // ---------- The invariant ----------

  ghost predicate LatchesOk(s: System) {
    forall h :: 0 <= h < |s.latches| ==> L.Inv(s.latches[h])
  }

  /** A page id leads to one entry only, wherever it is remembered. */
  ghost predicate OneEntryPerId(s: System) {
    && (forall t, id, h :: (t, id, h) in s.held ==> id in s.table && s.table[id] == h)
    && (forall t, h :: (t, h) in s.calls ==> s.calls[(t, h)] in s.table && s.table[s.calls[(t, h)]] == h)
  }

  ghost predicate LoadingOk(s: System, r: Loading) {
    r.id in s.table && s.table[r.id] == r.h < |s.latches| && |s.latches[r.h].history| >= 2
  }

  ghost predicate LoadedOk(s: System, r: Loaded) {
    && r.id in s.table && s.table[r.id] == r.h < |s.latches|
    && |s.latches[r.h].history| == 3 && |s.latches[r.h].data| == 2
    && r.result == L.Clean(s.latches[r.h].data[1])
  }

  ghost predicate LogsOk(s: System) {
    && (forall i :: 0 <= i < |s.loadings| ==> LoadingOk(s, s.loadings[i]))
    && (forall i, j :: 0 <= i < j < |s.loadings| ==> s.loadings[i].h != s.loadings[j].h)
    && (forall i :: 0 <= i < |s.loaded| ==> LoadedOk(s, s.loaded[i]))
  }

  ghost predicate Good(s: System) { LatchesOk(s) && OneEntryPerId(s) && LogsOk(s) }

  // ---------- Every step keeps it ----------

  /** What latch steps leave of an entry: its history grows, and what it published stays. */
  ghost predicate Later(e: Entry, r: Entry) {
    && |e.history| <= |r.history|
    && (|e.history| == 3 ==> |r.history| == 3 && r.data == e.data)
  }

  lemma LatchStepIsLater(e: Entry, a: L.Action<PageTableResult>)
    requires L.Inv(e) && L.Enabled(e, a)
    ensures L.Inv(L.Apply(e, a)) && Later(e, L.Apply(e, a))
  {
    L.StepKeepsInv(e, a);
    S.StepGrowsHistory(e, a);
  }

  lemma LogsKept(s: System, r: System)
    requires LogsOk(s) && r.loadings == s.loadings && r.loaded == s.loaded
    requires forall id :: id in s.table ==> id in r.table && r.table[id] == s.table[id]
    requires |s.latches| <= |r.latches| && forall h :: 0 <= h < |s.latches| ==> Later(s.latches[h], r.latches[h])
    ensures LogsOk(r)
  {
  }

  lemma LatchMoves(s: System, h: nat, a: L.Action<PageTableResult>)
    requires Good(s) && h < |s.latches| && L.Enabled(s.latches[h], a)
    ensures Good(s.(latches := s.latches[h := L.Apply(s.latches[h], a)]))
  {
    var r := s.(latches := s.latches[h := L.Apply(s.latches[h], a)]);
    LatchStepIsLater(s.latches[h], a);
    LogsKept(s, r);
  }

  /** The log grows by a load that begins: its entry has not been loaded before. */
  lemma WinIsLogged(s: System, h: nat, a: L.Action<PageTableResult>)
    requires Good(s) && h < |s.latches| && L.Enabled(s.latches[h], a) && a.CasWin? && (a.t, h) in s.calls
    ensures Good(Do(s, Latched(h, a)))
  {
    LatchMoves(s, h, a);
    L.CasWinsOnce(s.latches[h], a.t, a.m);
    S.StepGrowsHistory(s.latches[h], a);
    var m := s.(latches := s.latches[h := L.Apply(s.latches[h], a)]);
    var r := Do(s, Latched(h, a));
    assert r == m.(loadings := s.loadings + [Loading(s.calls[(a.t, h)], h)]);
    forall i | 0 <= i < |r.loadings|
      ensures LoadingOk(r, r.loadings[i]) && (i < |s.loadings| ==> r.loadings[i].h != h)
    {
      if i < |s.loadings| {
        assert LoadingOk(s, s.loadings[i]) && LoadingOk(m, m.loadings[i]);
      }
    }
    forall i | 0 <= i < |r.loaded|
      ensures LoadedOk(r, r.loaded[i])
    {
      assert LoadedOk(m, m.loaded[i]);
    }
  }

  lemma ReturnIsLogged(s: System, h: nat, a: L.Action<PageTableResult>)
    requires Good(s) && h < |s.latches| && L.Enabled(s.latches[h], a) && Returning(a) && (a.t, h) in s.calls
    ensures Good(Do(s, Latched(h, a)))
  {
    LatchMoves(s, h, a);
    var after := L.Apply(s.latches[h], a);
    var m := s.(latches := s.latches[h := after]);
    var r := Do(s, Latched(h, a));
    assert L.Inv(m.latches[h]);
    assert L.ReturnOk(after, after.results[|after.results| - 1]);
    var rec := Loaded(s.calls[(a.t, h)], h, after.results[|after.results| - 1].result);
    assert r == m.(loaded := s.loaded + [rec]);
    forall i | 0 <= i < |r.loaded|
      ensures LoadedOk(r, r.loaded[i])
    {
      if i < |s.loaded| {
        assert LoadedOk(m, m.loaded[i]);
      }
    }
    forall i | 0 <= i < |r.loadings|
      ensures LoadingOk(r, r.loadings[i])
    {
      assert LoadingOk(m, m.loadings[i]);
    }
  }

  lemma StepKeepsGood(s: System, x: SysAction)
    requires Good(s) && Can(s, x) && (x.InsertEntry? && x.id in s.table ==> s.table[x.id] == x.h)
    ensures Good(Do(s, x))
  {
    match x
    case NewEntry(id) =>
      L.InitInv(Disk(ToOffset(id)), s.threads);
      LogsKept(s, Do(s, x));
    case InsertEntry(_, _) =>
      LogsKept(s, Do(s, x));
    case GetEntry(_, _) =>
      LogsKept(s, Do(s, x));
    case Load(t, id, h) =>
      LatchMoves(s, h, L.StartLoad(t));
      LogsKept(s, Do(s, x));
    case Latched(h, a) =>
      if (a.t, h) in s.calls && a.CasWin? {
        WinIsLogged(s, h, a);
      } else if (a.t, h) in s.calls && Returning(a) {
        ReturnIsLogged(s, h, a);
      } else {
        LatchMoves(s, h, a);
      }
  }

  lemma {:induction false} RunKeepsGood(s: System, xs: seq<SysAction>)
    requires Good(s) && CanRun(s, xs) && OneHandlePerId(xs)
    requires forall id, h :: InsertEntry(id, h) in xs && id in s.table ==> s.table[id] == h
    ensures Good(DoAll(s, xs))
    decreases |xs|
  {
    if xs != [] {
      assert xs[0] in xs;
      StepKeepsGood(s, xs[0]);
      assert forall x :: x in xs[1..] ==> x in xs;
      RunKeepsGood(Do(s, xs[0]), xs[1..]);
    }
  }

  /** No page id is loaded twice. */
  ghost predicate OneLoading(s: System) {
    forall i, j :: 0 <= i < j < |s.loadings| ==> s.loadings[i].id != s.loadings[j].id
  }

  /**
    If all inserts of a page id carry one handle, then over every run of the table and its
    latches `work` is called at most once per page id, and all loads of a page id that return Ok
    return the same clean value.
   */
  lemma OneLoadPerPage(threads: nat, xs: seq<SysAction>)
    requires CanRun(Start(threads), xs) && OneHandlePerId(xs)
    ensures var s := DoAll(Start(threads), xs);
      && OneLoading(s)
      && (forall i, j :: 0 <= i < |s.loaded| && 0 <= j < |s.loaded| && s.loaded[i].id == s.loaded[j].id ==>
        s.loaded[i].result == s.loaded[j].result && s.loaded[i].result.Clean?)
  {
    RunKeepsGood(Start(threads), xs);
    var s := DoAll(Start(threads), xs);
    forall i, j | 0 <= i < j < |s.loadings|
      ensures s.loadings[i].id != s.loadings[j].id
    {
      assert LoadingOk(s, s.loadings[i]) && LoadingOk(s, s.loadings[j]);
    }
    forall i, j | 0 <= i < |s.loaded| && 0 <= j < |s.loaded| && s.loaded[i].id == s.loaded[j].id
      ensures s.loaded[i].result == s.loaded[j].result && s.loaded[i].result.Clean?
    {
      assert LoadedOk(s, s.loaded[i]) && LoadedOk(s, s.loaded[j]);
    }
  }

  // ---------- What work is given ----------

  ghost predicate EntryFor(e: Entry, id: U64) {
    L.Inv(e) && e.data[0] == Disk(ToOffset(id))
  }

  /** The page ids that a schedule makes entries for, in order. */
  function NewIds(xs: seq<SysAction>): seq<U64> {
    if xs == [] then [] else NewIdOf(xs[0]) + NewIds(xs[1..])
  }

  function NewIdOf(x: SysAction): seq<U64> { if x.NewEntry? then [x.id] else [] }

  ghost predicate EntriesMade(s: System, ids: seq<U64>) {
    |ids| == |s.latches| && forall h :: 0 <= h < |s.latches| ==> EntryFor(s.latches[h], ids[h])
  }

  lemma LatchStepKeepsEntry(e: Entry, id: U64, a: L.Action<PageTableResult>)
    requires EntryFor(e, id) && L.Enabled(e, a)
    ensures EntryFor(L.Apply(e, a), id)
  {
    L.StepKeepsInv(e, a);
    S.StepLogsWork(e, a);
  }

  lemma StepMakesEntries(s: System, x: SysAction, ids: seq<U64>)
    requires EntriesMade(s, ids) && Can(s, x)
    ensures EntriesMade(Do(s, x), ids + NewIdOf(x))
  {
    match x
    case NewEntry(id) => L.InitInv(Disk(ToOffset(id)), s.threads);
    case Load(t, _, h) => LatchStepKeepsEntry(s.latches[h], ids[h], L.StartLoad(t));
    case Latched(h, a) => LatchStepKeepsEntry(s.latches[h], ids[h], a);
    case _ =>
  }

  lemma {:induction false} RunMakesEntries(s: System, xs: seq<SysAction>, ids: seq<U64>)
    requires EntriesMade(s, ids) && CanRun(s, xs)
    ensures EntriesMade(DoAll(s, xs), ids + NewIds(xs))
    decreases |xs|
  {
    hide Do, Can, EntriesMade, NewIdOf;
    if xs == [] {
      assert ids + NewIds(xs) == ids;
    } else {
      StepMakesEntries(s, xs[0], ids);
      RunMakesEntries(Do(s, xs[0]), xs[1..], ids + NewIdOf(xs[0]));
      assert ids + NewIds(xs) == ids + NewIdOf(xs[0]) + NewIds(xs[1..]);
    }
  }

  /** Every finished `work` call on an entry was given this place on disk. */
  ghost predicate WorkGiven(e: Entry, offset: U64) {
    forall i :: 0 <= i < |e.works| ==> e.works[i].input == L.Clean(Disk(offset))
  }

  lemma EntryGivesWork(e: Entry, id: U64)
    requires EntryFor(e, id)
    ensures WorkGiven(e, ToOffset(id))
  {
  }

  /**
    In any run there is one entry per entry made, and every `work` on the `h`-th of them is given
    the disk offset of the page id it was made for: 4096 times the id, for ids below 2^52.
   */
  lemma WorkGetsDiskOffset(threads: nat, xs: seq<SysAction>, h: nat)
    requires CanRun(Start(threads), xs)
    ensures var s, ids := DoAll(Start(threads), xs), NewIds(xs);
      && |s.latches| == |ids|
      && (h < |ids| ==> WorkGiven(s.latches[h], ToOffset(ids[h])))
      && (h < |ids| && ids[h] < TWO_52 ==> WorkGiven(s.latches[h], ids[h] * 4096))
  {
    hide Do, Can, EntryFor, WorkGiven, L.Inv;
    RunMakesEntries(Start(threads), xs, []);
    var s, ids := DoAll(Start(threads), xs), NewIds(xs);
    assert [] + ids == ids;
    if h < |ids| {
      EntryGivesWork(s.latches[h], ids[h]);
      OffsetValue(ids[h]);
    }
  }

  // ---------- The logs are complete ----------

  /** Every load in progress was made under a known id. */
  ghost predicate CallsKnown(s: System) {
    forall h, t :: 0 <= h < |s.latches| && 0 <= t < |s.latches[h].threads| ==>
      L.InLoad(s.latches[h].threads[t].pc) ==> (t, h) in s.calls
  }

  lemma LoadsStartWithStartLoad(e: Entry, a: L.Action<PageTableResult>, t: nat)
    requires L.Enabled(e, a) && t < |e.threads|
    ensures |L.Apply(e, a).threads| == |e.threads|
    ensures L.InLoad(L.Apply(e, a).threads[t].pc) ==> L.InLoad(e.threads[t].pc) || a == L.StartLoad(t)
  {
  }

  /** A latch step that is no start of a load makes no new caller. */
  lemma LatchKeepsCallsKnown(s: System, h: nat, a: L.Action<PageTableResult>, calls: map<(nat, nat), U64>)
    requires CallsKnown(s) && h < |s.latches| && L.Enabled(s.latches[h], a)
    requires (forall k :: k in s.calls ==> k in calls) && (a.StartLoad? ==> (a.t, h) in calls)
    ensures CallsKnown(s.(latches := s.latches[h := L.Apply(s.latches[h], a)], calls := calls))
  {
    var e := L.Apply(s.latches[h], a);
    forall t | 0 <= t < |e.threads| && L.InLoad(e.threads[t].pc)
      ensures (t, h) in calls
    {
      S.StepKeepsThreads(s.latches[h], a);
      LoadsStartWithStartLoad(s.latches[h], a, t);
    }
    hide L.Apply, L.Enabled, L.InLoad;
  }

  lemma StepKeepsCallsKnown(s: System, x: SysAction)
    requires CallsKnown(s) && Can(s, x)
    ensures CallsKnown(Do(s, x))
  {
    hide L.Apply, L.Enabled, L.InLoad;
    match x
    case NewEntry(id) =>
      var e := L.Init(Disk(ToOffset(id)), s.threads);
      assert forall t :: 0 <= t < |e.threads| ==> !L.InLoad(e.threads[t].pc) by {
        IdleIsNotInLoad(Disk(ToOffset(id)), s.threads);
      }
    case Load(t, id, h) =>
      LatchKeepsCallsKnown(s, h, L.StartLoad(t), s.calls[(t, h) := id]);
    case Latched(h, a) =>
      LatchKeepsCallsKnown(s, h, a, s.calls);
    case _ =>
  }

  lemma IdleIsNotInLoad(v: PageTableResult, n: nat)
    ensures forall t :: 0 <= t < |L.Init(v, n).threads| ==> !L.InLoad(L.Init(v, n).threads[t].pc)
  {
  }

  lemma {:induction false} RunKeepsCallsKnown(s: System, xs: seq<SysAction>)
    requires CallsKnown(s) && CanRun(s, xs)
    ensures CallsKnown(DoAll(s, xs))
    decreases |xs|
  {
    hide Do, Can;
    if xs != [] {
      StepKeepsCallsKnown(s, xs[0]);
      RunKeepsCallsKnown(Do(s, xs[0]), xs[1..]);
    }
  }

  /** What a latch step adds to the logs, under the id the caller looked up. */
  ghost predicate Logged(s: System, h: nat, a: L.Action<PageTableResult>)
    requires Can(s, Latched(h, a))
  {
    var r, results := Do(s, Latched(h, a)), L.Apply(s.latches[h], a).results;
    && (a.t, h) in s.calls
    && (a.CasWin? ==> r.loadings == s.loadings + [Loading(s.calls[(a.t, h)], h)])
    && (Returning(a) ==>
      && results != [] && results[|results| - 1].LoadOk?
      && r.loaded == s.loaded + [Loaded(s.calls[(a.t, h)], h, results[|results| - 1].result)])
  }

  lemma KnownCallIsLogged(s: System, h: nat, a: L.Action<PageTableResult>)
    requires CallsKnown(s) && Can(s, Latched(h, a)) && (a.CasWin? || Returning(a))
    ensures Logged(s, h, a)
  {
    assert L.InLoad(s.latches[h].threads[a.t].pc);
  }

  /**
    The logs miss nothing: in any run, whatever is inserted how often, the step that wins an
    exchange and the step that returns from a load are each logged, under the id looked up.
   */
  lemma LogsAreComplete(threads: nat, xs: seq<SysAction>, h: nat, a: L.Action<PageTableResult>)
    requires CanRun(Start(threads), xs) && Can(DoAll(Start(threads), xs), Latched(h, a))
    ensures a.CasWin? || Returning(a) ==> Logged(DoAll(Start(threads), xs), h, a)
  {
    hide Do, Can;
    RunKeepsCallsKnown(Start(threads), xs);
    if a.CasWin? || Returning(a) {
      KnownCallIsLogged(DoAll(Start(threads), xs), h, a);
    }
  }

  // ---------- Disk ranges ----------

  ghost predicate WasLoaded(s: System, h: nat) {
    exists i :: 0 <= i < |s.loadings| && s.loadings[i].h == h
  }

  /** An entry whose exchange was won has its record. */
  ghost predicate WinsRecorded(s: System) {
    && LatchesOk(s) && CallsKnown(s)
    && forall h :: 0 <= h < |s.latches| && |s.latches[h].history| > 1 ==> WasLoaded(s, h)
  }

  lemma LatchStepRecordsWins(s: System, h: nat, a: L.Action<PageTableResult>)
    requires WinsRecorded(s) && Can(s, Latched(h, a))
    ensures WinsRecorded(Do(s, Latched(h, a)))
  {
    var r := Do(s, Latched(h, a));
    assert r.latches == s.latches[h := L.Apply(s.latches[h], a)];
    StepKeepsCallsKnown(s, Latched(h, a));
    LoadingsGrow(s, Latched(h, a));
    if a.CasWin? {
      KnownCallIsLogged(s, h, a);
      assert r.loadings[|s.loadings|].h == h;
      assert WasLoaded(r, h);
    }
    hide Do, Can, L.Apply, L.Enabled, CallsKnown;
    LatchStepIsLater(s.latches[h], a);
    S.StepGrowsHistory(s.latches[h], a);
    WinsStayRecorded(s, r);
  }

  lemma StepKeepsWinsRecorded(s: System, x: SysAction)
    requires WinsRecorded(s) && Can(s, x)
    ensures WinsRecorded(Do(s, x))
  {
    if x.Latched? {
      LatchStepRecordsWins(s, x.h, x.a);
    } else {
      StepKeepsCallsKnown(s, x);
      LoadingsGrow(s, x);
      hide CallsKnown, L.Enabled;
      if x.NewEntry? {
        L.InitInv(Disk(ToOffset(x.id)), s.threads);
      } else if x.Load? {
        LatchStepIsLater(s.latches[x.h], L.StartLoad(x.t));
        S.StepGrowsHistory(s.latches[x.h], L.StartLoad(x.t));
      }
      hide L.Apply;
      WinsStayRecorded(s, Do(s, x));
    }
  }

  lemma LoadingsGrow(s: System, x: SysAction)
    requires Can(s, x)
    ensures s.loadings <= Do(s, x).loadings
  {
  }

  lemma WinsStayRecorded(s: System, r: System)
    requires WinsRecorded(s) && s.loadings <= r.loadings && |s.latches| <= |r.latches|
    requires forall h :: |s.latches| <= h < |r.latches| ==> |r.latches[h].history| == 1
    requires forall h :: 0 <= h < |s.latches| && |r.latches[h].history| > 1 ==>
      |s.latches[h].history| > 1 || WasLoaded(r, h)
    ensures forall h :: 0 <= h < |r.latches| && |r.latches[h].history| > 1 ==> WasLoaded(r, h)
  {
    forall h | 0 <= h < |r.latches| && |r.latches[h].history| > 1
      ensures WasLoaded(r, h)
    {
      if h < |s.latches| && |s.latches[h].history| > 1 {
        assert WasLoaded(s, h);
        var i :| 0 <= i < |s.loadings| && s.loadings[i].h == h;
        assert r.loadings[i].h == h;
      }
    }
  }

  lemma {:induction false} RunKeepsWinsRecorded(s: System, xs: seq<SysAction>)
    requires WinsRecorded(s) && CanRun(s, xs)
    ensures WinsRecorded(DoAll(s, xs))
    decreases |xs|
  {
    hide Do, Can;
    if xs != [] {
      StepKeepsWinsRecorded(s, xs[0]);
      RunKeepsWinsRecorded(Do(s, xs[0]), xs[1..]);
    }
  }

  lemma {:induction false} TableComesFromInserts(s: System, xs: seq<SysAction>, id: U64)
    requires CanRun(s, xs)
    ensures var r := DoAll(s, xs).table;
      id in r ==> InsertEntry(id, r[id]) in xs || (id in s.table && s.table[id] == r[id])
    decreases |xs|
  {
    if xs != [] {
      StepTable(s, xs[0], id);
      hide Do, Can;
      TableComesFromInserts(Do(s, xs[0]), xs[1..], id);
      assert xs[0] in xs;
      assert forall x :: x in xs[1..] ==> x in xs;
    }
  }

  lemma StepTable(s: System, x: SysAction, id: U64)
    requires Can(s, x)
    ensures var r := Do(s, x).table;
      id in r ==> x == InsertEntry(id, r[id]) || (id in s.table && s.table[id] == r[id])
  {
  }

  /** Entries are inserted under the id they were made for, and ids are below 2^52. */
  ghost predicate InsertedAsMade(xs: seq<SysAction>) {
    forall id: U64, h: nat :: InsertEntry(id, h) in xs ==> id < TWO_52 && h < |NewIds(xs)| && NewIds(xs)[h] == id
  }

  /**
    With one handle per id, entries inserted as made and ids below 2^52, no two entries on which
    `work` was called were given overlapping disk ranges: each 4096 bytes are read in once.
   */
  lemma DiskRangeLoadedOnce(threads: nat, xs: seq<SysAction>, h: nat, g: nat)
    requires CanRun(Start(threads), xs) && OneHandlePerId(xs) && InsertedAsMade(xs)
    ensures var s, ids := DoAll(Start(threads), xs), NewIds(xs);
      && |s.latches| == |ids|
      && (h < |ids| ==> |s.latches[h].works| <= 1 && WorkGiven(s.latches[h], ToOffset(ids[h])))
      && (h < |ids| && g < |ids| && h != g && s.latches[h].works != [] && s.latches[g].works != [] ==>
        RangesDisjoint(ids[h], ids[g]))
  {
    var s := DoAll(Start(threads), xs);
    WorkGetsDiskOffset(threads, xs, h);
    RunKeepsGood(Start(threads), xs);
    RunKeepsWinsRecorded(Start(threads), xs);
    hide Do, Can;
    if h < |s.latches| && s.latches[h].works != [] {
      assert L.Inv(s.latches[h]);
      var id := MadeForLoadedId(s, Start(threads), xs, h);
      if g < |s.latches| && h != g && s.latches[g].works != [] {
        assert L.Inv(s.latches[g]);
        var other := MadeForLoadedId(s, Start(threads), xs, g);
        DiskRangesDisjointIff(id, other);
      }
    }
  }

  lemma MadeForLoadedId(s: System, start: System, xs: seq<SysAction>, h: nat) returns (id: U64)
    requires CanRun(start, xs) && s == DoAll(start, xs) && start.table == map[]
    requires Good(s) && WinsRecorded(s) && InsertedAsMade(xs)
    requires h < |s.latches| && |s.latches[h].history| > 1
    ensures id in s.table && s.table[id] == h && h < |NewIds(xs)| && NewIds(xs)[h] == id && id < TWO_52
  {
    assert WasLoaded(s, h);
    var i :| 0 <= i < |s.loadings| && s.loadings[i].h == h;
    assert LoadingOk(s, s.loadings[i]);
    id := s.loadings[i].id;
    TableComesFromInserts(start, xs, id);
  }
}
