/**
  The page-table latch of src/buffer/page_table_latch.rs under release/acquire memory, for any
  number of threads and any interleaving.

  `history` is the modification order of the atomic `state`; a message carries the view of the
  data cell that its writer released. A thread remembers the newest message it has read or
  written (`ts`) and the newest data write it knows of (`dv`). Loads may return any message not
  older than `ts`. Stores and successful exchanges may go anywhere in the modification order
  after `ts`, except between an exchange and the message it read.

  The data cell is not atomic. A write and a read have a beginning and an end, and a read that
  meets a write, or that does not know of the last one, is `Racy`.
 */
module Latch {
  import opened Wrappers

  const ON_DISK := 0
  const LOADING := 1
  const IN_MEMORY := 2

  /** One write to `state`; `rmw` marks the write of a successful compare-exchange. */
  datatype Message = Message(value: nat, view: nat, rmw: bool)

  datatype Seen<+T> = Clean(value: T) | Racy

  /** Where a thread is. `start` is what a data read in progress found when it began. */
  datatype Pc<+T> =
    | Idle
    | AtState
    | AtFast
    | FastReading(start: Option<nat>)
    | AtCas
    | AtClone
    | Working(input: Seen<T>)
    | AtWrite(loaded: T)
    | Writing(loaded: T)
    | AtStore(loaded: T)
    | AtBackoff
    | AtPeek
    | AtPeekRead(state: nat)
    | PeekReading(state: nat, start: Option<nat>)

  /** `tries` counts the compare-exchanges of the current call; `spin` wraps at 256. */
  datatype Thread<+T> = Thread(pc: Pc<T>, ts: nat, dv: nat, spin: nat, tries: nat)

  datatype Return<+T> =
    | LoadOk(t: nat, result: Seen<T>)
    | WorkFailed(t: nat)
    | InvalidState(t: nat)
    | Peeked(t: nat, state: nat, result: Seen<T>)

  /** A finished call of `work`: what it was given, and its result or none if it failed. */
  datatype Work<+T> = Work(input: Seen<T>, output: Option<T>)

  /** `data` lists the completed data writes, initial value first. */
  datatype State<+T> = State(
    history: seq<Message>,
    data: seq<T>,
    writer: Option<nat>,
    threads: seq<Thread<T>>,
    works: seq<Work<T>>,
    results: seq<Return<T>>)

  datatype Action<+T> =
    | StartLoad(t: nat)
    | ReadState(t: nat, m: nat)
    | BeginFast(t: nat)
    | EndFast(t: nat)
    | CasWin(t: nat, m: nat)
    | CasLose(t: nat, m: nat)
    | CloneInput(t: nat)
    | WorkOk(t: nat, v: T)
    | WorkErr(t: nat)
    | BeginWrite(t: nat)
    | EndWrite(t: nat)
    | Publish(t: nat, at: nat)
    | Backoff(t: nat)
    | StartPeek(t: nat)
    | PeekState(t: nat, m: nat)
    | BeginPeek(t: nat)
    | EndPeek(t: nat)
    | Gain(t: nat, ts: nat, dv: nat)

  /** `PageTableLatch::new(v)`, shared with `n` threads. */
  function Init<T>(v: T, n: nat): State<T> {
    State([Message(ON_DISK, 0, false)], [v], None, seq(n, _ => Thread(Idle, 0, 0, 0, 0)), [], [])
  }

  function Max(a: nat, b: nat): nat { if a < b then b else a }

  /** Whether nothing stands between a thread and the last completed data write. */
  predicate KnowsData<T>(s: State<T>, th: Thread<T>) {
    s.writer == None && th.dv + 1 == |s.data|
  }

  function ReadStart<T>(s: State<T>, th: Thread<T>): Option<nat> {
    if KnowsData(s, th) then Some(|s.data|) else None
  }

  /** A read is clean if it began clean and no write began or ended since. */
  function ReadEnd<T>(s: State<T>, start: Option<nat>): Seen<T>
    requires s.data != []
  {
    if start == Some(|s.data|) && s.writer == None then Clean(s.data[|s.data| - 1]) else Racy
  }

  /** The thread after an acquire of message `m`. */
  function Acquire<T>(s: State<T>, th: Thread<T>, m: nat): Thread<T>
    requires m < |s.history|
  {
    th.(ts := m, dv := Max(th.dv, s.history[m].view))
  }

  predicate MayRead<T>(s: State<T>, th: Thread<T>, m: nat) { th.ts <= m < |s.history| }

  /** A place in the modification order where a write may go: no exchange may lose its neighbour. */
  predicate MayInsert<T>(s: State<T>, at: nat) {
    at <= |s.history| && (at < |s.history| ==> !s.history[at].rmw)
  }

  predicate Enabled<T>(s: State<T>, a: Action<T>) {
    && a.t < |s.threads|
    && s.data != []
    && var th := s.threads[a.t];
       match a
       case StartLoad(_) => th.pc.Idle?
       case ReadState(_, m) => th.pc.AtState? && MayRead(s, th, m)
       case BeginFast(_) => th.pc.AtFast?
       case EndFast(_) => th.pc.FastReading?
       case CasWin(_, m) => th.pc.AtCas? && MayRead(s, th, m) && s.history[m].value == ON_DISK && MayInsert(s, m + 1)
       case CasLose(_, m) => th.pc.AtCas? && MayRead(s, th, m) && s.history[m].value != ON_DISK
       case CloneInput(_) => th.pc.AtClone?
       case WorkOk(_, _) => th.pc.Working?
       case WorkErr(_) => th.pc.Working?
       case BeginWrite(_) => th.pc.AtWrite?
       case EndWrite(_) => th.pc.Writing?
       case Publish(_, at) => th.pc.AtStore? && th.ts < at && MayInsert(s, at)
       case Backoff(_) => th.pc.AtBackoff?
       case StartPeek(_) => th.pc.Idle?
       case PeekState(_, m) => th.pc.AtPeek? && MayRead(s, th, m)
       case BeginPeek(_) => th.pc.AtPeekRead?
       case EndPeek(_) => th.pc.PeekReading?
       // synchronisation outside the latch: some view that acquires message `ts` reaches the thread
       case Gain(_, ts, dv) => ts < |s.history| && dv < |s.data| && s.history[ts].view <= dv
  }

  function Put<T>(s: State<T>, t: nat, th: Thread<T>): State<T>
    requires t < |s.threads|
  {
    s.(threads := s.threads[t := th])
  }

  function Leave<T>(s: State<T>, t: nat, th: Thread<T>, r: Return<T>): State<T>
    requires t < |s.threads|
  {
    s.(threads := s.threads[t := th.(pc := Idle)], results := s.results + [r])
  }

  /** Inserts message `m` at place `at`, where thread `t` wrote it; later timestamps move along. */
  function InsertMessage<T>(s: State<T>, at: nat, m: Message, t: nat, th: Thread<T>): State<T>
    requires t < |s.threads| && at <= |s.history|
  {
    var moved := seq(|s.threads|, u requires 0 <= u < |s.threads| =>
      var x := s.threads[u]; x.(ts := if x.ts >= at then x.ts + 1 else x.ts));
    s.(history := s.history[..at] + [m] + s.history[at..], threads := moved[t := th.(ts := at)])
  }

  /** What the acquire load at the top of the loop leads to. */
  function Dispatch<T>(s: State<T>, t: nat, th: Thread<T>, value: nat): State<T>
    requires t < |s.threads|
  {
    if value == IN_MEMORY then Put(s, t, th.(pc := AtFast))
    else if value == ON_DISK then Put(s, t, th.(pc := AtCas))
    else if value == LOADING then Put(s, t, th.(pc := AtBackoff))
    else Leave(s, t, th, InvalidState(t))
  }

  function Apply<T>(s: State<T>, a: Action<T>): State<T>
    requires Enabled(s, a)
  {
    var t := a.t;
    var th := s.threads[t];
    match a
    case StartLoad(_) => Put(s, t, th.(pc := AtState, spin := 0, tries := 0))
    case ReadState(_, m) => Dispatch(s, t, Acquire(s, th, m), s.history[m].value)
    case BeginFast(_) => Put(s, t, th.(pc := FastReading(ReadStart(s, th))))
    case EndFast(_) => Leave(s, t, th, LoadOk(t, ReadEnd(s, th.pc.start)))
    case CasWin(_, m) =>
      var w := Acquire(s, th, m);
      InsertMessage(s, m + 1, Message(LOADING, w.dv, true), t, w.(pc := AtClone, tries := th.tries + 1))
    case CasLose(_, m) => Put(s, t, Acquire(s, th, m).(pc := AtState, tries := th.tries + 1))
    case CloneInput(_) => Put(s, t, th.(pc := Working(ReadEnd(s, ReadStart(s, th)))))
    case WorkOk(_, v) => Put(s.(works := s.works + [Work(th.pc.input, Some(v))]), t, th.(pc := AtWrite(v)))
    case WorkErr(_) => Leave(s.(works := s.works + [Work(th.pc.input, None)]), t, th, WorkFailed(t))
    case BeginWrite(_) => Put(s.(writer := Some(t)), t, th.(pc := Writing(th.pc.loaded)))
    case EndWrite(_) =>
      var written := s.(writer := None, data := s.data + [th.pc.loaded]);
      Put(written, t, th.(pc := AtStore(th.pc.loaded), dv := |s.data|))
    case Publish(_, at) =>
      var stored := InsertMessage(s, at, Message(IN_MEMORY, th.dv, false), t, th);
      Leave(stored, t, stored.threads[t], LoadOk(t, Clean(th.pc.loaded)))
    case Backoff(_) => Put(s, t, th.(pc := AtState, spin := (th.spin + 1) % 256))
    case StartPeek(_) => Put(s, t, th.(pc := AtPeek))
    case PeekState(_, m) => Put(s, t, Acquire(s, th, m).(pc := AtPeekRead(s.history[m].value)))
    case BeginPeek(_) => Put(s, t, th.(pc := PeekReading(th.pc.state, ReadStart(s, th))))
    case EndPeek(_) => Leave(s, t, th, Peeked(t, th.pc.state, ReadEnd(s, th.pc.start)))
    case Gain(_, ts, dv) => Put(s, t, th.(ts := Max(th.ts, ts), dv := Max(th.dv, dv)))
  }

  // ---------- Runs ----------

  ghost predicate ValidRun<T>(s: State<T>, acts: seq<Action<T>>)
    decreases |acts|
  {
    acts == [] || (Enabled(s, acts[0]) && ValidRun(Apply(s, acts[0]), acts[1..]))
  }

  function Exec<T>(s: State<T>, acts: seq<Action<T>>): State<T>
    requires ValidRun(s, acts)
    decreases |acts|
  {
    if acts == [] then s else Exec(Apply(s, acts[0]), acts[1..])
  }

  // ---------- The invariant ----------

  predicate Owns<T>(pc: Pc<T>) { pc.AtClone? || pc.Working? || pc.AtWrite? || pc.Writing? || pc.AtStore? }

  /** Inside a call of `load`. */
  predicate InLoad<T>(pc: Pc<T>) {
    pc.AtState? || pc.AtFast? || pc.FastReading? || pc.AtCas? || pc.AtBackoff? || Owns(pc)
  }

  /** The only histories: on disk; then loading, by an exchange; then in memory, with the data. */
  ghost predicate HistoryOk(h: seq<Message>) {
    && 1 <= |h| <= 3
    && h[0] == Message(ON_DISK, 0, false)
    && (|h| >= 2 ==> h[1] == Message(LOADING, 0, true))
    && (|h| == 3 ==> h[2] == Message(IN_MEMORY, 1, false))
  }

  /** What the thread that won the exchange has done so far. */
  ghost predicate OwnerOk<T>(s: State<T>, th: Thread<T>) {
    && th.ts == 1 && th.dv + 1 == |s.data|
    && match th.pc
       case AtClone => |s.data| == 1 && s.works == []
       case Working(input) => |s.data| == 1 && s.works == [] && input == Clean(s.data[0])
       case AtWrite(v) => |s.data| == 1 && s.works == [Work(Clean(s.data[0]), Some(v))]
       case Writing(v) => |s.data| == 1 && s.works == [Work(Clean(s.data[0]), Some(v))]
       case AtStore(v) => |s.data| == 2 && s.data[1] == v && s.works == [Work(Clean(s.data[0]), Some(v))]
       case _ => false
  }

  ghost predicate ThreadOk<T>(s: State<T>, th: Thread<T>) {
    && th.ts < |s.history| && th.dv < |s.data| && s.history[th.ts].view <= th.dv
    && th.spin < 256
    && th.tries <= 1
    && (th.tries == 1 ==> th.ts >= 1)
    && match th.pc
       case AtFast => th.ts == 2
       case FastReading(start) => th.ts == 2 && start == Some(2)
       case AtCas => th.tries == 0
       case AtBackoff => th.ts >= 1
       case AtPeekRead(st) => st <= 2 && (st == IN_MEMORY ==> th.ts == 2)
       case PeekReading(st, start) => st <= 2 && (st == IN_MEMORY ==> th.ts == 2 && start == Some(2))
       case _ => true
  }

  ghost predicate ReturnOk<T>(s: State<T>, r: Return<T>) {
    match r
    case LoadOk(_, seen) => |s.history| == 3 && |s.data| == 2 && seen == Clean(s.data[1])
    case WorkFailed(_) => s.data != [] && s.works == [Work(Clean(s.data[0]), None)]
    case InvalidState(_) => false
    case Peeked(_, st, seen) => st <= 2 && (st == IN_MEMORY ==> |s.data| == 2 && seen == Clean(s.data[1]))
  }

  ghost predicate OwnerIs<T>(s: State<T>, o: nat) {
    && o < |s.threads| && OwnerOk(s, s.threads[o])
    && (forall u :: 0 <= u < |s.threads| && u != o ==> !Owns(s.threads[u].pc))
    && (s.writer == if s.threads[o].pc.Writing? then Some(o) else None)
  }

  ghost predicate NoOwner<T>(s: State<T>) {
    s.writer == None && forall u :: 0 <= u < |s.threads| ==> !Owns(s.threads[u].pc)
  }

  /** Loading failed: nobody owns the latch and nobody ever will. */
  ghost predicate Failed<T>(s: State<T>) {
    |s.history| == 2 && NoOwner(s) && |s.data| == 1 && s.works == [Work(Clean(s.data[0]), None)]
  }

  ghost predicate PhaseOk<T>(s: State<T>) {
    if |s.history| == 1 then NoOwner(s) && |s.data| == 1 && s.works == []
    else if |s.history| == 2 then Failed(s) || exists o :: OwnerIs(s, o)
    else NoOwner(s) && |s.data| == 2 && s.works == [Work(Clean(s.data[0]), Some(s.data[1]))]
  }

  ghost predicate Inv<T>(s: State<T>) {
    && HistoryOk(s.history)
    && s.data != []
    && PhaseOk(s)
    && (forall u :: 0 <= u < |s.threads| ==> ThreadOk(s, s.threads[u]))
    && (forall i :: 0 <= i < |s.results| ==> ReturnOk(s, s.results[i]))
  }

  // ---------- Every step keeps it ----------

  /** A step that moves one thread and touches nothing shared. */
  lemma PutKeepsInv<T>(s: State<T>, t: nat, th: Thread<T>)
    requires Inv(s) && t < |s.threads| && ThreadOk(s, th)
    requires Owns(th.pc) <==> Owns(s.threads[t].pc)
    requires Owns(th.pc) ==> OwnerOk(s, th) && (th.pc.Writing? <==> s.threads[t].pc.Writing?)
    ensures Inv(Put(s, t, th))
  {
    var r := Put(s, t, th);
    forall u | 0 <= u < |r.threads|
      ensures ThreadOk(r, r.threads[u])
    {
      assert ThreadOk(s, s.threads[u]);
    }
    forall i | 0 <= i < |r.results|
      ensures ReturnOk(r, r.results[i])
    {
      assert ReturnOk(s, s.results[i]);
    }
    if |s.history| == 2 && !Failed(s) {
      var o :| OwnerIs(s, o);
      assert OwnerIs(r, o);
    }
  }

  /** A thread that is not the owner returns. */
  lemma LeaveKeepsInv<T>(s: State<T>, t: nat, th: Thread<T>, ret: Return<T>)
    requires Inv(s) && t < |s.threads| && ThreadOk(s, th.(pc := Idle)) && ReturnOk(s, ret)
    requires !Owns(s.threads[t].pc)
    ensures Inv(Leave(s, t, th, ret))
  {
    PutKeepsInv(s, t, th.(pc := Idle));
    var p, r := Put(s, t, th.(pc := Idle)), Leave(s, t, th, ret);
    SameButResults(p, r);
    forall i | 0 <= i < |r.results|
      ensures ReturnOk(r, r.results[i])
    {
      if i < |s.results| {
        assert ReturnOk(p, p.results[i]);
      }
    }
  }

  lemma SameButResults<T>(p: State<T>, r: State<T>)
    requires Inv(p) && r == p.(results := r.results)
    ensures PhaseOk(r) && forall u :: 0 <= u < |r.threads| ==> ThreadOk(r, r.threads[u])
  {
    forall u | 0 <= u < |r.threads|
      ensures ThreadOk(r, r.threads[u])
    {
      assert ThreadOk(p, p.threads[u]);
    }
    if |p.history| == 2 && !Failed(p) {
      var o :| OwnerIs(p, o);
      assert OwnerIs(r, o);
    }
  }

  /** A successful exchange can only have been the first message of all. */
  lemma CasWinsOnce<T>(s: State<T>, t: nat, m: nat)
    requires Inv(s) && Enabled(s, CasWin(t, m))
    ensures m == 0 && |s.history| == 1
  {
  }

  lemma CasWinKeepsInv<T>(s: State<T>, t: nat, m: nat)
    requires Inv(s) && Enabled(s, CasWin(t, m))
    ensures Inv(Apply(s, CasWin(t, m)))
  {
    CasWinsOnce(s, t, m);
    var r := Apply(s, CasWin(t, m));
    assert r.history == s.history + [Message(LOADING, 0, true)];
    assert ThreadOk(s, s.threads[t]);
    forall u | 0 <= u < |r.threads|
      ensures ThreadOk(r, r.threads[u])
    {
      assert ThreadOk(s, s.threads[u]);
      assert u != t ==> r.threads[u] == s.threads[u];
    }
    forall i | 0 <= i < |r.results|
      ensures ReturnOk(r, r.results[i])
    {
      assert ReturnOk(s, s.results[i]);
    }
    assert OwnerIs(r, t);
  }

  /** The owner is who holds the program counter of an owner. */
  lemma OwnerIsThread<T>(s: State<T>, t: nat)
    requires Inv(s) && t < |s.threads| && Owns(s.threads[t].pc)
    ensures |s.history| == 2 && OwnerIs(s, t)
  {
  }

  /** The owner moves on: what it changes besides itself is the data, the work log or the writer. */
  lemma OwnerStepKeepsInv<T>(s: State<T>, t: nat, r: State<T>)
    requires Inv(s) && t < |s.threads| && Owns(s.threads[t].pc)
    requires r.history == s.history && r.results == s.results && |r.threads| == |s.threads|
    requires forall u :: 0 <= u < |s.threads| && u != t ==> r.threads[u] == s.threads[u]
    requires |r.data| >= |s.data| && r.data[..|s.data|] == s.data
    requires ThreadOk(r, r.threads[t]) && OwnerIs(r, t)
    ensures Inv(r)
  {
  }

  lemma OwnerActionKeepsInv<T>(s: State<T>, a: Action<T>)
    requires Inv(s) && Enabled(s, a) && (a.CloneInput? || a.WorkOk? || a.BeginWrite? || a.EndWrite?)
    ensures Inv(Apply(s, a))
  {
    OwnerIsThread(s, a.t);
    assert ThreadOk(s, s.threads[a.t]);
    OwnerStepKeepsInv(s, a.t, Apply(s, a));
  }

  lemma WorkErrKeepsInv<T>(s: State<T>, t: nat)
    requires Inv(s) && Enabled(s, WorkErr(t))
    ensures Inv(Apply(s, WorkErr(t))) && Failed(Apply(s, WorkErr(t)))
  {
  }

  lemma PublishKeepsInv<T>(s: State<T>, t: nat, at: nat)
    requires Inv(s) && Enabled(s, Publish(t, at))
    ensures Inv(Apply(s, Publish(t, at))) && |Apply(s, Publish(t, at)).history| == 3
  {
    OwnerIsThread(s, t);
    assert at == 2;
    var r := Apply(s, Publish(t, at));
    assert r.history == s.history + [Message(IN_MEMORY, 1, false)];
    forall u | 0 <= u < |r.threads|
      ensures ThreadOk(r, r.threads[u]) && !Owns(r.threads[u].pc)
    {
      assert ThreadOk(s, s.threads[u]);
      assert u != t ==> r.threads[u] == s.threads[u];
    }
    forall i | 0 <= i < |r.results|
      ensures ReturnOk(r, r.results[i])
    {
      if i < |s.results| {
        assert ReturnOk(s, s.results[i]);
      }
    }
  }

  lemma LocalActionKeepsInv<T>(s: State<T>, a: Action<T>)
    requires Inv(s) && Enabled(s, a)
    requires a.StartLoad? || a.BeginFast? || a.Backoff? || a.StartPeek? || a.BeginPeek?
    ensures Inv(Apply(s, a))
  {
    assert ThreadOk(s, s.threads[a.t]);
    PutKeepsInv(s, a.t, Apply(s, a).threads[a.t]);
  }

  lemma AcquireKeepsThreadOk<T>(s: State<T>, t: nat, m: nat)
    requires Inv(s) && t < |s.threads| && MayRead(s, s.threads[t], m) && !Owns(s.threads[t].pc)
    ensures var th := Acquire(s, s.threads[t], m);
      && th.ts == m && s.history[m].view <= th.dv < |s.data| && (s.threads[t].tries == 1 ==> m >= 1)
      && s.history[m].value == m && m <= 2 && th.spin < 256 && th.tries <= 1
  {
  }

  lemma ReadStateKeepsInv<T>(s: State<T>, t: nat, m: nat)
    requires Inv(s) && Enabled(s, ReadState(t, m))
    ensures Inv(Apply(s, ReadState(t, m)))
  {
    AcquireKeepsThreadOk(s, t, m);
    PutKeepsInv(s, t, Apply(s, ReadState(t, m)).threads[t]);
  }

  lemma CasLoseKeepsInv<T>(s: State<T>, t: nat, m: nat)
    requires Inv(s) && Enabled(s, CasLose(t, m))
    ensures Inv(Apply(s, CasLose(t, m)))
  {
    AcquireKeepsThreadOk(s, t, m);
    assert ThreadOk(s, s.threads[t]);
    PutKeepsInv(s, t, Apply(s, CasLose(t, m)).threads[t]);
  }

  lemma PeekStateKeepsInv<T>(s: State<T>, t: nat, m: nat)
    requires Inv(s) && Enabled(s, PeekState(t, m))
    ensures Inv(Apply(s, PeekState(t, m)))
  {
    AcquireKeepsThreadOk(s, t, m);
    PutKeepsInv(s, t, Apply(s, PeekState(t, m)).threads[t]);
  }

  lemma GainKeepsInv<T>(s: State<T>, a: Action<T>)
    requires Inv(s) && Enabled(s, a) && a.Gain?
    ensures Inv(Apply(s, a))
  {
    var th := s.threads[a.t];
    assert ThreadOk(s, th);
    if Owns(th.pc) {
      OwnerIsThread(s, a.t);
    }
    PutKeepsInv(s, a.t, th.(ts := Max(th.ts, a.ts), dv := Max(th.dv, a.dv)));
  }

  lemma EndFastKeepsInv<T>(s: State<T>, t: nat)
    requires Inv(s) && Enabled(s, EndFast(t))
    ensures Inv(Apply(s, EndFast(t)))
  {
  }

  lemma EndPeekKeepsInv<T>(s: State<T>, t: nat)
    requires Inv(s) && Enabled(s, EndPeek(t))
    ensures Inv(Apply(s, EndPeek(t)))
  {
    var th := s.threads[t];
    assert ThreadOk(s, th);
    LeaveKeepsInv(s, t, th, Peeked(t, th.pc.state, ReadEnd(s, th.pc.start)));
  }

  lemma StepKeepsInv<T>(s: State<T>, a: Action<T>)
    requires Inv(s) && Enabled(s, a)
    ensures Inv(Apply(s, a))
  {
    match a
    case CasWin(t, m) => CasWinKeepsInv(s, t, m);
    case CloneInput(_) => OwnerActionKeepsInv(s, a);
    case WorkOk(_, _) => OwnerActionKeepsInv(s, a);
    case BeginWrite(_) => OwnerActionKeepsInv(s, a);
    case EndWrite(_) => OwnerActionKeepsInv(s, a);
    case WorkErr(t) => WorkErrKeepsInv(s, t);
    case Publish(t, at) => PublishKeepsInv(s, t, at);
    case EndFast(t) => EndFastKeepsInv(s, t);
    case EndPeek(t) => EndPeekKeepsInv(s, t);
    case ReadState(t, m) => ReadStateKeepsInv(s, t, m);
    case CasLose(t, m) => CasLoseKeepsInv(s, t, m);
    case PeekState(t, m) => PeekStateKeepsInv(s, t, m);
    case Gain(_, _, _) => GainKeepsInv(s, a);
    case _ => LocalActionKeepsInv(s, a);
  }

  lemma InitInv<T>(v: T, n: nat)
    ensures Inv(Init(v, n))
  {
  }

  lemma {:induction false} RunKeepsInv<T>(s: State<T>, acts: seq<Action<T>>)
    requires Inv(s) && ValidRun(s, acts)
    ensures Inv(Exec(s, acts))
    decreases |acts|
  {
    hide Apply, Enabled;
    if acts != [] {
      StepKeepsInv(s, acts[0]);
      RunKeepsInv(Apply(s, acts[0]), acts[1..]);
    }
  }
}
