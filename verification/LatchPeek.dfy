/**
  `peek` reads the data whatever the state it reports. Here is what each continuation returns,
  runs in which the read races, with LOADING and with ON_DISK reported, and the exact condition
  under which none can.
 */
module LatchPeek {
  import opened Wrappers
  import opened Latch
  import opened LatchSafety

  /** `peek` is good for the loaded value whenever it reports IN_MEMORY. */
  lemma PeekInMemoryIsFinal<T>(v: T, n: nat, acts: seq<Action<T>>, i: nat)
    requires ValidRun(Init(v, n), acts) && i < |Exec(Init(v, n), acts).results|
    ensures var s := Exec(Init(v, n), acts);
      s.results[i].Peeked? && s.results[i].state == IN_MEMORY ==>
        |Outputs(acts)| == 1 && Outputs(acts)[0].Some? && s.results[i].result == Clean(Outputs(acts)[0].value)
  {
    hide Apply, Enabled;
    var s := Exec(Init(v, n), acts);
    ReachableInv(v, n, acts);
    WorksAreLogged(Init(v, n), acts);
    assert ReturnOk(s, s.results[i]);
    assert OutputsOf(s.works) == Outputs(acts);
    if s.results[i].Peeked? && s.results[i].state == IN_MEMORY {
      assert OutputsOf(s.works)[0] == s.works[0].output;
    }
  }

  // ---------- Racing peeks ----------

  function PeekRun<T>(t: nat, m: nat): seq<Action<T>> { [PeekState(t, m), BeginPeek(t), EndPeek(t)] }

  /** The read of the data itself, by a thread that does not know the last write. */
  lemma UnknowingReadIsRacy<T>(s: State<T>, t: nat, m: nat)
    requires s.data != [] && t < |s.threads| && s.threads[t].pc == AtPeekRead(m) && !KnowsData(s, s.threads[t])
    ensures Enabled(s, BeginPeek(t)) && Enabled(Apply(s, BeginPeek(t)), EndPeek(t))
    ensures Apply(Apply(s, BeginPeek(t)), EndPeek(t)).results == s.results + [Peeked(t, m, Racy)]
  {
  }

  /** A peek that reads message `m` and still does not know the data returns a racy value. */
  lemma UnknowingPeekIsRacy<T>(s: State<T>, t: nat, m: nat)
    requires Inv(s) && t < |s.threads| && s.threads[t].pc.AtPeek? && MayRead(s, s.threads[t], m)
    requires !KnowsData(s, Acquire(s, s.threads[t], m))
    ensures ValidRun(s, PeekRun(t, m)) && Exec(s, PeekRun(t, m)).results == s.results + [Peeked(t, m, Racy)]
  {
    var th := Acquire(s, s.threads[t], m);
    var s1 := Apply(s, PeekState(t, m));
    assert s1 == Put(s, t, th.(pc := AtPeekRead(m)));
    UnknowingReadIsRacy(s1, t, m);
    hide Apply, Enabled;
    var s2 := Apply(s1, BeginPeek(t));
    RunCons(s2, EndPeek(t), []);
    RunCons(s1, BeginPeek(t), [EndPeek(t)]);
    RunCons(s, PeekState(t, m), [BeginPeek(t), EndPeek(t)]);
  }

  lemma PeekAfterSolo<T>(v: T, w: T, i: nat, m: nat)
    requires i <= 8 && m < |SoloState(v, w, 2, i).history|
    requires !KnowsData(SoloState(v, w, 2, i), Acquire(SoloState(v, w, 2, i), Thread(AtPeek, 0, 0, 0, 0), m))
    ensures var x := SoloRun(w)[..i] + [StartPeek(1)] + PeekRun(1, m);
      ValidRun(Init(v, 2), x) && Exec(Init(v, 2), x).results == SoloState(v, w, 2, i).results + [Peeked(1, m, Racy)]
  {
    var s, x := SoloState(v, w, 2, i), SoloRun(w)[..i];
    SoloRuns(v, w, 2, i);
    RunExtends(Init(v, 2), x, StartPeek(1));
    ReachableInv(v, 2, x + [StartPeek(1)]);
    UnknowingPeekIsRacy(Apply(s, StartPeek(1)), 1, m);
    RunJoins(Init(v, 2), x + [StartPeek(1)], PeekRun(1, m));
  }

  /** A peek that reports LOADING reads while the loader writes. */
  lemma LoadingPeekCanRace<T>(v: T, w: T)
    ensures var x := SoloRun(w)[..6] + [StartPeek(1)] + PeekRun(1, LOADING);
      ValidRun(Init(v, 2), x) && Exec(Init(v, 2), x).results == [Peeked(1, LOADING, Racy)]
  {
    PeekAfterSolo(v, w, 6, LOADING);
  }

  /** A peek that reports ON_DISK, by a thread that has seen nothing, reads past a finished load. */
  lemma OnDiskPeekCanRace<T>(v: T, w: T)
    ensures var x := SoloRun(w)[..8] + [StartPeek(1)] + PeekRun(1, ON_DISK);
      ValidRun(Init(v, 2), x) && Exec(Init(v, 2), x).results == [LoadOk(0, Clean(w)), Peeked(1, ON_DISK, Racy)]
  {
    PeekAfterSolo(v, w, 8, ON_DISK);
  }

  // ---------- What a peek returns ----------

  /** A continuation from `s` whose last step ends the peek that thread `t` is in. */
  ghost predicate EndsPeek<T>(s: State<T>, acts: seq<Action<T>>, t: nat) {
    && acts != [] && ValidRun(s, acts)
    && acts[|acts| - 1] == EndPeek(t)
    && forall i :: 0 <= i < |acts| - 1 ==> acts[i] != EndPeek(t)
  }

  ghost function LastReturn<T>(s: State<T>, acts: seq<Action<T>>): Option<Return<T>>
    requires ValidRun(s, acts)
  {
    var r := Exec(s, acts).results;
    if r == [] then None else Some(r[|r| - 1])
  }

  predicate Writes<T>(a: Action<T>) { a.BeginWrite? || a.EndWrite? }

  /** What a data read that begins in `s` and spans `acts` must see. */
  ghost function Expected<T>(s: State<T>, t: nat, acts: seq<Action<T>>): Seen<T>
    requires t < |s.threads| && s.data != []
  {
    if KnowsData(s, s.threads[t]) && (forall i :: 0 <= i < |acts| ==> !Writes(acts[i]))
    then Clean(s.data[|s.data| - 1]) else Racy
  }

  lemma StepWrites<T>(s: State<T>, a: Action<T>)
    requires Enabled(s, a)
    ensures var r := Apply(s, a);
      && s.data <= r.data
      && (!Writes(a) ==> r.data == s.data && r.writer == s.writer)
      && (Writes(a) ==> r.writer.Some? || |r.data| > |s.data|)
      && (s.writer.Some? ==> r.writer.Some? || |r.data| > |s.data|)
  {
  }

  lemma EndOfPeek<T>(s: State<T>, t: nat)
    requires Enabled(s, EndPeek(t))
    ensures s.threads[t].pc.PeekReading? && ValidRun(s, [EndPeek(t)])
    ensures LastReturn(s, [EndPeek(t)]) ==
      Some(Peeked(t, s.threads[t].pc.state, ReadEnd(s, s.threads[t].pc.start)))
  {
    var acts: seq<Action<T>> := [EndPeek(t)];
    assert acts[1..] == [] && Exec(s, acts) == Apply(s, EndPeek(t));
  }

  lemma StepOfReader<T>(s: State<T>, a: Action<T>, t: nat)
    requires Enabled(s, a) && t < |s.threads| && s.threads[t].pc.PeekReading? && a != EndPeek(t)
    ensures !Moves(a, t)
  {
  }

  /** A read in progress sees the data it began with, unless a write begins or ends before it does. */
  lemma {:induction false} ReadSpans<T>(s: State<T>, acts: seq<Action<T>>, t: nat, start: Option<nat>)
    requires EndsPeek(s, acts, t) && t < |s.threads| && s.data != []
    requires s.threads[t].pc.PeekReading? && s.threads[t].pc.start == start
    requires start.Some? ==> start.value <= |s.data|
    ensures LastReturn(s, acts) == Some(Peeked(t, s.threads[t].pc.state,
      if start == Some(|s.data|) && s.writer == None && (forall i :: 0 <= i < |acts| ==> !Writes(acts[i]))
      then Clean(s.data[|s.data| - 1]) else Racy))
    ensures forall i :: 0 <= i < |acts| && Moves(acts[i], t) ==> i == |acts| - 1
    decreases |acts|
  {
    hide Apply, Enabled;
    if |acts| == 1 {
      assert acts == [EndPeek(t)];
      EndOfPeek(s, t);
    } else {
      StepOfReader(s, acts[0], t);
      OthersKeepPc(s, acts[0], t);
      StepWrites(s, acts[0]);
      ReadSpans(Apply(s, acts[0]), acts[1..], t, start);
    }
  }

  /** The state in which step `k` of a run is taken. */
  ghost predicate Before<T>(s: State<T>, acts: seq<Action<T>>, k: nat, r: State<T>) {
    k < |acts| && ValidRun(s, acts[..k]) && Exec(s, acts[..k]) == r && Enabled(r, acts[k])
  }

  /** The rest of a continuation, after step `k`, ends the same peek with the same return. */
  ghost predicate RestEndsPeek<T>(s: State<T>, acts: seq<Action<T>>, t: nat, k: nat, r: State<T>)
    requires ValidRun(s, acts) && Before(s, acts, k, r)
  {
    acts[k] != EndPeek(t) ==>
      && EndsPeek(Apply(r, acts[k]), acts[k + 1..], t)
      && LastReturn(Apply(r, acts[k]), acts[k + 1..]) == LastReturn(s, acts)
  }

  lemma AfterStep<T>(s: State<T>, acts: seq<Action<T>>, t: nat, k: nat)
    requires EndsPeek(s, acts, t) && k < |acts|
    ensures ValidRun(s, acts[..k])
    ensures Before(s, acts, k, Exec(s, acts[..k])) && RestEndsPeek(s, acts, t, k, Exec(s, acts[..k]))
  {
    hide Apply, Enabled;
    assert acts == acts[..k] + acts[k..];
    RunSplits(s, acts[..k], acts[k..]);
    assert acts[k..][1..] == acts[k + 1..];
  }

  /** The thread's next own step, up to which it stays where it is. */
  lemma {:induction false} NextMove<T>(s: State<T>, acts: seq<Action<T>>, t: nat) returns (k: nat, r: State<T>)
    requires EndsPeek(s, acts, t) && t < |s.threads|
    ensures Before(s, acts, k, r) && RestEndsPeek(s, acts, t, k, r)
    ensures Moves(acts[k], t) && forall i :: 0 <= i < k ==> !Moves(acts[i], t)
    ensures |r.threads| == |s.threads| && r.threads[t].pc == s.threads[t].pc
    decreases |acts|
  {
    hide Apply, Enabled;
    if Moves(acts[0], t) {
      k := 0;
      AfterStep(s, acts, t, 0);
      assert acts[..0] == [];
    } else {
      OthersKeepPc(s, acts[0], t);
      var j, q := NextMove(Apply(s, acts[0]), acts[1..], t);
      k := j + 1;
      AfterStep(s, acts, t, k);
      assert acts[..k][1..] == acts[1..][..j] && acts[..k][0] == acts[0];
    }
    r := Exec(s, acts[..k]);
  }

  lemma PeekReadsState<T>(s: State<T>, a: Action<T>, t: nat)
    requires Enabled(s, a) && Moves(a, t) && s.threads[t].pc.AtPeek?
    ensures a.PeekState? && a.m < |s.history|
    ensures |Apply(s, a).threads| == |s.threads|
    ensures Apply(s, a).threads[t].pc == AtPeekRead(s.history[a.m].value)
  {
  }

  lemma PeekBeginsRead<T>(s: State<T>, a: Action<T>, t: nat)
    requires Enabled(s, a) && Moves(a, t) && s.threads[t].pc.AtPeekRead?
    ensures a == BeginPeek(t) && Apply(s, a).data == s.data != [] && Apply(s, a).writer == s.writer
    ensures |Apply(s, a).threads| == |s.threads|
    ensures Apply(s, a).threads[t].pc == PeekReading(s.threads[t].pc.state, ReadStart(s, s.threads[t]))
  {
  }

  /** Among the steps of a schedule, those that thread `t` takes itself are these. */
  ghost predicate MovesOnlyAt<T>(acts: seq<Action<T>>, t: nat, at: set<nat>) {
    forall i :: 0 <= i < |acts| && Moves(acts[i], t) ==> i in at
  }

  lemma MovesShift<T>(acts: seq<Action<T>>, t: nat, k: nat, at: set<nat>, all: set<nat>)
    requires k < |acts| && (forall i :: 0 <= i < k ==> !Moves(acts[i], t)) && MovesOnlyAt(acts[k + 1..], t, at)
    requires k in all && forall i :: i in at ==> k + 1 + i in all
    ensures MovesOnlyAt(acts, t, all)
  {
    forall i | k < i < |acts| && Moves(acts[i], t)
      ensures i in all
    {
      assert acts[i] == acts[k + 1..][i - k - 1];
      assert k + 1 + (i - k - 1) in all;
    }
  }

  /** The second half of a peek: the data read, begun at `b` and ended by the last step. */
  lemma PeekReadsData<T>(s: State<T>, acts: seq<Action<T>>, t: nat, state: nat) returns (b: nat, atRead: State<T>)
    requires t < |s.threads| && s.threads[t].pc == AtPeekRead(state) && EndsPeek(s, acts, t)
    ensures b < |acts| - 1 && acts[b] == BeginPeek(t) && MovesOnlyAt(acts, t, {b, |acts| - 1})
    ensures Before(s, acts, b, atRead) && t < |atRead.threads| && atRead.data != []
    ensures LastReturn(s, acts) == Some(Peeked(t, state, Expected(atRead, t, acts[b + 1..])))
  {
    hide Apply, Enabled, Exec, ValidRun;
    b, atRead := NextMove(s, acts, t);
    PeekBeginsRead(atRead, acts[b], t);
    var last := acts[b + 1..];
    ReadSpans(Apply(atRead, acts[b]), last, t, ReadStart(atRead, atRead.threads[t]));
    MovesShift(acts, t, b, {|last| - 1}, {b, |acts| - 1});
  }

  /**
    What any continuation that ends a peek returns. The peek takes three steps of its own, at `k`,
    at `b` and last. The state it reports is the value of the message it read at `k`. Its data is
    clean if and only if, at `b`, its thread knew of the last data write, none was in progress,
    and none began or ended after `b`; and then it is the last value written.
   */
  lemma PeekReturnsWhatItRead<T>(s: State<T>, acts: seq<Action<T>>, t: nat)
    returns (k: nat, b: nat, atState: State<T>, atRead: State<T>)
    requires t < |s.threads| && s.threads[t].pc.AtPeek? && EndsPeek(s, acts, t)
    ensures k < b < |acts| - 1 && acts[k].PeekState? && acts[k].t == t && acts[b] == BeginPeek(t)
    ensures MovesOnlyAt(acts, t, {k, b, |acts| - 1})
    ensures Before(s, acts, k, atState) && acts[k].m < |atState.history|
    ensures Before(s, acts, b, atRead) && t < |atRead.threads| && atRead.data != []
    ensures LastReturn(s, acts) ==
      Some(Peeked(t, atState.history[acts[k].m].value, Expected(atRead, t, acts[b + 1..])))
  {
    hide Apply, Enabled, Exec, ValidRun;
    k, atState := NextMove(s, acts, t);
    PeekReadsState(atState, acts[k], t);
    var rest := acts[k + 1..];
    var d, r := PeekReadsData(Apply(atState, acts[k]), rest, t, atState.history[acts[k].m].value);
    b, atRead := k + 1 + d, r;
    assert rest[d + 1..] == acts[b + 1..];
    hide EndsPeek, LastReturn, Expected;
    JoinBefore(s, acts, k, atState, d, atRead);
    MovesShift(acts, t, k, {d, |rest| - 1}, {k, b, |acts| - 1});
  }

  /**
    A peek reports IN_MEMORY if and only if it read the third message, and then it returns the
    output of the one `work` call of the run.
   */
  lemma PeekReportsInMemoryIff<T>(v: T, n: nat, acts: seq<Action<T>>, t: nat, more: seq<Action<T>>)
    requires ValidRun(Init(v, n), acts)
    requires var s := Exec(Init(v, n), acts);
      t < |s.threads| && s.threads[t].pc.AtPeek? && EndsPeek(s, more, t)
    ensures var r, outputs := LastReturn(Exec(Init(v, n), acts), more), Outputs(acts + more);
      && r.Some? && r.value.Peeked? && r.value.t == t
      && (r.value.state == IN_MEMORY <==> PeekState(t, 2) in more)
      && (PeekState(t, 2) in more ==>
        |outputs| == 1 && outputs[0].Some? && r.value.result == Clean(outputs[0].value))
  {
    hide Apply, Enabled;
    var s := Exec(Init(v, n), acts);
    ReachableInv(v, n, acts);
    var k, b, atState, atRead := PeekReturnsWhatItRead(s, more, t);
    RunKeepsInv(s, more[..k]);
    assert atState.history[more[k].m].value == more[k].m;
    RunJoins(Init(v, n), acts, more);
    PeekInMemoryIsFinal(v, n, acts + more, |Exec(s, more).results| - 1);
  }

  lemma JoinBefore<T>(s: State<T>, acts: seq<Action<T>>, k: nat, q: State<T>, d: nat, r: State<T>)
    requires Before(s, acts, k, q) && Before(Apply(q, acts[k]), acts[k + 1..], d, r)
    ensures Before(s, acts, k + 1 + d, r)
  {
    hide Apply, Enabled;
    var rest := acts[k + 1..][..d];
    RunCons(q, acts[k], rest);
    RunJoins(s, acts[..k], [acts[k]] + rest);
    assert acts[..k + 1 + d] == acts[..k] + ([acts[k]] + rest);
  }

  // ---------- Safe peeks ----------

  ghost predicate Returns<T>(s: State<T>, acts: seq<Action<T>>, t: nat, seen: Seen<T>)
    requires ValidRun(s, acts)
  {
    var r := LastReturn(s, acts);
    r.Some? && r.value.Peeked? && r.value.t == t && r.value.result == seen
  }

  /** No write is in progress or to come, and the thread knows of the last one. */
  ghost predicate Settled<T>(s: State<T>, t: nat)
    requires t < |s.threads|
  {
    KnowsData(s, s.threads[t]) && (|s.data| == 2 || Failed(s))
  }

  predicate Peeking<T>(pc: Pc<T>, writes: nat) {
    pc.AtPeek? || pc.AtPeekRead? || (pc.PeekReading? && pc.start == Some(writes))
  }

  lemma NoMoreWrites<T>(s: State<T>, a: Action<T>)
    requires Inv(s) && Enabled(s, a) && s.writer == None && (|s.data| == 2 || Failed(s))
    ensures var r := Apply(s, a);
      r.data == s.data && r.writer == None && (|r.data| == 2 || Failed(r))
  {
    if Owns(s.threads[a.t].pc) {
      OwnerIsThread(s, a.t);
    }
    if Failed(s) {
      FailedStep(s, a);
    }
  }

  lemma PeekStepKeepsView<T>(s: State<T>, a: Action<T>, t: nat)
    requires Enabled(s, a) && t < |s.threads| && a != EndPeek(t)
    requires KnowsData(s, s.threads[t]) && Peeking(s.threads[t].pc, |s.data|)
    ensures var r := Apply(s, a);
      && |r.threads| == |s.threads| && s.threads[t].dv <= r.threads[t].dv
      && Peeking(r.threads[t].pc, |s.data|)
  {
  }

  /** Settled stays settled, whatever any thread does. */
  lemma SettledStays<T>(s: State<T>, a: Action<T>, t: nat)
    requires Inv(s) && Enabled(s, a) && t < |s.threads| && Settled(s, t)
    requires Peeking(s.threads[t].pc, |s.data|) && a != EndPeek(t)
    ensures var r := Apply(s, a);
      && |r.threads| == |s.threads| && r.data == s.data
      && Settled(r, t) && Peeking(r.threads[t].pc, |r.data|)
  {
    hide Apply, Enabled;
    NoMoreWrites(s, a);
    PeekStepKeepsView(s, a, t);
    StepKeepsInv(s, a);
    var r := Apply(s, a);
    assert ThreadOk(r, r.threads[t]);
  }

  lemma {:induction false} SettledPeekIsClean<T>(s: State<T>, acts: seq<Action<T>>, t: nat)
    requires Inv(s) && t < |s.threads| && Settled(s, t) && Peeking(s.threads[t].pc, |s.data|) && EndsPeek(s, acts, t)
    ensures Returns(s, acts, t, Clean(s.data[|s.data| - 1]))
    decreases |acts|
  {
    if |acts| == 1 {
      assert Exec(s, acts) == Apply(s, acts[0]);
    } else {
      hide Apply, Enabled;
      SettledStays(s, acts[0], t);
      StepKeepsInv(s, acts[0]);
      SettledPeekIsClean(Apply(s, acts[0]), acts[1..], t);
    }
  }

  // ---------- Unsafe peeks ----------

  /** How far a thread is from writing the data. */
  function Distance<T>(pc: Pc<T>): nat {
    match pc
    case AtPeek => 9
    case AtPeekRead(_) => 8
    case PeekReading(_, _) => 7
    case Idle => 6
    case AtState => 5
    case AtCas => 4
    case AtClone => 3
    case Working(_) => 2
    case AtWrite(_) => 1
    case _ => 0
  }

  function TowardsWrite<T>(s: State<T>, u: nat): Action<T>
    requires u < |s.threads| && s.data != []
  {
    var th := s.threads[u];
    match th.pc
    case AtPeek => PeekState(u, th.ts)
    case AtPeekRead(_) => BeginPeek(u)
    case PeekReading(_, _) => EndPeek(u)
    case Idle => StartLoad(u)
    case AtState => ReadState(u, th.ts)
    case AtCas => CasWin(u, 0)
    case AtClone => CloneInput(u)
    case Working(_) => WorkOk(u, s.data[0])
    case _ => BeginWrite(u)
  }

  /** Thread `u` can still come to write: nobody has begun to load, or `u` itself is loading. */
  ghost predicate MayWrite<T>(s: State<T>, u: nat) {
    && Inv(s) && u < |s.threads| && |s.data| == 1 && s.writer == None
    && (|s.history| == 1 || (|s.history| == 2 && Owns(s.threads[u].pc)))
  }

  lemma StepTowardsWrite<T>(s: State<T>, u: nat)
    requires MayWrite(s, u)
    ensures Enabled(s, TowardsWrite(s, u))
    ensures var r := Apply(s, TowardsWrite(s, u));
      r.writer.Some? || (MayWrite(r, u) && Distance(r.threads[u].pc) < Distance(s.threads[u].pc))
  {
    assert ThreadOk(s, s.threads[u]);
    if Owns(s.threads[u].pc) {
      OwnerIsThread(s, u);
    }
    StepKeepsInv(s, TowardsWrite(s, u));
  }

  lemma {:induction false} ReachWrite<T>(s: State<T>, t: nat, u: nat) returns (acts: seq<Action<T>>)
    requires MayWrite(s, u) && t < |s.threads| && t != u
    ensures ValidRun(s, acts) && (forall i :: 0 <= i < |acts| ==> acts[i].t != t)
    ensures var r := Exec(s, acts);
      r.writer.Some? && |r.threads| == |s.threads| && r.threads[t].pc == s.threads[t].pc
    decreases Distance(s.threads[u].pc)
  {
    StepTowardsWrite(s, u);
    var a := TowardsWrite(s, u);
    var r := Apply(s, a);
    OthersKeepPc(s, a, t);
    hide Apply, Enabled, TowardsWrite;
    var rest := [];
    if !r.writer.Some? {
      rest := ReachWrite(r, t, u);
    }
    RunCons(s, a, rest);
    acts := [a] + rest;
  }

  /** Others can bring an unsettled peek to where its thread does not know the data. */
  lemma ReachUnknowing<T>(s: State<T>, t: nat, u: nat) returns (pre: seq<Action<T>>)
    requires Inv(s) && t < |s.threads| && u < |s.threads| && u != t && s.threads[t].pc.AtPeek? && !Settled(s, t)
    ensures ValidRun(s, pre) && (forall i :: 0 <= i < |pre| ==> pre[i].t != t)
    ensures var r := Exec(s, pre);
      |r.threads| == |s.threads| && r.threads[t].pc.AtPeek? && !KnowsData(r, r.threads[t])
  {
    hide Apply, Enabled;
    pre := [];
    if KnowsData(s, s.threads[t]) {
      var o := u;
      if |s.history| == 2 {
        o :| OwnerIs(s, o);
      }
      pre := ReachWrite(s, t, o);
    }
  }

  /** From an unsettled state some continuation ends the peek with a racy value. */
  lemma UnsettledPeekCanRace<T>(s: State<T>, t: nat, u: nat) returns (acts: seq<Action<T>>)
    requires Inv(s) && t < |s.threads| && u < |s.threads| && u != t && s.threads[t].pc.AtPeek? && !Settled(s, t)
    ensures EndsPeek(s, acts, t) && Returns(s, acts, t, Racy)
  {
    hide Apply, Enabled;
    var pre := ReachUnknowing(s, t, u);
    RunKeepsInv(s, pre);
    var r := Exec(s, pre);
    var last := PeekRun(t, r.threads[t].ts);
    assert ThreadOk(r, r.threads[t]);
    hide PhaseOk, HistoryOk, Exec;
    UnknowingPeekIsRacy(r, t, r.threads[t].ts);
    RunJoins(s, pre, last);
    acts := pre + last;
  }

  /**
    The exact condition, on the state a peek starts from: with another thread about, every
    continuation that ends the peek returns a clean value if and only if the thread knows of the
    last data write and no further one can come, the page being loaded or the load having failed.
   */
  lemma PeekIsSafeIff<T(!new)>(s: State<T>, t: nat, u: nat)
    requires Inv(s) && t < |s.threads| && u < |s.threads| && u != t && s.threads[t].pc.AtPeek?
    ensures Settled(s, t) <==>
      forall acts :: EndsPeek(s, acts, t) ==> exists v :: Returns(s, acts, t, Clean(v))
  {
    if Settled(s, t) {
      forall acts | EndsPeek(s, acts, t)
        ensures exists v :: Returns(s, acts, t, Clean(v))
      {
        SettledPeekIsClean(s, acts, t);
      }
    } else {
      var acts := UnsettledPeekCanRace(s, t, u);
      assert forall v :: !Returns(s, acts, t, Clean(v));
    }
  }

  // ---------- What a caller can rely on ----------

  /** A thread whose load returned Ok has seen the page published. */
  ghost predicate LoadersKnow<T>(s: State<T>) {
    forall i :: 0 <= i < |s.results| && s.results[i].LoadOk? ==>
      s.results[i].t < |s.threads| && s.threads[s.results[i].t].ts == 2
  }

  lemma LoadReturnsKnowing<T>(s: State<T>, a: Action<T>)
    requires Inv(s) && Enabled(s, a)
    ensures var r := Apply(s, a);
      || r.results == s.results
      || (|r.results| == |s.results| + 1 && r.results[..|s.results|] == s.results
          && var last := r.results[|s.results|];
             last.LoadOk? ==> last.t < |r.threads| && r.threads[last.t].ts == 2)
  {
    assert ThreadOk(s, s.threads[a.t]);
    if a.Publish? {
      OwnerIsThread(s, a.t);
    }
  }

  lemma StepKeepsLoadersKnow<T>(s: State<T>, a: Action<T>)
    requires Inv(s) && LoadersKnow(s) && Enabled(s, a)
    ensures LoadersKnow(Apply(s, a))
  {
    hide Apply, Enabled;
    var r := Apply(s, a);
    LoadReturnsKnowing(s, a);
    StepKeepsInv(s, a);
    forall i | 0 <= i < |r.results| && r.results[i].LoadOk?
      ensures r.results[i].t < |r.threads| && r.threads[r.results[i].t].ts == 2
    {
      if i < |s.results| {
        assert r.results[i] == s.results[i];
        TimestampsGrow(s, a, s.results[i].t);
        assert ThreadOk(r, r.threads[s.results[i].t]);
      }
    }
  }

  lemma TimestampsGrow<T>(s: State<T>, a: Action<T>, t: nat)
    requires Enabled(s, a) && t < |s.threads|
    ensures |Apply(s, a).threads| == |s.threads| && s.threads[t].ts <= Apply(s, a).threads[t].ts
  {
  }

  lemma {:induction false} RunKeepsLoadersKnow<T>(s: State<T>, acts: seq<Action<T>>)
    requires Inv(s) && LoadersKnow(s) && ValidRun(s, acts)
    ensures LoadersKnow(Exec(s, acts))
    decreases |acts|
  {
    hide Apply, Enabled;
    if acts != [] {
      StepKeepsInv(s, acts[0]);
      StepKeepsLoadersKnow(s, acts[0]);
      RunKeepsLoadersKnow(Apply(s, acts[0]), acts[1..]);
    }
  }

  /**
    After a thread's own load has returned Ok, each of its peeks reports IN_MEMORY and returns the
    loaded value.
   */
  lemma PeekAfterOwnLoad<T>(v: T, n: nat, acts: seq<Action<T>>, i: nat, more: seq<Action<T>>)
    requires ValidRun(Init(v, n), acts) && i < |Exec(Init(v, n), acts).results|
    requires var s, r := Exec(Init(v, n), acts), Exec(Init(v, n), acts).results[i];
      r.LoadOk? && r.t < |s.threads| && s.threads[r.t].pc.AtPeek? && EndsPeek(s, more, r.t)
    ensures var s, r := Exec(Init(v, n), acts), Exec(Init(v, n), acts).results[i];
      r.result.Clean? && LastReturn(s, more) == Some(Peeked(r.t, IN_MEMORY, r.result))
  {
    hide Apply, Enabled;
    var s := Exec(Init(v, n), acts);
    var r := s.results[i];
    InitInv(v, n);
    ReachableInv(v, n, acts);
    RunKeepsLoadersKnow(Init(v, n), acts);
    assert ReturnOk(s, r) && ThreadOk(s, s.threads[r.t]);
    hide Inv, Exec, ValidRun;
    SettledPeekIsClean(s, more, r.t);
    var k, b, atState, atRead := PeekReturnsWhatItRead(s, more, r.t);
    KnowingThreadReadsLast(s, more, k, r.t);
  }

  /** A thread that has seen the page published reads no older state. */
  lemma KnowingThreadReadsLast<T>(s: State<T>, acts: seq<Action<T>>, k: nat, t: nat)
    requires Inv(s) && t < |s.threads| && s.threads[t].ts == 2 && ValidRun(s, acts)
    requires k < |acts| && acts[k].PeekState? && acts[k].t == t
    ensures ValidRun(s, acts[..k]) && acts[k].m == 2 < |Exec(s, acts[..k]).history|
    ensures Exec(s, acts[..k]).history[acts[k].m].value == IN_MEMORY
  {
    hide Apply, Enabled, PhaseOk;
    assert acts == acts[..k] + acts[k..];
    RunSplits(s, acts[..k], acts[k..]);
    RunKeepsInv(s, acts[..k]);
    RunGrowsTimestamps(s, acts[..k], t);
    PeekMayRead(Exec(s, acts[..k]), acts[k]);
  }

  lemma PeekMayRead<T>(s: State<T>, a: Action<T>)
    requires Enabled(s, a) && a.PeekState?
    ensures a.t < |s.threads| && MayRead(s, s.threads[a.t], a.m)
  {
  }

  lemma {:induction false} RunGrowsTimestamps<T>(s: State<T>, acts: seq<Action<T>>, t: nat)
    requires ValidRun(s, acts) && t < |s.threads|
    ensures |Exec(s, acts).threads| == |s.threads| && s.threads[t].ts <= Exec(s, acts).threads[t].ts
    decreases |acts|
  {
    hide Apply, Enabled;
    if acts != [] {
      TimestampsGrow(s, acts[0], t);
      RunGrowsTimestamps(Apply(s, acts[0]), acts[1..], t);
    }
  }
}
