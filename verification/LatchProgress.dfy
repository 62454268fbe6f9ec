/**
  Progress of the latch over infinite runs: on a fair schedule on which no `work` call fails,
  every load returns, and with the common value. LatchSafety.FailureIsForever is the other half:
  after a failure no load returns at all.
 */
module LatchProgress {
  import opened Wrappers
  import opened Latch
  import opened LatchSafety

  /** An infinite run: action `i` leads from state `i` to state `i + 1`. */
  datatype Behaviour<!T> = Behaviour(states: nat -> State<T>, acts: nat -> Action<T>)

  ghost predicate StepAt<T>(b: Behaviour<T>, i: nat) {
    Enabled(b.states(i), b.acts(i)) && b.states(i + 1) == Apply(b.states(i), b.acts(i))
  }

  ghost predicate IsRun<T>(b: Behaviour<T>, v: T, n: nat) {
    b.states(0) == Init(v, n) && forall i: nat :: StepAt(b, i)
  }

  // ---------- Fairness ----------

  ghost predicate MovesAt<T>(b: Behaviour<T>, t: nat, i: nat, j: nat) { i <= j && Moves(b.acts(j), t) }

  /** A thread inside a call is scheduled again; in particular a `work` call ends. */
  ghost predicate Scheduled<T>(b: Behaviour<T>, n: nat) {
    forall t: nat, i: nat :: t < n && t < |b.states(i).threads| && !b.states(i).threads[t].pc.Idle? ==>
      exists j: nat :: MovesAt(b, t, i, j)
  }

  ghost predicate Sees<T>(a: Action<T>, count: nat) {
    (a.ReadState? || a.CasLose? || a.PeekState? || a.CasWin?) ==> a.m + 1 >= count
  }

  ghost predicate SeesFrom<T>(b: Behaviour<T>, count: nat, j: nat) {
    forall k: nat :: j <= k ==> Sees(b.acts(k), count)
  }

  ghost predicate VisibleLater<T>(b: Behaviour<T>, i: nat) {
    exists j: nat :: i <= j && SeesFrom(b, |b.states(i).history|, j)
  }

  /** A write to `state` does not stay invisible: from some point on no load misses it. */
  ghost predicate Visible<T>(b: Behaviour<T>) {
    forall i: nat :: VisibleLater(b, i)
  }

  ghost predicate NoFailure<T>(b: Behaviour<T>) {
    forall i: nat :: !b.acts(i).WorkErr?
  }

  ghost predicate FairRun<T>(b: Behaviour<T>, v: T, n: nat) {
    IsRun(b, v, n) && Scheduled(b, n) && Visible(b) && NoFailure(b)
  }

  /**
    A thread inside a call always has a step that fairness allows: one that is no failing `work`
    and misses no message.
   */
  lemma NeverStuck<T>(s: State<T>, t: nat) returns (a: Action<T>)
    requires Inv(s) && t < |s.threads| && !s.threads[t].pc.Idle?
    ensures Enabled(s, a) && Moves(a, t) && !a.WorkErr? && Sees(a, |s.history|)
  {
    var th, last := s.threads[t], |s.history| - 1;
    assert ThreadOk(s, th);
    match th.pc
    case AtState => a := ReadState(t, last);
    case AtFast => a := BeginFast(t);
    case FastReading(_) => a := EndFast(t);
    case AtCas => a := if |s.history| == 1 then CasWin(t, 0) else CasLose(t, last);
    case AtClone => a := CloneInput(t);
    case Working(_) => a := WorkOk(t, s.data[0]);
    case AtWrite(_) => a := BeginWrite(t);
    case Writing(_) => a := EndWrite(t);
    case AtStore(_) => a := Publish(t, |s.history|);
    case AtBackoff => a := Backoff(t);
    case AtPeek => a := PeekState(t, last);
    case AtPeekRead(_) => a := BeginPeek(t);
    case PeekReading(_, _) => a := EndPeek(t);
  }

  /** A load from start to end, after which nothing but idle synchronisation happens. */
  function SoloBehaviour<T(!new)>(v: T, w: T, n: nat): Behaviour<T>
    requires n > 0
  {
    Behaviour(i => SoloState(v, w, n, i), i => if i < 8 then SoloRun(w)[i] else Gain(0, 0, 0))
  }

  /** Fair runs exist, with a load in them, for any number of threads and any values. */
  lemma FairRunExists<T(!new)>(v: T, w: T, n: nat)
    requires n > 0
    ensures FairRun(SoloBehaviour(v, w, n), v, n)
    ensures InLoad(SoloState(v, w, n, 1).threads[0].pc)
  {
    var b := SoloBehaviour(v, w, n);
    forall i: nat
      ensures StepAt(b, i)
    {
      if i < 8 {
        SoloStep(v, w, n, i);
      } else {
        SoloIdles(v, w, n, i);
      }
    }
    forall t: nat, i: nat | t < n && t < |b.states(i).threads| && !b.states(i).threads[t].pc.Idle?
      ensures exists j: nat :: MovesAt(b, t, i, j)
    {
      SoloMover(v, w, n, i, t);
      assert MovesAt(b, t, i, i);
    }
    forall i: nat
      ensures VisibleLater(b, i) && !b.acts(i).WorkErr?
    {
      assert SeesFrom(b, |b.states(i).history|, i + 8);
      assert i < 8 ==> !SoloRun(w)[i].WorkErr?;
    }
  }

  lemma SoloMover<T>(v: T, w: T, n: nat, i: nat, t: nat)
    requires t < n && !SoloState(v, w, n, i).threads[t].pc.Idle?
    ensures t == 0 && i < 8 && Moves(SoloRun(w)[i], t)
  {
    assert Init(v, n).threads[t].pc.Idle?;
  }

  lemma SoloIdles<T>(v: T, w: T, n: nat, i: nat)
    requires n > 0 && i >= 8
    ensures Enabled(SoloState(v, w, n, i), Gain(0, 0, 0))
    ensures Apply(SoloState(v, w, n, i), Gain(0, 0, 0)) == SoloState(v, w, n, i + 1)
  {
    var s := SoloState(v, w, n, i);
    assert s.threads[0 := s.threads[0]] == s.threads;
  }

  // ---------- Along a run ----------

  lemma {:induction false} InvAt<T>(b: Behaviour<T>, v: T, n: nat, i: nat)
    requires IsRun(b, v, n)
    ensures Inv(b.states(i)) && |b.states(i).threads| == n
  {
    if i == 0 {
      InitInv(v, n);
    } else {
      InvAt(b, v, n, i - 1);
      assert StepAt(b, i - 1);
      StepKeepsInv(b.states(i - 1), b.acts(i - 1));
      StepKeepsThreads(b.states(i - 1), b.acts(i - 1));
    }
  }

  lemma {:induction false} HistoryGrows<T>(b: Behaviour<T>, v: T, n: nat, i: nat, j: nat)
    requires IsRun(b, v, n) && i <= j
    ensures |b.states(i).history| <= |b.states(j).history|
    decreases j - i
  {
    if i < j {
      HistoryGrows(b, v, n, i, j - 1);
      InvAt(b, v, n, j - 1);
      assert StepAt(b, j - 1);
      StepGrowsHistory(b.states(j - 1), b.acts(j - 1));
    }
  }

  lemma NotFailedAt<T>(b: Behaviour<T>, v: T, n: nat, i: nat)
    requires IsRun(b, v, n) && NoFailure(b)
    ensures !Failed(b.states(i))
  {
    AllWorksSucceed(b, v, n, i);
    var works := b.states(i).works;
    assert works != [] ==> works[0].output.Some?;
  }

  lemma {:induction false} AllWorksSucceed<T>(b: Behaviour<T>, v: T, n: nat, i: nat)
    requires IsRun(b, v, n) && NoFailure(b)
    ensures forall k :: 0 <= k < |b.states(i).works| ==> b.states(i).works[k].output.Some?
  {
    if i > 0 {
      AllWorksSucceed(b, v, n, i - 1);
      assert StepAt(b, i - 1) && !b.acts(i - 1).WorkErr?;
    }
  }

  /** The first move of thread `t` from `i` on; until then it stays where it is. */
  lemma {:induction false} FirstMove<T>(b: Behaviour<T>, v: T, n: nat, t: nat, i: nat, j: nat) returns (k: nat)
    requires IsRun(b, v, n) && t < n && MovesAt(b, t, i, j)
    ensures i <= k <= j && Moves(b.acts(k), t) && |b.states(i).threads| == |b.states(k).threads| == n
    ensures b.states(k).threads[t].pc == b.states(i).threads[t].pc
    decreases j - i
  {
    InvAt(b, v, n, i);
    if Moves(b.acts(i), t) {
      k := i;
    } else {
      assert StepAt(b, i);
      OthersKeepPc(b.states(i), b.acts(i), t);
      k := FirstMove(b, v, n, t, i + 1, j);
    }
  }

  lemma NextMove<T>(b: Behaviour<T>, v: T, n: nat, t: nat, i: nat) returns (k: nat)
    requires FairRun(b, v, n) && t < n && |b.states(i).threads| == n && !b.states(i).threads[t].pc.Idle?
    ensures i <= k && Moves(b.acts(k), t) && |b.states(k).threads| == n
    ensures b.states(k).threads[t].pc == b.states(i).threads[t].pc
    ensures StepAt(b, k) && Inv(b.states(k))
  {
    var j: nat :| MovesAt(b, t, i, j);
    k := FirstMove(b, v, n, t, i, j);
    InvAt(b, v, n, k);
    assert StepAt(b, k);
  }

  // ---------- The owner publishes ----------

  function OwnerRank<T>(pc: Pc<T>): nat {
    match pc
    case AtClone => 4
    case Working(_) => 3
    case AtWrite(_) => 2
    case Writing(_) => 1
    case _ => 0
  }

  lemma OwnerMoves<T>(s: State<T>, a: Action<T>, o: nat)
    requires Inv(s) && Enabled(s, a) && Moves(a, o) && !a.WorkErr? && Owns(s.threads[o].pc)
    ensures var r := Apply(s, a);
      || |r.history| == 3
      || (|r.threads| == |s.threads| && Owns(r.threads[o].pc)
          && OwnerRank(r.threads[o].pc) < OwnerRank(s.threads[o].pc))
  {
  }

  lemma {:induction false} OwnerPublishes<T>(b: Behaviour<T>, v: T, n: nat, o: nat, i: nat) returns (j: nat)
    requires FairRun(b, v, n) && o < n && |b.states(i).threads| == n && Owns(b.states(i).threads[o].pc)
    ensures i <= j && |b.states(j).history| == 3
    decreases OwnerRank(b.states(i).threads[o].pc)
  {
    var k := NextMove(b, v, n, o, i);
    assert !b.acts(k).WorkErr?;
    OwnerMoves(b.states(k), b.acts(k), o);
    if |b.states(k + 1).history| == 3 {
      j := k + 1;
    } else {
      j := OwnerPublishes(b, v, n, o, k + 1);
    }
  }

  // ---------- Somebody wins ----------

  lemma CandidateMoves<T>(s: State<T>, a: Action<T>, t: nat)
    requires Inv(s) && Enabled(s, a) && Moves(a, t) && InLoad(s.threads[t].pc) && |s.history| == 1
    ensures s.threads[t].pc.AtState? ==> |Apply(s, a).threads| == |s.threads| && Apply(s, a).threads[t].pc.AtCas?
    ensures !s.threads[t].pc.AtState? ==> |Apply(s, a).history| == 2
  {
  }

  lemma {:induction false} SomebodyWins<T>(b: Behaviour<T>, v: T, n: nat, t: nat, i: nat) returns (j: nat)
    requires FairRun(b, v, n) && t < n && |b.states(i).threads| == n && InLoad(b.states(i).threads[t].pc)
    ensures i <= j && |b.states(j).history| >= 2
    decreases if b.states(i).threads[t].pc.AtState? then 1 else 0
  {
    var k := NextMove(b, v, n, t, i);
    if |b.states(k).history| >= 2 {
      return k;
    }
    CandidateMoves(b.states(k), b.acts(k), t);
    if |b.states(k + 1).history| >= 2 {
      return k + 1;
    }
    j := SomebodyWins(b, v, n, t, k + 1);
  }

  // ---------- Everybody returns ----------

  /** At action `k` thread `t` returns Ok from its load, with the output of the one work call. */
  ghost predicate Returns<T>(b: Behaviour<T>, t: nat, k: nat) {
    var r := b.states(k + 1);
    && |r.works| == 1 && r.works[0].output.Some?
    && r.results == b.states(k).results + [LoadOk(t, Clean(r.works[0].output.value))]
  }

  lemma LeavingReturns<T>(b: Behaviour<T>, t: nat, k: nat)
    requires Inv(b.states(k)) && StepAt(b, k) && Moves(b.acts(k), t) && (b.acts(k).EndFast? || b.acts(k).Publish?)
    ensures Returns(b, t, k)
  {
  }

  /** A load stays a load until it returns. */
  lemma LoadStepStays<T>(s: State<T>, a: Action<T>, t: nat)
    requires Inv(s) && Enabled(s, a) && t < |s.threads| && InLoad(s.threads[t].pc) && !a.WorkErr?
    ensures |Apply(s, a).threads| == |s.threads|
    ensures InLoad(Apply(s, a).threads[t].pc) || (Moves(a, t) && (a.EndFast? || a.Publish?))
  {
    if Moves(a, t) {
      assert ThreadOk(s, s.threads[t]);
    } else {
      OthersKeepPc(s, a, t);
    }
  }

  lemma {:induction false} StaysOrReturns<T>(b: Behaviour<T>, v: T, n: nat, t: nat, i: nat, j: nat)
    returns (returned: bool, k: nat)
    requires FairRun(b, v, n) && t < n && i <= j && |b.states(i).threads| == n && InLoad(b.states(i).threads[t].pc)
    ensures returned ==> i <= k && Returns(b, t, k)
    ensures !returned ==> |b.states(j).threads| == n && InLoad(b.states(j).threads[t].pc)
    decreases j - i
  {
    if i == j {
      return false, i;
    }
    InvAt(b, v, n, i);
    assert StepAt(b, i) && !b.acts(i).WorkErr?;
    LoadStepStays(b.states(i), b.acts(i), t);
    if InLoad(b.states(i + 1).threads[t].pc) {
      returned, k := StaysOrReturns(b, v, n, t, i + 1, j);
    } else {
      LeavingReturns(b, t, i);
      return true, i;
    }
  }

  function WaiterRank<T>(pc: Pc<T>): nat {
    if pc.AtCas? || pc.AtBackoff? then 3
    else if pc.AtState? then 2
    else if pc.AtFast? then 1
    else 0
  }

  lemma WaiterMoves<T>(s: State<T>, a: Action<T>, t: nat)
    requires Inv(s) && Enabled(s, a) && Moves(a, t) && InLoad(s.threads[t].pc) && |s.history| == 3 && Sees(a, 3)
    ensures a.EndFast? || (|Apply(s, a).threads| == |s.threads| && InLoad(Apply(s, a).threads[t].pc)
                           && WaiterRank(Apply(s, a).threads[t].pc) < WaiterRank(s.threads[t].pc))
  {
  }

  /** Once the value is published and visible, a load is a few moves from returning it. */
  lemma {:induction false} WaiterReturns<T>(b: Behaviour<T>, v: T, n: nat, t: nat, i: nat) returns (k: nat)
    requires FairRun(b, v, n) && t < n && |b.states(i).threads| == n && InLoad(b.states(i).threads[t].pc)
    requires |b.states(i).history| == 3 && SeesFrom(b, 3, i)
    ensures i <= k && Returns(b, t, k)
    decreases WaiterRank(b.states(i).threads[t].pc)
  {
    var j := NextMove(b, v, n, t, i);
    HistoryGrows(b, v, n, i, j);
    assert Sees(b.acts(j), 3);
    WaiterMoves(b.states(j), b.acts(j), t);
    if b.acts(j).EndFast? {
      LeavingReturns(b, t, j);
      k := j;
    } else {
      HistoryGrows(b, v, n, j, j + 1);
      InvAt(b, v, n, j + 1);
      k := WaiterReturns(b, v, n, t, j + 1);
    }
  }

  /** Somebody loads the page and publishes it, as soon as anybody asks. */
  lemma PublishedEventually<T>(b: Behaviour<T>, v: T, n: nat, t: nat, i: nat) returns (j: nat)
    requires FairRun(b, v, n) && t < n && |b.states(i).threads| == n && InLoad(b.states(i).threads[t].pc)
    ensures i <= j && |b.states(j).history| == 3
  {
    var k := SomebodyWins(b, v, n, t, i);
    InvAt(b, v, n, k);
    NotFailedAt(b, v, n, k);
    if |b.states(k).history| == 3 {
      j := k;
    } else {
      var o :| OwnerIs(b.states(k), o);
      j := OwnerPublishes(b, v, n, o, k);
    }
  }

  /** On every fair run without a failing `work` call, every load returns the common value. */
  lemma EveryLoadReturns<T>(b: Behaviour<T>, v: T, n: nat, t: nat, i: nat)
    requires FairRun(b, v, n) && t < n
    ensures |b.states(i).threads| == n
    ensures InLoad(b.states(i).threads[t].pc) ==> exists k: nat :: i <= k && Returns(b, t, k)
  {
    InvAt(b, v, n, i);
    if InLoad(b.states(i).threads[t].pc) {
      var p := PublishedEventually(b, v, n, t, i);
      assert VisibleLater(b, p);
      var q: nat :| p <= q && SeesFrom(b, |b.states(p).history|, q);
      var returned, k := StaysOrReturns(b, v, n, t, i, q);
      if !returned {
        HistoryGrows(b, v, n, p, q);
        InvAt(b, v, n, q);
        k := WaiterReturns(b, v, n, t, q);
      }
      assert i <= k && Returns(b, t, k);
    }
  }
}
