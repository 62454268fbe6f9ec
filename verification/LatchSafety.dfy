/**
  What holds over every run of the latch: one value for all loads, one loader, no race on the
  fast path, the fate of a failed load, and the cases where `peek` promises nothing.
 */
module LatchSafety {
  import opened Wrappers
  import opened Latch

  // ---------- Runs in pieces ----------

  lemma {:induction false} RunSplits<T>(s: State<T>, x: seq<Action<T>>, y: seq<Action<T>>)
    requires ValidRun(s, x + y)
    ensures ValidRun(s, x) && ValidRun(Exec(s, x), y) && Exec(s, x + y) == Exec(Exec(s, x), y)
    decreases |x|
  {
    hide Apply, Enabled;
    if x == [] {
      assert x + y == y;
    } else {
      assert (x + y)[1..] == x[1..] + y;
      RunSplits(Apply(s, x[0]), x[1..], y);
    }
  }

  lemma {:induction false} RunJoins<T>(s: State<T>, x: seq<Action<T>>, y: seq<Action<T>>)
    requires ValidRun(s, x) && ValidRun(Exec(s, x), y)
    ensures ValidRun(s, x + y) && Exec(s, x + y) == Exec(Exec(s, x), y)
    decreases |x|
  {
    hide Apply, Enabled;
    if x == [] {
      assert x + y == y;
    } else {
      assert (x + y)[1..] == x[1..] + y;
      RunJoins(Apply(s, x[0]), x[1..], y);
    }
  }

  lemma {:induction false} RunExtends<T>(s: State<T>, x: seq<Action<T>>, a: Action<T>)
    requires ValidRun(s, x) && Enabled(Exec(s, x), a)
    ensures ValidRun(s, x + [a]) && Exec(s, x + [a]) == Apply(Exec(s, x), a)
    decreases |x|
  {
    hide Apply, Enabled;
    if x == [] {
      assert (x + [a])[1..] == [];
    } else {
      assert (x + [a])[1..] == x[1..] + [a];
      RunExtends(Apply(s, x[0]), x[1..], a);
    }
  }

  lemma RunCons<T>(s: State<T>, a: Action<T>, rest: seq<Action<T>>)
    requires Enabled(s, a) && ValidRun(Apply(s, a), rest)
    ensures ValidRun(s, [a] + rest) && Exec(s, [a] + rest) == Exec(Apply(s, a), rest)
  {
    hide Apply, Enabled;
    assert ([a] + rest)[1..] == rest;
  }

  lemma ReachableInv<T>(v: T, n: nat, acts: seq<Action<T>>)
    requires ValidRun(Init(v, n), acts)
    ensures Inv(Exec(Init(v, n), acts))
  {
    InitInv(v, n);
    RunKeepsInv(Init(v, n), acts);
  }

  // ---------- One value ----------

  /** The outcomes of the `work` calls that finish in a run, in order. */
  function Outputs<T>(acts: seq<Action<T>>): seq<Option<T>> {
    if acts == [] then []
    else
      (match acts[0]
       case WorkOk(_, v) => [Some(v)]
       case WorkErr(_) => [None]
       case _ => []) + Outputs(acts[1..])
  }

  function OutputsOf<T>(works: seq<Work<T>>): (r: seq<Option<T>>)
    ensures |r| == |works|
  {
    seq(|works|, i requires 0 <= i < |works| => works[i].output)
  }

  lemma {:induction false} WorksAreLogged<T>(s: State<T>, acts: seq<Action<T>>)
    requires ValidRun(s, acts)
    ensures OutputsOf(Exec(s, acts).works) == OutputsOf(s.works) + Outputs(acts)
    ensures s.data != [] ==> Exec(s, acts).data != [] && Exec(s, acts).data[0] == s.data[0]
    decreases |acts|
  {
    hide Apply, Enabled;
    if acts != [] {
      WorksAreLogged(Apply(s, acts[0]), acts[1..]);
      StepLogsWork(s, acts[0]);
      assert [acts[0]][1..] == [];
      assert Outputs(acts) == Outputs([acts[0]]) + Outputs(acts[1..]);
    }
  }

  lemma StepLogsWork<T>(s: State<T>, a: Action<T>)
    requires Enabled(s, a)
    ensures OutputsOf(Apply(s, a).works) == OutputsOf(s.works) + Outputs([a])
    ensures Apply(s, a).data != [] && Apply(s, a).data[0] == s.data[0]
  {
  }

  /**
    Over every interleaving with stale reads, every load that returns Ok returns one and the same
    value: the output of the one `work` call that finished, which was given the initial data.
   */
  lemma LoadsAgree<T>(v: T, n: nat, acts: seq<Action<T>>, i: nat)
    requires ValidRun(Init(v, n), acts)
    requires i < |Exec(Init(v, n), acts).results| && Exec(Init(v, n), acts).results[i].LoadOk?
    ensures |Outputs(acts)| == 1 && Outputs(acts)[0].Some?
    ensures Exec(Init(v, n), acts).results[i].result == Clean(Outputs(acts)[0].value)
    ensures Exec(Init(v, n), acts).works == [Work(Clean(v), Outputs(acts)[0])]
  {
    hide Apply, Enabled;
    ReachableInv(v, n, acts);
    WorksAreLogged(Init(v, n), acts);
    var s := Exec(Init(v, n), acts);
    assert ReturnOk(s, s.results[i]);
    assert OutputsOf(s.works) == Outputs(acts);
    assert OutputsOf(s.works)[0] == s.works[0].output;
  }

  // ---------- One loader, one path through the states ----------

  function CasWins<T>(acts: seq<Action<T>>): nat {
    if acts == [] then 0 else (if acts[0].CasWin? then 1 else 0) + CasWins(acts[1..])
  }

  function Values(h: seq<Message>): seq<nat> { seq(|h|, i requires 0 <= i < |h| => h[i].value) }

  lemma {:induction false} WinsAreInHistory<T>(s: State<T>, acts: seq<Action<T>>)
    requires Inv(s) && ValidRun(s, acts)
    ensures s.history <= Exec(s, acts).history
    ensures CasWins(acts) == (if |s.history| == 1 && |Exec(s, acts).history| > 1 then 1 else 0)
    decreases |acts|
  {
    hide Apply, Enabled;
    if acts != [] {
      StepKeepsInv(s, acts[0]);
      StepGrowsHistory(s, acts[0]);
      WinsAreInHistory(Apply(s, acts[0]), acts[1..]);
    }
  }

  /** Writes to `state` only ever go to the end of its modification order. */
  lemma StepGrowsHistory<T>(s: State<T>, a: Action<T>)
    requires Inv(s) && Enabled(s, a)
    ensures s.history <= Apply(s, a).history
    ensures a.CasWin? <==> |s.history| == 1 && |Apply(s, a).history| > 1
    ensures a.Publish? <==> |s.history| < 3 && |Apply(s, a).history| == 3
  {
    match a
    case CasWin(t, m) =>
      CasWinsOnce(s, t, m);
    case Publish(t, at) =>
      OwnerIsThread(s, t);
      PublishKeepsInv(s, t, at);
    case _ =>
  }

  /**
    `state` goes ON_DISK, LOADING, IN_MEMORY and nowhere else; at most one exchange succeeds and
    at most one `work` call finishes in the life of the latch; at most one thread is the loader;
    no load falls into the "Invalid state" arm.
   */
  lemma OneLoader<T>(v: T, n: nat, acts: seq<Action<T>>)
    requires ValidRun(Init(v, n), acts)
    ensures var s := Exec(Init(v, n), acts);
      && Values(s.history) <= [ON_DISK, LOADING, IN_MEMORY]
      && CasWins(acts) <= 1 && |Outputs(acts)| <= CasWins(acts)
      && (forall t, u :: 0 <= t < |s.threads| && 0 <= u < |s.threads| ==>
        Owns(s.threads[t].pc) && Owns(s.threads[u].pc) ==> t == u)
      && (forall i :: 0 <= i < |s.results| ==> !s.results[i].InvalidState?)
  {
    hide Apply, Enabled;
    var s := Exec(Init(v, n), acts);
    InitInv(v, n);
    ReachableInv(v, n, acts);
    WinsAreInHistory(Init(v, n), acts);
    WorksAreLogged(Init(v, n), acts);
    assert OutputsOf(s.works) == Outputs(acts);
    forall t, u | 0 <= t < |s.threads| && 0 <= u < |s.threads| && Owns(s.threads[t].pc) && Owns(s.threads[u].pc)
      ensures t == u
    {
      OwnerIsThread(s, t);
    }
    forall i | 0 <= i < |s.results|
      ensures !s.results[i].InvalidState?
    {
      assert ReturnOk(s, s.results[i]);
    }
  }

  /** How many compare-exchanges thread `t` has made since it last started a load. */
  function Attempts<T>(acts: seq<Action<T>>, t: nat): nat {
    if acts == [] then 0
    else
      var last := acts[|acts| - 1];
      if last == StartLoad(t) then 0
      else (if last.t == t && (last.CasWin? || last.CasLose?) then 1 else 0) + Attempts(acts[..|acts| - 1], t)
  }

  lemma StepCountsTries<T>(s: State<T>, a: Action<T>, t: nat)
    requires Enabled(s, a) && t < |s.threads|
    ensures |Apply(s, a).threads| == |s.threads|
    ensures Apply(s, a).threads[t].tries ==
      if a == StartLoad(t) then 0
      else s.threads[t].tries + if a.t == t && (a.CasWin? || a.CasLose?) then 1 else 0
  {
  }

  lemma {:induction false} TriesAreAttempts<T>(v: T, n: nat, acts: seq<Action<T>>, t: nat)
    requires ValidRun(Init(v, n), acts) && t < n
    ensures t < |Exec(Init(v, n), acts).threads| && Exec(Init(v, n), acts).threads[t].tries == Attempts(acts, t)
    decreases |acts|
  {
    hide Apply, Enabled;
    if acts != [] {
      var k := |acts| - 1;
      assert acts == acts[..k] + [acts[k]];
      RunSplits(Init(v, n), acts[..k], [acts[k]]);
      TriesAreAttempts(v, n, acts[..k], t);
      var s := Exec(Init(v, n), acts[..k]);
      assert [acts[k]][1..] == [];
      assert Exec(s, [acts[k]]) == Apply(s, acts[k]);
      StepCountsTries(s, acts[k], t);
    }
  }

  /**
    One call of load makes at most one compare-exchange: losing it shows the caller a later state,
    and coherence keeps it from reading ON_DISK again.
   */
  lemma CasAtMostOncePerCall<T>(v: T, n: nat, acts: seq<Action<T>>, t: nat)
    requires ValidRun(Init(v, n), acts) && t < n
    ensures Attempts(acts, t) <= 1
  {
    ReachableInv(v, n, acts);
    TriesAreAttempts(v, n, acts, t);
    var s := Exec(Init(v, n), acts);
    assert ThreadOk(s, s.threads[t]);
  }

  // ---------- Races ----------

  /**
    A thread on the fast path has the loader's write in its view and no write is in progress or
    can begin, whatever the others do; and no load has returned before that write was published.
   */
  lemma FastPathDoesNotRace<T>(v: T, n: nat, acts: seq<Action<T>>, t: nat)
    requires ValidRun(Init(v, n), acts) && t < n
    ensures var s := Exec(Init(v, n), acts);
      && t < |s.threads|
      && (s.threads[t].pc.AtFast? || s.threads[t].pc.FastReading? ==>
        && KnowsData(s, s.threads[t])
        && forall u, w: T :: !Enabled(s, BeginWrite(u)) && !Enabled(s, EndWrite(u)) && !Enabled(s, WorkOk(u, w)))
      && (s.writer.Some? ==> |s.history| == 2 && forall i :: 0 <= i < |s.results| ==> !s.results[i].LoadOk?)
  {
    var s := Exec(Init(v, n), acts);
    ReachableInv(v, n, acts);
    ThreadsStay(Init(v, n), acts);
    assert ThreadOk(s, s.threads[t]);
    forall i | 0 <= i < |s.results| && s.writer.Some?
      ensures !s.results[i].LoadOk?
    {
      assert ReturnOk(s, s.results[i]);
    }
  }

  /** Thread `t` takes a step of its own. */
  ghost predicate Moves<T>(a: Action<T>, t: nat) { a.t == t && !a.Gain? }

  lemma OthersKeepPc<T>(s: State<T>, a: Action<T>, t: nat)
    requires Enabled(s, a) && t < |s.threads| && !Moves(a, t)
    ensures |Apply(s, a).threads| == |s.threads| && Apply(s, a).threads[t].pc == s.threads[t].pc
  {
  }

  lemma StepKeepsThreads<T>(s: State<T>, a: Action<T>)
    requires Enabled(s, a)
    ensures |Apply(s, a).threads| == |s.threads|
  {
  }

  lemma {:induction false} ThreadsStay<T>(s: State<T>, acts: seq<Action<T>>)
    requires ValidRun(s, acts)
    ensures |Exec(s, acts).threads| == |s.threads|
    decreases |acts|
  {
    hide Apply, Enabled;
    if acts != [] {
      StepKeepsThreads(s, acts[0]);
      ThreadsStay(Apply(s, acts[0]), acts[1..]);
    }
  }

  // ---------- Every call returns ----------

  /** How a call ends, and whose: `load` with a value, `load` with an error, or `peek`. */
  datatype Ending = WithValue(t: nat) | WithError(t: nat) | WithPeek(t: nat)

  function EndingOf<T>(r: Return<T>): Ending {
    match r
    case LoadOk(t, _) => WithValue(t)
    case WorkFailed(t) => WithError(t)
    case InvalidState(t) => WithError(t)
    case Peeked(t, _, _) => WithPeek(t)
  }

  function EndingsOf<T>(results: seq<Return<T>>): (r: seq<Ending>)
    ensures |r| == |results|
  {
    seq(|results|, i requires 0 <= i < |results| => EndingOf(results[i]))
  }

  /**
    The call that a step ends: a load with a value by the end of its data read or by its
    publishing store, a load with an error by the failure of its `work`.
   */
  function EndedBy<T>(a: Action<T>): seq<Ending> {
    match a
    case EndFast(t) => [WithValue(t)]
    case Publish(t, _) => [WithValue(t)]
    case WorkErr(t) => [WithError(t)]
    case EndPeek(t) => [WithPeek(t)]
    case _ => []
  }

  function Endings<T>(acts: seq<Action<T>>): seq<Ending> {
    if acts == [] then [] else EndedBy(acts[0]) + Endings(acts[1..])
  }

  lemma StepEnds<T>(s: State<T>, a: Action<T>)
    requires Inv(s) && Enabled(s, a)
    ensures EndingsOf(Apply(s, a).results) == EndingsOf(s.results) + EndedBy(a)
  {
    if a.ReadState? {
      AcquireKeepsThreadOk(s, a.t, a.m);
    }
  }

  lemma {:induction false} RunEnds<T>(s: State<T>, acts: seq<Action<T>>)
    requires Inv(s) && ValidRun(s, acts)
    ensures EndingsOf(Exec(s, acts).results) == EndingsOf(s.results) + Endings(acts)
    decreases |acts|
  {
    hide Apply, Enabled, Inv, EndingsOf, EndedBy;
    if acts != [] {
      StepEnds(s, acts[0]);
      StepKeepsInv(s, acts[0]);
      RunEnds(Apply(s, acts[0]), acts[1..]);
    }
  }

  /** How many calls of `load`, and how many of `peek`, have returned to thread `t`. */
  function LoadReturns<T>(results: seq<Return<T>>, t: nat): nat {
    if results == [] then 0
    else
      var last := results[|results| - 1];
      LoadReturns(results[..|results| - 1], t) + if last.t == t && !last.Peeked? then 1 else 0
  }

  function PeekReturns<T>(results: seq<Return<T>>, t: nat): nat {
    if results == [] then 0
    else
      var last := results[|results| - 1];
      PeekReturns(results[..|results| - 1], t) + if last.t == t && last.Peeked? then 1 else 0
  }

  /** Inside a call of `peek`. */
  predicate InPeek<T>(pc: Pc<T>) { pc.AtPeek? || pc.AtPeekRead? || pc.PeekReading? }

  ghost predicate Balanced<T>(s: State<T>, acts: seq<Action<T>>, t: nat) {
    && t < |s.threads|
    && multiset(acts)[StartLoad(t)] == LoadReturns(s.results, t) + (if InLoad(s.threads[t].pc) then 1 else 0)
    && multiset(acts)[StartPeek(t)] == PeekReturns(s.results, t) + (if InPeek(s.threads[t].pc) then 1 else 0)
    && multiset(s.results)[WorkFailed(t)] == multiset(acts)[WorkErr(t)]
  }

  /** A step either returns nothing and leaves the thread in its call, or returns once and ends the call. */
  ghost predicate Answered<T>(s: State<T>, a: Action<T>, r: State<T>)
    requires a.t < |s.threads| == |r.threads|
  {
    var pc, after := s.threads[a.t].pc, r.threads[a.t].pc;
    if r.results == s.results then
      && !a.WorkErr? && (a.StartLoad? || a.StartPeek? ==> pc == Idle)
      && (InLoad(after) <==> InLoad(pc) || a.StartLoad?) && (InPeek(after) <==> InPeek(pc) || a.StartPeek?)
    else
      && |r.results| == |s.results| + 1 && s.results <= r.results && after == Idle
      && !a.StartLoad? && !a.StartPeek?
      && var last := r.results[|s.results|];
         last.t == a.t && (InPeek(pc) <==> last.Peeked?) && (InLoad(pc) <==> !last.Peeked?)
         && (last.WorkFailed? <==> a.WorkErr?)
  }

  lemma StepIsAnswered<T>(s: State<T>, a: Action<T>)
    requires Enabled(s, a)
    ensures a.t < |s.threads| == |Apply(s, a).threads| && Answered(s, a, Apply(s, a))
  {
  }

  lemma StepBalances<T>(s: State<T>, acts: seq<Action<T>>, a: Action<T>, t: nat)
    requires Balanced(s, acts, t) && Enabled(s, a)
    ensures Balanced(Apply(s, a), acts + [a], t)
  {
    hide Apply, Enabled, LoadReturns, PeekReturns, InLoad, InPeek, Answered;
    StepIsAnswered(s, a);
    if a.t != t {
      OthersKeepPc(s, a, t);
    }
    AnsweredBalances(s, acts, a, t, Apply(s, a));
  }

  lemma AnsweredBalances<T>(s: State<T>, acts: seq<Action<T>>, a: Action<T>, t: nat, r: State<T>)
    requires Balanced(s, acts, t) && a.t < |s.threads| == |r.threads| && Answered(s, a, r)
    requires a.t != t ==> r.threads[t].pc == s.threads[t].pc
    ensures Balanced(r, acts + [a], t)
  {
    hide InLoad, InPeek, LoadReturns, PeekReturns;
    OneMoreStep(acts, a, t);
    if r.results != s.results {
      var last := r.results[|s.results|];
      assert r.results == s.results + [last];
      OneMoreReturn(s.results, last, t);
    }
    IdleIsInNoCall<T>();
  }

  lemma IdleIsInNoCall<T>()
    ensures !InLoad<T>(Idle) && !InPeek<T>(Idle)
  {
  }

  lemma OneMoreStep<T>(acts: seq<Action<T>>, a: Action<T>, t: nat)
    ensures var x := multiset(acts + [a]);
      && x[StartLoad(t)] == multiset(acts)[StartLoad(t)] + (if a == StartLoad(t) then 1 else 0)
      && x[StartPeek(t)] == multiset(acts)[StartPeek(t)] + (if a == StartPeek(t) then 1 else 0)
      && x[WorkErr(t)] == multiset(acts)[WorkErr(t)] + (if a == WorkErr(t) then 1 else 0)
  {
  }

  lemma OneMoreReturn<T>(results: seq<Return<T>>, last: Return<T>, t: nat)
    ensures var r := results + [last];
      && LoadReturns(r, t) == LoadReturns(results, t) + (if last.t == t && !last.Peeked? then 1 else 0)
      && PeekReturns(r, t) == PeekReturns(results, t) + (if last.t == t && last.Peeked? then 1 else 0)
      && multiset(r)[WorkFailed(t)] == multiset(results)[WorkFailed(t)] + (if last == WorkFailed(t) then 1 else 0)
  {
    assert (results + [last])[..|results|] == results;
  }

  /**
    Every call returns once: at any point of any run the loads and the peeks that a thread has
    begun are those that have returned to it, plus the one it is in; and each failure of `work`
    has been returned as an error to the thread whose `work` it was.
   */
  lemma {:induction false} CallsReturnOnce<T>(v: T, n: nat, acts: seq<Action<T>>, t: nat)
    requires ValidRun(Init(v, n), acts) && t < n
    ensures Balanced(Exec(Init(v, n), acts), acts, t)
    decreases |acts|
  {
    hide Apply, Enabled;
    if acts != [] {
      var k := |acts| - 1;
      assert acts == acts[..k] + [acts[k]];
      RunSplits(Init(v, n), acts[..k], [acts[k]]);
      CallsReturnOnce(v, n, acts[..k], t);
      var s := Exec(Init(v, n), acts[..k]);
      assert [acts[k]][1..] == [];
      assert Exec(s, [acts[k]]) == Apply(s, acts[k]);
      StepBalances(s, acts[..k], acts[k], t);
    }
  }

  /** The calls end in the order of the schedule, each as its last step says; no other returns come out. */
  lemma ReturnsAreEndings<T>(v: T, n: nat, acts: seq<Action<T>>)
    requires ValidRun(Init(v, n), acts)
    ensures EndingsOf(Exec(Init(v, n), acts).results) == Endings(acts)
  {
    hide Apply, Enabled;
    InitInv(v, n);
    RunEnds(Init(v, n), acts);
  }

  /**
    A load whose `work` fails returns the error at once: over every run each thread gets as many
    errors as its `work` has failed, and right after such a failure it has the error and is out
    of `load`.
   */
  lemma FailedLoadReturns<T>(v: T, n: nat, acts: seq<Action<T>>, t: nat)
    requires ValidRun(Init(v, n), acts) && t < n
    ensures var s := Exec(Init(v, n), acts);
      && |s.threads| == n
      && multiset(s.results)[WorkFailed(t)] == multiset(acts)[WorkErr(t)]
      && (acts != [] && acts[|acts| - 1] == WorkErr(t) ==>
        !InLoad(s.threads[t].pc) && s.results != [] && s.results[|s.results| - 1] == WorkFailed(t))
  {
    hide Apply, Enabled;
    ThreadsStay(Init(v, n), acts);
    CallsReturnOnce(v, n, acts, t);
    if acts != [] && acts[|acts| - 1] == WorkErr(t) {
      var k := |acts| - 1;
      assert acts == acts[..k] + [acts[k]];
      RunSplits(Init(v, n), acts[..k], [acts[k]]);
      var s := Exec(Init(v, n), acts[..k]);
      assert [acts[k]][1..] == [];
      assert Exec(s, [acts[k]]) == Apply(s, acts[k]);
      StepIsAnswered(s, acts[k]);
    }
  }

  // ---------- A failed load ----------

  lemma FailedStep<T>(s: State<T>, a: Action<T>)
    requires Inv(s) && Failed(s) && Enabled(s, a)
    ensures Failed(Apply(s, a)) && Apply(s, a).history == s.history
    ensures s.results <= Apply(s, a).results
    ensures forall i :: |s.results| <= i < |Apply(s, a).results| ==> Apply(s, a).results[i].Peeked?
  {
    assert ThreadOk(s, s.threads[a.t]);
    StepKeepsInv(s, a);
    StepGrowsHistory(s, a);
  }

  /**
    Once `work` has failed, the latch stays LOADING for ever, with no owner: in any continuation
    no load that is waiting, and none that is started, returns at all.
   */
  lemma {:induction false} FailureIsForever<T>(s: State<T>, acts: seq<Action<T>>)
    requires Inv(s) && Failed(s) && ValidRun(s, acts)
    ensures var r := Exec(s, acts);
      && Failed(r) && r.history == s.history && s.results <= r.results
      && forall i :: |s.results| <= i < |r.results| ==> r.results[i].Peeked?
    decreases |acts|
  {
    hide Apply, Enabled;
    if acts != [] {
      FailedStep(s, acts[0]);
      StepKeepsInv(s, acts[0]);
      FailureIsForever(Apply(s, acts[0]), acts[1..]);
    }
  }

  /** The latch is in that state exactly when some `work` call of the run has failed. */
  lemma FailedIffWorkFailed<T>(v: T, n: nat, acts: seq<Action<T>>)
    requires ValidRun(Init(v, n), acts)
    ensures Failed(Exec(Init(v, n), acts)) <==> Outputs(acts) == [None]
  {
    hide Apply, Enabled;
    var s := Exec(Init(v, n), acts);
    ReachableInv(v, n, acts);
    WorksAreLogged(Init(v, n), acts);
    assert OutputsOf(s.works) == Outputs(acts);
    if Outputs(acts) == [None] {
      assert OutputsOf(s.works)[0] == s.works[0].output;
    }
  }

  // ---------- The back-off counter ----------

  function EraseSpin<T>(s: State<T>): State<T> {
    s.(threads := seq(|s.threads|, t requires 0 <= t < |s.threads| => s.threads[t].(spin := 0)))
  }

  lemma SpinDoesNotEnable<T>(s: State<T>, r: State<T>, a: Action<T>)
    requires EraseSpin(s) == EraseSpin(r) && Enabled(s, a)
    ensures Enabled(r, a)
  {
    SameUpToSpin(s, r);
  }

  lemma SpinIsNotReadBy<T>(s: State<T>, r: State<T>, a: Action<T>, t: nat)
    requires |s.threads| == |r.threads| && r == s.(threads := r.threads) && t < |s.threads|
    requires forall u :: 0 <= u < |s.threads| ==> r.threads[u] == s.threads[u].(spin := r.threads[u].spin)
    requires Enabled(s, a) && Enabled(r, a)
    ensures |Apply(s, a).threads| == |Apply(r, a).threads| == |s.threads|
    ensures Apply(s, a).threads[t].(spin := 0) == Apply(r, a).threads[t].(spin := 0)
  {
  }

  lemma SpinIsNotShared<T>(s: State<T>, r: State<T>, a: Action<T>)
    requires |s.threads| == |r.threads| && r == s.(threads := r.threads)
    requires forall u :: 0 <= u < |s.threads| ==> r.threads[u] == s.threads[u].(spin := r.threads[u].spin)
    requires Enabled(s, a) && Enabled(r, a)
    ensures Apply(s, a) == Apply(r, a).(threads := Apply(s, a).threads)
  {
  }

  lemma SpinIsNotRead<T>(s: State<T>, r: State<T>, a: Action<T>)
    requires EraseSpin(s) == EraseSpin(r) && Enabled(s, a)
    ensures Enabled(r, a) && EraseSpin(Apply(s, a)) == EraseSpin(Apply(r, a))
  {
    SameUpToSpin(s, r);
    SpinDoesNotEnable(s, r, a);
    hide Apply, Enabled;
    StepKeepsThreads(s, a);
    SpinIsNotShared(s, r, a);
    var x, y := Apply(s, a), Apply(r, a);
    StepKeepsThreads(r, a);
    forall t | 0 <= t < |x.threads|
      ensures x.threads[t].(spin := 0) == y.threads[t].(spin := 0)
    {
      SpinIsNotReadBy(s, r, a, t);
    }
  }

  lemma SameUpToSpin<T>(s: State<T>, r: State<T>)
    requires EraseSpin(s) == EraseSpin(r)
    ensures |s.threads| == |r.threads| && r == s.(threads := r.threads)
    ensures forall t :: 0 <= t < |s.threads| ==> r.threads[t] == s.threads[t].(spin := r.threads[t].spin)
  {
    assert r == EraseSpin(r).(threads := r.threads);
    forall t | 0 <= t < |s.threads|
      ensures r.threads[t] == s.threads[t].(spin := r.threads[t].spin)
    {
      assert EraseSpin(s).threads[t] == EraseSpin(r).threads[t];
    }
  }

  /** Whatever the wrapping counters hold, the same schedule gives the same returns. */
  lemma {:induction false} SpinNeverMatters<T>(s: State<T>, r: State<T>, acts: seq<Action<T>>)
    requires EraseSpin(s) == EraseSpin(r) && ValidRun(s, acts)
    ensures ValidRun(r, acts) && Exec(s, acts).results == Exec(r, acts).results
    decreases |acts|
  {
    hide Apply, Enabled;
    if acts == [] {
      SameUpToSpin(s, r);
    } else {
      SpinIsNotRead(s, r, acts[0]);
      SpinNeverMatters(Apply(s, acts[0]), Apply(r, acts[0]), acts[1..]);
    }
  }

  // ---------- One load from start to end ----------

  /** Thread 0 finds the page on disk, loads it and publishes it. */
  function SoloRun<T>(w: T): seq<Action<T>> {
    [StartLoad(0), ReadState(0, 0), CasWin(0, 0), CloneInput(0),
     WorkOk(0, w), BeginWrite(0), EndWrite(0), Publish(0, 2)]
  }

  /** The state after the first `i` of these steps, in which only thread 0 has moved. */
  function SoloState<T>(v: T, w: T, n: nat, i: nat): State<T>
    requires n > 0
  {
    var disk := Message(ON_DISK, 0, false);
    var loading := [disk, Message(LOADING, 0, true)];
    var idle := Init(v, n).threads;
    var done := [Work(Clean(v), Some(w))];
    if i == 0 then Init(v, n)
    else if i == 1 then State([disk], [v], None, idle[0 := Thread(AtState, 0, 0, 0, 0)], [], [])
    else if i == 2 then State([disk], [v], None, idle[0 := Thread(AtCas, 0, 0, 0, 0)], [], [])
    else if i == 3 then State(loading, [v], None, idle[0 := Thread(AtClone, 1, 0, 0, 1)], [], [])
    else if i == 4 then State(loading, [v], None, idle[0 := Thread(Working(Clean(v)), 1, 0, 0, 1)], [], [])
    else if i == 5 then State(loading, [v], None, idle[0 := Thread(AtWrite(w), 1, 0, 0, 1)], done, [])
    else if i == 6 then State(loading, [v], Some(0), idle[0 := Thread(Writing(w), 1, 0, 0, 1)], done, [])
    else if i == 7 then State(loading, [v, w], None, idle[0 := Thread(AtStore(w), 1, 1, 0, 1)], done, [])
    else
      State(loading + [Message(IN_MEMORY, 1, false)], [v, w], None, idle[0 := Thread(Idle, 2, 1, 0, 1)], done,
            [LoadOk(0, Clean(w))])
  }

  lemma SoloStep<T>(v: T, w: T, n: nat, i: nat)
    requires n > 0 && i < 8
    ensures Enabled(SoloState(v, w, n, i), SoloRun(w)[i])
    ensures Apply(SoloState(v, w, n, i), SoloRun(w)[i]) == SoloState(v, w, n, i + 1)
  {
    if i < 2 {
      SoloFinds(v, w, n, i);
    } else if i == 2 {
      SoloWins(v, w, n);
    } else if i < 7 {
      SoloWrites(v, w, n, i);
    } else {
      SoloPublishes(v, w, n);
    }
  }

  lemma SoloFinds<T>(v: T, w: T, n: nat, i: nat)
    requires n > 0 && i < 2
    ensures Enabled(SoloState(v, w, n, i), SoloRun(w)[i])
    ensures Apply(SoloState(v, w, n, i), SoloRun(w)[i]) == SoloState(v, w, n, i + 1)
  {
    assert Apply(SoloState(v, w, n, i), SoloRun(w)[i]).threads == SoloState(v, w, n, i + 1).threads;
  }

  lemma SoloWins<T>(v: T, w: T, n: nat)
    requires n > 0
    ensures Enabled(SoloState(v, w, n, 2), SoloRun(w)[2])
    ensures Apply(SoloState(v, w, n, 2), SoloRun(w)[2]) == SoloState(v, w, n, 3)
  {
    assert Apply(SoloState(v, w, n, 2), SoloRun(w)[2]).threads == SoloState(v, w, n, 3).threads;
  }

  lemma SoloWrites<T>(v: T, w: T, n: nat, i: nat)
    requires n > 0 && 2 < i < 7
    ensures Enabled(SoloState(v, w, n, i), SoloRun(w)[i])
    ensures Apply(SoloState(v, w, n, i), SoloRun(w)[i]) == SoloState(v, w, n, i + 1)
  {
    assert Apply(SoloState(v, w, n, i), SoloRun(w)[i]).threads == SoloState(v, w, n, i + 1).threads;
  }

  lemma SoloPublishes<T>(v: T, w: T, n: nat)
    requires n > 0
    ensures Enabled(SoloState(v, w, n, 7), SoloRun(w)[7])
    ensures Apply(SoloState(v, w, n, 7), SoloRun(w)[7]) == SoloState(v, w, n, 8)
  {
    assert Apply(SoloState(v, w, n, 7), SoloRun(w)[7]).threads == SoloState(v, w, n, 8).threads;
  }

  lemma {:induction false} SoloRuns<T>(v: T, w: T, n: nat, i: nat)
    requires n > 0 && i <= 8
    ensures ValidRun(Init(v, n), SoloRun(w)[..i]) && Exec(Init(v, n), SoloRun(w)[..i]) == SoloState(v, w, n, i)
  {
    if i > 0 {
      SoloRuns(v, w, n, i - 1);
      SoloStep(v, w, n, i - 1);
      hide Apply, Enabled;
      RunExtends(Init(v, n), SoloRun(w)[..i - 1], SoloRun(w)[i - 1]);
      assert SoloRun(w)[..i] == SoloRun(w)[..i - 1] + [SoloRun(w)[i - 1]];
    }
  }
}
