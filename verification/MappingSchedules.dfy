/**
  Exactly which schedules of table operations are safe: those that never give one page id two
  handles. For any other schedule there is a run with those very operations that loads a page
  twice.
 */
module MappingSchedules {
  import opened Bytes
  import L = Latch
  import opened MappingTable

  // ---------- Runs in pieces ----------

  lemma {:induction false} RunsJoin(s: System, x: seq<SysAction>, y: seq<SysAction>)
    requires CanRun(s, x) && CanRun(DoAll(s, x), y)
    ensures CanRun(s, x + y) && DoAll(s, x + y) == DoAll(DoAll(s, x), y)
    decreases |x|
  {
    hide Do, Can;
    if x == [] {
      assert x + y == y;
    } else {
      assert (x + y)[1..] == x[1..] + y;
      RunsJoin(Do(s, x[0]), x[1..], y);
    }
  }

  lemma {:induction false} RunsSplit(s: System, x: seq<SysAction>, y: seq<SysAction>)
    requires CanRun(s, x + y)
    ensures CanRun(s, x) && CanRun(DoAll(s, x), y) && DoAll(s, x + y) == DoAll(DoAll(s, x), y)
    decreases |x|
  {
    hide Do, Can;
    if x == [] {
      assert x + y == y;
    } else {
      assert (x + y)[1..] == x[1..] + y;
      RunsSplit(Do(s, x[0]), x[1..], y);
    }
  }

  lemma Cons(s: System, x: SysAction, rest: seq<SysAction>)
    requires Can(s, x) && CanRun(Do(s, x), rest)
    ensures CanRun(s, [x] + rest) && DoAll(s, [x] + rest) == DoAll(Do(s, x), rest)
  {
    hide Do, Can;
    assert ([x] + rest)[1..] == rest;
  }

  // ---------- Table operations ----------

  predicate IsTableOp(x: SysAction) { x.NewEntry? || x.InsertEntry? }

  ghost predicate AllTableOps(xs: seq<SysAction>) { forall x :: x in xs ==> IsTableOp(x) }

  /** The schedule of table operations within a run. */
  function TableOps(xs: seq<SysAction>): (r: seq<SysAction>)
    ensures forall x :: x in r <==> x in xs && IsTableOp(x)
  {
    if xs == [] then []
    else
      assert xs == [xs[0]] + xs[1..];
      if IsTableOp(xs[0]) then [xs[0]] + TableOps(xs[1..]) else TableOps(xs[1..])
  }

  lemma {:induction false} TableOpsOfSum(x: seq<SysAction>, y: seq<SysAction>)
    ensures TableOps(x + y) == TableOps(x) + TableOps(y)
  {
    if x == [] {
      assert x + y == y;
    } else {
      assert (x + y)[1..] == x[1..] + y;
      TableOpsOfSum(x[1..], y);
    }
  }

  lemma {:induction false} TableOpsOfTableOps(xs: seq<SysAction>)
    requires AllTableOps(xs)
    ensures TableOps(xs) == xs
  {
    if xs != [] {
      assert xs[0] in xs && xs == [xs[0]] + xs[1..];
      TableOpsOfTableOps(xs[1..]);
    }
  }

  /** An entry nobody has touched. */
  ghost predicate Fresh(e: Entry, threads: nat) {
    |e.data| == 1 && e == L.Init(e.data[0], threads)
  }

  /** What table operations leave: old entries as they were, new ones fresh, the logs untouched. */
  ghost predicate TableMoved(s: System, r: System) {
    && r.threads == s.threads && r.loadings == s.loadings && |s.latches| <= |r.latches|
    && (forall h :: 0 <= h < |s.latches| ==> r.latches[h] == s.latches[h])
    && (forall h :: |s.latches| <= h < |r.latches| ==> Fresh(r.latches[h], s.threads))
  }

  lemma {:induction false} TableRun(s: System, xs: seq<SysAction>)
    requires AllTableOps(xs) && CanRun(s, xs)
    ensures TableMoved(s, DoAll(s, xs))
    decreases |xs|
  {
    if xs != [] {
      assert xs[0] in xs;
      assert TableMoved(s, Do(s, xs[0]));
      hide Do, Can;
      assert forall x :: x in xs[1..] ==> x in xs;
      TableRun(Do(s, xs[0]), xs[1..]);
    }
  }

  /** Whether table operations can run depends on the number of entries only. */
  lemma {:induction false} TableRunElsewhere(s: System, r: System, xs: seq<SysAction>)
    requires AllTableOps(xs) && CanRun(s, xs) && |r.latches| == |s.latches|
    ensures CanRun(r, xs) && |DoAll(r, xs).latches| == |DoAll(s, xs).latches|
    decreases |xs|
  {
    if xs != [] {
      assert xs[0] in xs;
      assert Can(r, xs[0]) && |Do(r, xs[0]).latches| == |Do(s, xs[0]).latches|;
      hide Do, Can;
      assert forall x :: x in xs[1..] ==> x in xs;
      TableRunElsewhere(Do(s, xs[0]), Do(r, xs[0]), xs[1..]);
    }
  }

  // ---------- Loading an entry just inserted ----------

  function LookUpAndLoad(t: nat, id: U64, h: nat): seq<SysAction> {
    [GetEntry(t, id), Load(t, id, h), Latched(h, L.ReadState(t, 0)), Latched(h, L.CasWin(t, 0))]
  }

  lemma FreshLatchCanBeWon(e: Entry, t: nat)
    requires Fresh(e, |e.threads|) && t < |e.threads|
    ensures L.Enabled(e, L.StartLoad(t))
    ensures var e1 := L.Apply(e, L.StartLoad(t));
      L.Enabled(e1, L.ReadState(t, 0)) && L.Enabled(L.Apply(e1, L.ReadState(t, 0)), L.CasWin(t, 0))
  {
  }

  /** What a load on entry `h` that wins its exchange leaves: one record, other entries untouched. */
  ghost predicate LoadedOnly(s: System, r: System, id: U64, h: nat) {
    && r.threads == s.threads && r.loadings == s.loadings + [Loading(id, h)] && |r.latches| == |s.latches|
    && forall g :: 0 <= g < |s.latches| && g != h ==> r.latches[g] == s.latches[g]
  }

  lemma LookUpAndLoadRuns(s: System, t: nat, id: U64, h: nat)
    requires t < s.threads && id in s.table && s.table[id] == h < |s.latches| && Fresh(s.latches[h], s.threads)
    ensures CanRun(s, LookUpAndLoad(t, id, h)) && LoadedOnly(s, DoAll(s, LookUpAndLoad(t, id, h)), id, h)
  {
    var e := s.latches[h];
    FreshLatchCanBeWon(e, t);
    var s1 := Do(s, GetEntry(t, id));
    var s2 := Do(s1, Load(t, id, h));
    var s3 := Do(s2, Latched(h, L.ReadState(t, 0)));
    assert s3.latches[h] == L.Apply(L.Apply(e, L.StartLoad(t)), L.ReadState(t, 0)) && s3.calls == s2.calls;
    var s4 := Do(s3, Latched(h, L.CasWin(t, 0)));
    assert LoadedOnly(s, s4, id, h);
    hide Do, Can;
    Cons(s3, Latched(h, L.CasWin(t, 0)), []);
    Cons(s2, Latched(h, L.ReadState(t, 0)), [Latched(h, L.CasWin(t, 0))]);
    Cons(s1, Load(t, id, h), [Latched(h, L.ReadState(t, 0)), Latched(h, L.CasWin(t, 0))]);
    Cons(s, GetEntry(t, id), [Load(t, id, h), Latched(h, L.ReadState(t, 0)), Latched(h, L.CasWin(t, 0))]);
  }

  /** A schedule up to an insert, followed by a lookup and a load of what was inserted. */
  function Stage(xs: seq<SysAction>, t: nat, id: U64, h: nat): seq<SysAction> {
    xs + [InsertEntry(id, h)] + LookUpAndLoad(t, id, h)
  }

  lemma StageRuns(s: System, xs: seq<SysAction>, t: nat, id: U64, h: nat)
    requires AllTableOps(xs) && CanRun(s, xs + [InsertEntry(id, h)]) && t < s.threads
    requires h < |s.latches| ==> Fresh(s.latches[h], s.threads)
    ensures CanRun(s, Stage(xs, t, id, h))
    ensures var r := DoAll(s, Stage(xs, t, id, h));
      && r.threads == s.threads && r.loadings == s.loadings + [Loading(id, h)]
      && |r.latches| == |DoAll(s, xs + [InsertEntry(id, h)]).latches|
      && forall g :: 0 <= g < |r.latches| && g != h && (g < |s.latches| ==> Fresh(s.latches[g], s.threads)) ==>
        Fresh(r.latches[g], s.threads)
  {
    var ys := xs + [InsertEntry(id, h)];
    var m := DoAll(s, ys);
    TableRun(s, ys);
    RunsSplit(s, xs, [InsertEntry(id, h)]);
    assert [InsertEntry(id, h)][1..] == [];
    assert m == Do(DoAll(s, xs), InsertEntry(id, h));
    hide Do, Can;
    LookUpAndLoadRuns(m, t, id, h);
    RunsJoin(s, ys, LookUpAndLoad(t, id, h));
  }

  // ---------- Two handles load twice ----------

  /** The second insert and load, and the rest of the schedule, after whatever came before. */
  lemma SecondStageRuns(s: System, y: seq<SysAction>, z: seq<SysAction>, u: nat, id: U64, g: nat)
    requires AllTableOps(y) && AllTableOps(z) && u < s.threads && CanRun(s, y + [InsertEntry(id, g)] + z)
    requires g < |s.latches| ==> Fresh(s.latches[g], s.threads)
    ensures CanRun(s, Stage(y, u, id, g) + z)
    ensures DoAll(s, Stage(y, u, id, g) + z).loadings == s.loadings + [Loading(id, g)]
  {
    hide Do, Can;
    var y1 := y + [InsertEntry(id, g)];
    RunsSplit(s, y1, z);
    StageRuns(s, y, u, id, g);
    var r := DoAll(s, Stage(y, u, id, g));
    hide Stage, Fresh;
    TableRunElsewhere(DoAll(s, y1), r, z);
    TableRun(r, z);
    RunsJoin(s, Stage(y, u, id, g), z);
  }

  lemma BothStagesRun(n: nat, x: seq<SysAction>, y: seq<SysAction>, z: seq<SysAction>, id: U64, h: nat, g: nat,
                      t: nat, u: nat)
    requires t < n && u < n && h != g && AllTableOps(x) && AllTableOps(y) && AllTableOps(z)
    requires CanRun(Start(n), x + [InsertEntry(id, h)] + (y + [InsertEntry(id, g)] + z))
    ensures var xs := Stage(x, t, id, h) + (Stage(y, u, id, g) + z);
      CanRun(Start(n), xs) && DoAll(Start(n), xs).loadings == [Loading(id, h), Loading(id, g)]
  {
    hide Do, Can;
    var x1, rest := x + [InsertEntry(id, h)], y + [InsertEntry(id, g)] + z;
    RunsSplit(Start(n), x1, rest);
    StageRuns(Start(n), x, t, id, h);
    var s := DoAll(Start(n), Stage(x, t, id, h));
    hide Stage, Fresh;
    assert AllTableOps(rest);
    TableRunElsewhere(DoAll(Start(n), x1), s, rest);
    SecondStageRuns(s, y, z, u, id, g);
    RunsJoin(Start(n), Stage(x, t, id, h), Stage(y, u, id, g) + z);
  }

  lemma {:induction false} TableOpsOfOthers(xs: seq<SysAction>)
    requires forall x :: x in xs ==> !IsTableOp(x)
    ensures TableOps(xs) == []
  {
    if xs != [] {
      assert xs[0] in xs;
      TableOpsOfOthers(xs[1..]);
    }
  }

  lemma StageTableOps(xs: seq<SysAction>, t: nat, id: U64, h: nat)
    requires AllTableOps(xs)
    ensures TableOps(Stage(xs, t, id, h)) == xs + [InsertEntry(id, h)]
  {
    TableOpsOfTableOps(xs + [InsertEntry(id, h)]);
    TableOpsOfOthers(LookUpAndLoad(t, id, h));
    TableOpsOfSum(xs + [InsertEntry(id, h)], LookUpAndLoad(t, id, h));
  }

  lemma BothStagesTableOps(x: seq<SysAction>, y: seq<SysAction>, z: seq<SysAction>, id: U64, h: nat, g: nat,
                           t: nat, u: nat)
    requires AllTableOps(x) && AllTableOps(y) && AllTableOps(z)
    ensures TableOps(Stage(x, t, id, h) + (Stage(y, u, id, g) + z)) ==
      x + [InsertEntry(id, h)] + (y + [InsertEntry(id, g)] + z)
  {
    StageTableOps(x, t, id, h);
    StageTableOps(y, u, id, g);
    TableOpsOfTableOps(z);
    hide Stage, TableOps;
    TableOpsOfSum(Stage(y, u, id, g), z);
    TableOpsOfSum(Stage(x, t, id, h), Stage(y, u, id, g) + z);
  }

  /** Two inserts of an id with different handles, found in a schedule, the earlier one first. */
  lemma FindTwoHandles(ins: seq<SysAction>) returns (i: nat, j: nat)
    requires !OneHandlePerId(ins)
    ensures i < j < |ins| && ins[i].InsertEntry? && ins[j].InsertEntry?
    ensures ins[i].id == ins[j].id && ins[i].h != ins[j].h
  {
    var id, h, g :| InsertEntry(id, h) in ins && InsertEntry(id, g) in ins && h != g;
    i :| 0 <= i < |ins| && ins[i] == InsertEntry(id, h);
    j :| 0 <= j < |ins| && ins[j] == InsertEntry(id, g);
    if j < i {
      i, j := j, i;
    }
  }

  /**
    For every schedule of table operations that gives an id two handles, some run with exactly
    those operations loads the page twice, by any two threads or twice by one.
   */
  lemma TwoHandlesLoadTwice(n: nat, ins: seq<SysAction>, t: nat, u: nat) returns (xs: seq<SysAction>)
    requires AllTableOps(ins) && CanRun(Start(n), ins) && !OneHandlePerId(ins) && t < n && u < n
    ensures CanRun(Start(n), xs) && TableOps(xs) == ins && !OneLoading(DoAll(Start(n), xs))
  {
    hide Do, Can, Stage, TableOps;
    var i, j := FindTwoHandles(ins);
    var id, h, g := ins[i].id, ins[i].h, ins[j].h;
    var x, y, z := ins[..i], ins[i + 1..j], ins[j + 1..];
    assert ins == x + [InsertEntry(id, h)] + (y + [InsertEntry(id, g)] + z);
    xs := Stage(x, t, id, h) + (Stage(y, u, id, g) + z);
    BothStagesRun(n, x, y, z, id, h, g, t, u);
    BothStagesTableOps(x, y, z, id, h, g, t, u);
    var loadings := DoAll(Start(n), xs).loadings;
    assert loadings[0].id == loadings[1].id;
  }

  /**
    A schedule of table operations loads no page twice, in any run that carries it out, if and
    only if it never gives one page id two handles.
   */
  lemma OneLoadIff(n: nat, ins: seq<SysAction>)
    requires n > 0 && AllTableOps(ins) && CanRun(Start(n), ins)
    ensures OneHandlePerId(ins) <==>
      forall xs :: CanRun(Start(n), xs) && TableOps(xs) == ins ==> OneLoading(DoAll(Start(n), xs))
  {
    if OneHandlePerId(ins) {
      forall xs | CanRun(Start(n), xs) && TableOps(xs) == ins
        ensures OneLoading(DoAll(Start(n), xs))
      {
        OneLoadPerPage(n, xs);
      }
    } else {
      var xs := TwoHandlesLoadTwice(n, ins, 0, 0);
    }
  }
}
