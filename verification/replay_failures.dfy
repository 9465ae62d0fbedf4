/** Segments that fail to load: what the replay is told about them, and what becomes of them
    (`segmentLoadFinished`, `loadSegmentInRange`, tools/replay/replay.cc). */
module ReplayFailures {
  import opened Helpers
  import opened ReplayEvents
  import opened CacheWindow
  import opened ReplayEngine
  import opened ReplaySafety
  import opened ReplayRuns
  import opened ReplayExample
  import SegmentLoad

  // ---------------------------------------------------------------------------------------------
  // A failure nobody is told about

  /** The segment in slot n has failed, all its jobs are over, and no signal about it was ever sent. */
  ghost predicate Silent(st: Store, n: int) {
    && IsHeld(st, n)
    && var load := st.objs[st.segments[n].id].load;
      SegmentLoad.AllOver(load) && load.bad && load.delivered == []
  }

  /** A segment that is held, has failed and has no job left is silent exactly when no job was open at the moment its signal
      was connected. */
  lemma SilentExactlyWhen(s0: State, steps: seq<Step>, s: State, n: int)
    requires Init(s0) && Reaches(s0, steps, s) && s.main != Stopped && IsHeld(s.store, n)
    requires var load := s.store.objs[s.store.segments[n].id].load; SegmentLoad.AllOver(load) && load.bad
    ensures Silent(s.store, n) <==> !s.store.objs[s.store.segments[n].id].load.openAtConnect
  {
    InvReaches(s0, steps, s);
    SegmentLoad.ConnectedFacts(s.store.objs[s.store.segments[n].id].load);
  }

  /** The steps that take a segment out of its slot without a signal. */
  predicate TakesOut(a: Step, n: int) { a == OfMain(FreeOne(n)) || a == OfMain(StopDone) }

  /** Nothing else does: a silent failure stays where it is. */
  lemma SilentStays(s: State, a: Step, n: int)
    requires Inv(s) && s.main != Stopped && Silent(s.store, n) && Enabled(s, a) && !TakesOut(a, n)
    ensures Silent(Next(s, a).store, n)
  {
    match a
    case OfMain(m) => SilentStaysMain(s, m, n);
    case OfStream(t) => SilentStaysStream(s, t, n);
    case OfCamera(_) =>
    case OfWorker(w) => SilentStaysWorker(s, w, n);
  }

  lemma SilentStaysStream(s: State, a: StreamStep, n: int)
    requires StreamEnabled(s, a) && Silent(s.store, n)
    ensures Silent(StreamNext(s, a).store, n)
  {
    var t := StreamFrame(s, a);
  }

  lemma SilentStaysWorker(s: State, a: WorkerStep, n: int)
    requires StoreOk(s.store) && WorkerEnabled(s, a) && Silent(s.store, n)
    ensures Silent(WorkerNext(s, a).store, n)
  {
    SegmentLoad.ConnectedStep(s.store.objs[a.id].load, a.step);
  }

  lemma {:induction false} NextIsEmpty(st: Store, keys: seq<int>, seen: set<int>)
    ensures var r := NextToLoad(st, keys, seen);
      r.Some? ==> r.value in st.segments && st.segments[r.value].Empty?
  {
    if keys != [] {
      NextIsEmpty(st, keys[1..], seen);
    }
  }

  lemma SilentCreate(st: Store, n: int, m: int, obj: SegmentObj)
    requires Silent(st, n) && m in st.segments && st.segments[m].Empty?
    ensures Silent(Create(st, m, obj), n)
  {
  }

  lemma SilentRelease(st: Store, n: int, m: int)
    requires SlotsOk(st) && Silent(st, n) && IsHeld(st, m) && m != n
    ensures Silent(Release(st, m).(segments := st.segments[m := Empty]), n)
  {
  }

  lemma SilentDrop(st: Store, n: int, m: int)
    requires SlotsOk(st) && Silent(st, n) && m != n
    ensures Silent(Drop(st, m), n)
  {
  }

  /** The other steps of the main thread leave slots and objects alone. */
  lemma LeavesSegments(s: State, a: MainStep) returns (t: State)
    requires MainEnabled(s, a) && !OnSegments(a) && !a.StopDone?
    ensures t == MainNext(s, a) && t.store.segments == s.store.segments && t.store.objs == s.store.objs
  {
    t := MainNext(s, a);
  }

  lemma SilentStaysMain(s: State, a: MainStep, n: int)
    requires Inv(s) && s.main != Stopped && Silent(s.store, n) && MainEnabled(s, a) && !TakesOut(OfMain(a), n)
    ensures Silent(MainNext(s, a).store, n)
  {
    if OnSegments(a) {
      SilentStaysSegments(s, a, n);
    } else {
      var t := LeavesSegments(s, a);
    }
  }

  lemma SilentStaysSegments(s: State, a: MainStep, n: int)
    requires StoreOk(s.store) && MainOk(s.cfg, s.store, s.main) && MainEnabled(s, a) && OnSegments(a) && a != FreeOne(n)
    requires Silent(s.store, n)
    ensures Silent(MainNext(s, a).store, n)
  {
    if a.LoadForward? {
      var r := NextToLoad(s.store, s.main.w.forward, a.seen);
      NextIsEmpty(s.store, s.main.w.forward, a.seen);
      if r.Some? { SilentCreate(s.store, n, r.value, a.obj); }
    } else if a.LoadReverse? {
      var r := NextToLoad(s.store, s.main.w.reverse, a.seen);
      NextIsEmpty(s.store, s.main.w.reverse, a.seen);
      if r.Some? { SilentCreate(s.store, n, r.value, a.obj); }
    } else if a.FreeOne? {
      SilentRelease(s.store, n, a.n);
    } else {
      SilentDrop(s.store, n, s.main.n);
    }
  }

  /** However long the replay goes on: as long as the window does not move away from the segment, it is never loaded, never
      removed, and no signal about it is in the queue. */
  lemma {:induction false} SilentForEver(s: State, steps: seq<Step>, t: State, n: int)
    requires Inv(s) && s.main != Stopped && Silent(s.store, n) && Reaches(s, steps, t)
    requires forall a :: a in steps ==> !TakesOut(a, n)
    ensures Inv(t) && t.main != Stopped && Silent(t.store, n) && !IsLoaded(t.store, n)
    ensures forall p :: p in t.posted ==> p.id != t.store.segments[n].id
    decreases |steps|
  {
    if steps != [] {
      var k := |steps| - 1;
      var u :| Reaches(s, steps[..k], u) && Enabled(u, steps[k]) && t == Next(u, steps[k]);
      SilentForEver(s, steps[..k], u, n);
      assert steps[k] in steps;
      SilentStays(u, steps[k], n);
      InvStep(u, steps[k]);
      StopsOnlyAtStopDone(u, steps[k]);
    }
    SilentIsNotLoaded(t, n);
  }

  lemma StopsOnlyAtStopDone(s: State, a: Step)
    requires s.main != Stopped && Enabled(s, a) && a != OfMain(StopDone)
    ensures Next(s, a).main != Stopped
  {
  }

  lemma SilentIsNotLoaded(s: State, n: int)
    requires Inv(s) && s.main != Stopped && Silent(s.store, n)
    ensures !IsLoaded(s.store, n)
    ensures forall p :: p in s.posted ==> p.id != s.store.segments[n].id
  {
    SegmentLoad.ConnectedFacts(s.store.objs[s.store.segments[n].id].load);
  }

  /** And it blocks the scan: no segment behind it in the scan order is ever started. */
  lemma {:induction false} ScanStopsThere(st: Store, keys: seq<int>, k: nat, seen: set<int>)
    requires k < |keys| && IsHeld(st, keys[k]) && !IsLoaded(st, keys[k])
    requires forall n :: n in seen ==> IsLoaded(st, n)
    ensures NextToLoad(st, keys, seen) == NextToLoad(st, keys[..k], seen)
  {
    if k > 0 {
      ScanStopsThere(st, keys[1..], k - 1, seen);
      assert keys[1..][..k - 1] == keys[..k][1..];
    }
  }

  // ---------------------------------------------------------------------------------------------
  // A run in which a failure goes unnoticed

  /** One job, which failed and was over before the signal was connected. */
  const SILENT := SegmentLoad.State([SegmentLoad.Over], 0, true, true, true, false, [])

  lemma SilentLoad()
    ensures SegmentLoad.Reachable(SILENT)
  {
    var s0 := SegmentLoad.Init(1);
    var s1 := SegmentLoad.State([SegmentLoad.Running], 1, false, false, false, false, []);
    var s2 := SegmentLoad.State([SegmentLoad.Failed], 1, true, true, false, false, []);
    var s3 := SegmentLoad.State([SegmentLoad.Emitting], 0, true, true, false, false, []);
    var s4 := SegmentLoad.State([SegmentLoad.Over], 0, true, true, false, false, []);
    assert SegmentLoad.Run(1, [], s0);
    assert SegmentLoad.Next(s0, SegmentLoad.Start(0)) == s1;
    SegmentLoad.ReachableStep(s0, SegmentLoad.Start(0));
    assert SegmentLoad.Next(s1, SegmentLoad.Fail(0)) == s2;
    SegmentLoad.ReachableStep(s1, SegmentLoad.Fail(0));
    assert SegmentLoad.Next(s2, SegmentLoad.Decrement(0)) == s3;
    SegmentLoad.ReachableStep(s2, SegmentLoad.Decrement(0));
    assert SegmentLoad.Next(s3, SegmentLoad.Emit(0)) == s4;
    SegmentLoad.ReachableStep(s3, SegmentLoad.Emit(0));
    SegmentLoad.ReachableStep(s4, SegmentLoad.Connect);
  }

  lemma StartsSilently()
    ensures Leads(Snap(NOTHING, CTL, Forward(W(0)), NotStarted), OfMain(LoadForward({}, Obj(SILENT))),
                  Snap(Holding(SILENT), CTL, Merging(W(0)), NotStarted))
  {
    SilentLoad();
    assert NextToLoad(NOTHING, [0], {}) == Some(0);
  }

  /** A route of one segment whose only job fails before the signal is connected. */
  lemma FailureGoesUnnoticed() returns (s0: State, steps: seq<Step>, s: State)
    ensures Init(s0) && Reaches(s0, steps, s) && Silent(s.store, 0)
  {
    s0 := Snap(NOTHING, CTL, Idle, NotStarted);
    FirstWindow(s0);
    StartsSilently();
    s := Snap(Holding(SILENT), CTL, Merging(W(0)), NotStarted);
    GoesOn(s0, Snap(NOTHING, CTL, Forward(W(0)), NotStarted), OfMain(LoadForward({}, Obj(SILENT))), s);
    steps :| Reaches(s0, steps, s);
  }

  // ---------------------------------------------------------------------------------------------
  // A run in which the sender of a failure is gone

  const SIX_KEYS := [0, 1, 2, 3, 4, 5]
  const SIX := map[0 := Empty, 1 := Empty, 2 := Empty, 3 := Empty, 4 := Empty, 5 := Empty]
  const CTL6 := Control({}, false, false, false, false, 0, 0, 0, 0, 360.0, None)
  const SEEK := CTL6.(curSegment := 5, curMono := 300000000000, seeking := Some(300.0))

  const FAILED := SegmentLoad.State([SegmentLoad.Failed], 1, true, true, true, true, [])
  const FAIL_EMITTING := SegmentLoad.State([SegmentLoad.Emitting], 0, true, true, true, true, [])
  const FAIL_OVER := SegmentLoad.State([SegmentLoad.Over], 0, true, true, true, true, [false])

  function Bad(n: int, load: SegmentLoad.State, freed: bool): SegmentObj { SegmentObj(n, [], map[], load, freed) }

  const NOTHING6 := Store(SIX, [], {}, [], 0, {})

  function First(load: SegmentLoad.State): Store { Store(SIX[0 := Held(0)], [Bad(0, load, false)], {}, [], 0, {}) }

  const BOTH := Store(SIX[0 := Held(0)][5 := Held(1)], [Bad(0, FAIL_OVER, false), Bad(5, AT_WORK, false)], {}, [], 0, {})
  const LATER := Store(SIX[5 := Held(1)], [Bad(0, FAIL_OVER, true), Bad(5, AT_WORK, false)], {}, [], 0, {})

  ghost const WIN_A := Win(Elements([0, 1, 2, 3, 4]), 0, [0, 1, 2, 3, 4], [], 0)
  ghost const WIN_B := Win(Elements([1, 2, 3, 4, 5]), 5, [5], [4, 3, 2, 1], 1)

  lemma SixInOrder(segments: set<int>)
    requires segments == {0, 1, 2, 3, 4, 5}
    ensures IsOrderOf(SIX_KEYS, segments)
  {
    assert |segments| == 6;
    forall x
      ensures x in SIX_KEYS <==> x in segments
    {
      assert SIX_KEYS[0] == 0 && SIX_KEYS[1] == 1 && SIX_KEYS[2] == 2;
      assert SIX_KEYS[3] == 3 && SIX_KEYS[4] == 4 && SIX_KEYS[5] == 5;
    }
  }

  lemma OpensFirst()
    ensures Opened(NOTHING6, 0, 5) == Forward(WIN_A)
  {
    var segments := NOTHING6.segments.Keys;
    SixInOrder(segments);
    FirstPart(segments, SIX_KEYS);
    WindowIs(NOTHING6, 0, SIX_KEYS, 0, Window(0, 0, 5), WIN_A);
  }

  lemma FirstPart(segments: set<int>, keys: seq<int>)
    requires keys == SIX_KEYS && IsOrderOf(keys, segments)
    ensures WinOf(segments, keys, Window(0, 0, 5), 0) == WIN_A && LowerBound(keys, 0) == 0
  {
    WinIs(segments, keys, Window(0, 0, 5), 0, [0, 1, 2, 3, 4], [0, 1, 2, 3, 4], []);
  }

  lemma OpensSecond(st: Store)
    requires st == First(FAIL_OVER)
    ensures Opened(st, 5, 5) == Forward(WIN_B)
  {
    var segments := st.segments.Keys;
    SixInOrder(segments);
    SecondPart(segments, SIX_KEYS);
    WindowIs(st, 5, SIX_KEYS, 5, Window(1, 5, 6), WIN_B);
  }

  lemma SecondPart(segments: set<int>, keys: seq<int>)
    requires keys == SIX_KEYS && IsOrderOf(keys, segments)
    ensures WinOf(segments, keys, Window(1, 5, 6), 1) == WIN_B && LowerBound(keys, 5) == 5
  {
    WinIs(segments, keys, Window(1, 5, 6), 1, [1, 2, 3, 4, 5], [5], [4, 3, 2, 1]);
  }

  // Steps that any state of the right kind can take

  lemma UpdateLeads(s: State)
    requires s.main == Idle
    ensures Leads(s, OfMain(UpdateCache), s.(main := Update))
  {
  }

  lemma MergeNothingLeads(s: State, w: Win)
    requires s.main == Merging(w) && s.store.merged == {}
    ensures Leads(s, OfMain(Merge({})), s.(main := Freeing(w)))
  {
    assert w.inside * {} == {};
  }

  lemma FreeDoneLeads(s: State, w: Win)
    requires s.main == Freeing(w) && forall n :: IsHeld(s.store, n) ==> n in w.inside
    ensures Leads(s, OfMain(FreeDone), s.(main := Launch(w)))
  {
  }

  lemma LaunchNotLeads(s: State, w: Win)
    requires s.main == Launch(w)
    ensures Leads(s, OfMain(LaunchStream(false)), s.(main := Idle))
  {
  }

  lemma CheckLeads(s: State)
    requires s.main == Check(ToUpdate)
    ensures Leads(s, OfMain(CheckSeek(false)), s.(main := Update))
  {
  }

  function Six(st: Store, main: MainPc): State { Snap(st, CTL6, main, NotStarted) }

  /** The signal of the failed segment is in the queue. */
  function Told(st: Store, ctl: Control, main: MainPc): State {
    Snap(st, ctl, main, NotStarted).(posted := [Post(0, false)])
  }

  lemma LoadsFirst()
    ensures Leads(Six(NOTHING6, Forward(WIN_A)), OfMain(LoadForward({}, Bad(0, AT_WORK, false))),
                  Six(First(AT_WORK), Merging(WIN_A)))
  {
    AtWork();
    assert NextToLoad(NOTHING6, WIN_A.forward, {}) == Some(0);
  }

  lemma FirstInside(load: SegmentLoad.State)
    ensures forall n :: IsHeld(First(load), n) ==> n in WIN_A.inside
  {
    assert [0, 1, 2, 3, 4][0] in Elements([0, 1, 2, 3, 4]);
  }

  lemma FirstRound(s0: State)
    requires s0 == Six(NOTHING6, Idle)
    ensures Goes(s0, Six(First(AT_WORK), Merging(WIN_A)))
  {
    Begins(s0);
    UpdateLeads(s0);
    GoesOn(s0, s0, OfMain(UpdateCache), Six(NOTHING6, Update));
    OpensFirst();
    Opens(Six(NOTHING6, Update), Forward(WIN_A));
    GoesOn(s0, Six(NOTHING6, Update), OfMain(OpenWindow), Six(NOTHING6, Forward(WIN_A)));
    LoadsFirst();
    GoesOn(s0, Six(NOTHING6, Forward(WIN_A)), OfMain(LoadForward({}, Bad(0, AT_WORK, false))),
           Six(First(AT_WORK), Merging(WIN_A)));
  }

  lemma FirstRoundEnds(s0: State)
    requires Goes(s0, Six(First(AT_WORK), Merging(WIN_A)))
    ensures Goes(s0, Six(First(AT_WORK), Idle))
  {
    var st := First(AT_WORK);
    MergeNothingLeads(Six(st, Merging(WIN_A)), WIN_A);
    GoesOn(s0, Six(st, Merging(WIN_A)), OfMain(Merge({})), Six(st, Freeing(WIN_A)));
    FirstInside(AT_WORK);
    FreeDoneLeads(Six(st, Freeing(WIN_A)), WIN_A);
    GoesOn(s0, Six(st, Freeing(WIN_A)), OfMain(FreeDone), Six(st, Launch(WIN_A)));
    LaunchNotLeads(Six(st, Launch(WIN_A)), WIN_A);
    GoesOn(s0, Six(st, Launch(WIN_A)), OfMain(LaunchStream(false)), Six(st, Idle));
  }

  /** The first segment fails and says so. */
  lemma JobLeads(load: SegmentLoad.State, step: SegmentLoad.Step, after: SegmentLoad.State)
    requires SegmentLoad.Enabled(load, step) && SegmentLoad.Next(load, step) == after
    requires after.bad && after.delivered == load.delivered
    ensures Leads(Six(First(load), Idle), OfWorker(Work(0, step)), Six(First(after), Idle))
  {
    assert First(load).objs[0 := Bad(0, after, false)] == [Bad(0, after, false)];
  }

  lemma FailureLeads()
    ensures Leads(Six(First(FAIL_EMITTING), Idle), OfWorker(Work(0, SegmentLoad.Emit(0))), Told(First(FAIL_OVER), CTL6, Idle))
  {
    assert SegmentLoad.Next(FAIL_EMITTING, SegmentLoad.Emit(0)) == FAIL_OVER;
    assert First(FAIL_EMITTING).objs[0 := Bad(0, FAIL_OVER, false)] == [Bad(0, FAIL_OVER, false)];
  }

  lemma FirstFails(s0: State)
    requires Goes(s0, Six(First(AT_WORK), Idle))
    ensures Goes(s0, Told(First(FAIL_OVER), CTL6, Idle))
  {
    JobLeads(AT_WORK, SegmentLoad.Fail(0), FAILED);
    GoesOn(s0, Six(First(AT_WORK), Idle), OfWorker(Work(0, SegmentLoad.Fail(0))), Six(First(FAILED), Idle));
    JobLeads(FAILED, SegmentLoad.Decrement(0), FAIL_EMITTING);
    GoesOn(s0, Six(First(FAILED), Idle), OfWorker(Work(0, SegmentLoad.Decrement(0))), Six(First(FAIL_EMITTING), Idle));
    FailureLeads();
    GoesOn(s0, Six(First(FAIL_EMITTING), Idle), OfWorker(Work(0, SegmentLoad.Emit(0))), Told(First(FAIL_OVER), CTL6, Idle));
  }

  // Before the signal is delivered, a seek moves the window away

  lemma SeekLeads(st: Store)
    ensures Leads(Told(st, CTL6, Idle), OfMain(SeekTo(300.0)), Told(st, CTL6.(paused := true), Seeking(300.0)))
  {
  }

  lemma SeekApplies(st: Store)
    requires 5 in st.segments
    ensures Leads(Told(st, CTL6.(paused := true), Seeking(300.0)), OfMain(SeekApply), Told(st, SEEK, Check(ToUpdate)))
  {
    assert SeekSegment(300.0) == 5;
  }

  lemma SeekMoves(s0: State)
    requires Goes(s0, Told(First(FAIL_OVER), CTL6, Idle))
    ensures Goes(s0, Told(First(FAIL_OVER), SEEK, Forward(WIN_B)))
  {
    var st := First(FAIL_OVER);
    SeekLeads(st);
    GoesOn(s0, Told(st, CTL6, Idle), OfMain(SeekTo(300.0)), Told(st, CTL6.(paused := true), Seeking(300.0)));
    SeekApplies(st);
    GoesOn(s0, Told(st, CTL6.(paused := true), Seeking(300.0)), OfMain(SeekApply), Told(st, SEEK, Check(ToUpdate)));
    CheckLeads(Told(st, SEEK, Check(ToUpdate)));
    GoesOn(s0, Told(st, SEEK, Check(ToUpdate)), OfMain(CheckSeek(false)), Told(st, SEEK, Update));
    OpensSecond(st);
    Opens(Told(st, SEEK, Update), Forward(WIN_B));
    GoesOn(s0, Told(st, SEEK, Update), OfMain(OpenWindow), Told(st, SEEK, Forward(WIN_B)));
  }

  lemma LoadsSecond()
    ensures Leads(Told(First(FAIL_OVER), SEEK, Forward(WIN_B)), OfMain(LoadForward({}, Bad(5, AT_WORK, false))),
                  Told(BOTH, SEEK, Merging(WIN_B)))
  {
    AtWork();
    assert NextToLoad(First(FAIL_OVER), WIN_B.forward, {}) == Some(5);
    assert Create(First(FAIL_OVER), 5, Bad(5, AT_WORK, false)) == BOTH;
  }

  lemma FreesFirst()
    ensures Leads(Told(BOTH, SEEK, Freeing(WIN_B)), OfMain(FreeOne(0)), Told(LATER, SEEK, Freeing(WIN_B)))
  {
    var inside := [1, 2, 3, 4, 5];
    assert forall i :: 0 <= i < |inside| ==> inside[i] != 0;
    assert 0 !in WIN_B.inside;
    assert Release(BOTH, 0).(segments := BOTH.segments[0 := Empty]) == LATER by {
      assert BOTH.objs[0 := Bad(0, FAIL_OVER, true)] == LATER.objs;
    }
  }

  lemma SecondInside()
    ensures forall n :: IsHeld(LATER, n) ==> n in WIN_B.inside
  {
    assert [1, 2, 3, 4, 5][4] in Elements([1, 2, 3, 4, 5]);
  }

  lemma SecondRound(s0: State)
    requires Goes(s0, Told(First(FAIL_OVER), SEEK, Forward(WIN_B)))
    ensures Goes(s0, Told(LATER, SEEK, Idle))
  {
    LoadsSecond();
    GoesOn(s0, Told(First(FAIL_OVER), SEEK, Forward(WIN_B)), OfMain(LoadForward({}, Bad(5, AT_WORK, false))),
           Told(BOTH, SEEK, Merging(WIN_B)));
    MergeNothingLeads(Told(BOTH, SEEK, Merging(WIN_B)), WIN_B);
    GoesOn(s0, Told(BOTH, SEEK, Merging(WIN_B)), OfMain(Merge({})), Told(BOTH, SEEK, Freeing(WIN_B)));
    FreesFirst();
    GoesOn(s0, Told(BOTH, SEEK, Freeing(WIN_B)), OfMain(FreeOne(0)), Told(LATER, SEEK, Freeing(WIN_B)));
    SecondInside();
    FreeDoneLeads(Told(LATER, SEEK, Freeing(WIN_B)), WIN_B);
    GoesOn(s0, Told(LATER, SEEK, Freeing(WIN_B)), OfMain(FreeDone), Told(LATER, SEEK, Launch(WIN_B)));
    LaunchNotLeads(Told(LATER, SEEK, Launch(WIN_B)), WIN_B);
    GoesOn(s0, Told(LATER, SEEK, Launch(WIN_B)), OfMain(LaunchStream(false)), Told(LATER, SEEK, Idle));
  }

  /** A segment fails and its signal is queued; before it is delivered a seek moves the window away and the segment is freed.
      The delivery then reads a sender that is gone. */
  lemma SenderIsLost() returns (s0: State, steps: seq<Step>, s: State)
    ensures Init(s0) && Reaches(s0, steps, s)
    ensures Enabled(s, OfMain(Deliver)) && LosesSender(s, OfMain(Deliver)) && !SafeAccess(s, OfMain(Deliver))
  {
    s0 := Six(NOTHING6, Idle);
    FirstRound(s0);
    FirstRoundEnds(s0);
    FirstFails(s0);
    SeekMoves(s0);
    SecondRound(s0);
    s := Told(LATER, SEEK, Idle);
    steps :| Reaches(s0, steps, s);
  }
}
