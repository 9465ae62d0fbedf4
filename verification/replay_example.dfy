/** Runs of the replay engine, which show that the conditions of its steps can be met: a segment is loaded and merged, the
    stream starts, and a frame of the segment is in the hands of a camera thread while the main thread waits to seek. */
module ReplayExample {
  import opened Helpers
  import opened ReplayEvents
  import opened CacheWindow
  import opened ReplayEngine
  import SegmentLoad

  // ---------------------------------------------------------------------------------------------
  // Runs, step by step

  const SETTINGS := Config(5, true, false, false, 2, 3, 4)

  function Snap(st: Store, ctl: Control, main: MainPc, stream: StreamPc): State {
    State(SETTINGS, st, NO_SERVER, ctl, main, stream, [])
  }

  const NO_CAM := Cam(0, false, [], None, [], [])
  const NO_SERVER := Server(false, 0, NO_CAM, NO_CAM, NO_CAM)

  ghost predicate Leads(s: State, a: Step, t: State) {
    Enabled(s, a) && Next(s, a) == t
  }

  ghost predicate Goes(s0: State, s: State) {
    exists steps :: Reaches(s0, steps, s)
  }

  lemma Begins(s0: State)
    ensures Goes(s0, s0)
  {
    assert Reaches(s0, [], s0);
  }

  lemma GoesOn(s0: State, s: State, a: Step, t: State)
    requires Goes(s0, s) && Leads(s, a, t)
    ensures Goes(s0, t)
  {
    var steps :| Reaches(s0, steps, s);
    assert (steps + [a])[..|steps|] == steps;
    assert Reaches(s0, steps + [a], t);
  }

  /** An ordered map has only one iteration order. */
  lemma {:induction false} OrderIsUnique(a: seq<int>, b: seq<int>, s: set<int>)
    requires IsOrderOf(a, s) && IsOrderOf(b, s)
    ensures a == b
  {
    forall i | 0 <= i < |a|
      ensures a[i] == b[i]
    {
      SamePlace(a, b, s, i);
    }
  }

  lemma {:induction false} SamePlace(a: seq<int>, b: seq<int>, s: set<int>, i: nat)
    requires IsOrderOf(a, s) && IsOrderOf(b, s) && i < |a|
    ensures a[i] == b[i]
  {
    forall k | 0 <= k < i
      ensures a[k] == b[k]
    {
      SamePlace(a, b, s, k);
    }
    assert a[i] in a && b[i] in b;
    var j :| 0 <= j < |b| && b[j] == a[i];
    var k :| 0 <= k < |a| && a[k] == b[i];
  }

  /** The window is computed from the segments, the current one and the limit. */
  lemma WindowIs(st: Store, target: int, keys: seq<int>, cur: nat, w: Window, win: Win)
    requires IsOrderOf(keys, st.segments.Keys)
    requires cur == LowerBound(keys, target) && cur < |keys| && w == WindowOf(|keys|, cur, 5)
    requires win == WinOf(st.segments.Keys, keys, w, |st.objs|)
    ensures Opened(st, target, 5) == Forward(win)
  {
    OrderIsUnique(Ordered(st.segments.Keys), keys, st.segments.Keys);
  }

  /** The parts of a window, spelled out. */
  lemma WinIs(segments: set<int>, keys: seq<int>, w: Window, before: nat, inside: seq<int>, forward: seq<int>, reverse: seq<int>)
    requires IsOrderOf(keys, segments) && w.begin <= w.cur < w.end <= |keys|
    requires keys[w.begin..w.end] == inside && keys[w.cur..w.end] == forward
    requires |reverse| == w.cur - w.begin && forall i :: 0 <= i < |reverse| ==> reverse[i] == keys[w.cur - 1 - i]
    ensures WinOf(segments, keys, w, before) == Win(Elements(inside), keys[w.cur], forward, reverse, before)
  {
    assert Backwards(keys[w.begin..w.cur]) == reverse;
  }

  lemma Opens(s: State, pc: MainPc)
    requires s.main == Update && Opened(s.store, s.ctl.curSegment, s.cfg.limit) == pc
    ensures Leads(s, OfMain(OpenWindow), s.(main := pc))
  {
  }

  // ---------------------------------------------------------------------------------------------
  // The first update starts a load

  /** The video frame of a road camera index. */
  const MSG := Event(2, 7, 0, 0, 0)
  const CTL := Control({2}, false, false, false, false, 0, 0, 0, 0, 60.0, None)

  /** One job, at work when the signal is connected; then about to emit; then over. */
  const AT_WORK := SegmentLoad.State([SegmentLoad.Running], 1, false, false, true, true, [])
  const DECREMENTED := SegmentLoad.State([SegmentLoad.Emitting], 0, false, false, true, true, [])
  const DONE := SegmentLoad.State([SegmentLoad.Over], 0, false, false, true, true, [true])

  function Obj(load: SegmentLoad.State): SegmentObj { SegmentObj(0, [MSG], map[Road := 10], load, false) }

  const NOTHING := Store(map[0 := Empty], [], {}, [], 0, {})

  function Holding(load: SegmentLoad.State): Store { Store(map[0 := Held(0)], [Obj(load)], {}, [], 0, {}) }

  const LOADING := Holding(AT_WORK)
  const READY := Holding(DONE)
  const MERGED := READY.(merged := {0}, events := [MSG], gen := 1, mergeSockets := {2})

  function W(before: nat): Win { Win({0}, 0, [0], [], before) }

  lemma AtWork()
    ensures SegmentLoad.Reachable(AT_WORK)
  {
    var s0 := SegmentLoad.Init(1);
    var s1 := SegmentLoad.Next(s0, SegmentLoad.Start(0));
    assert SegmentLoad.Run(1, [], s0);
    SegmentLoad.ReachableStep(s0, SegmentLoad.Start(0));
    assert s1.jobs == [SegmentLoad.Running];
    SegmentLoad.ReachableStep(s1, SegmentLoad.Connect);
    assert s1.jobs[0] != SegmentLoad.Over;
    assert SegmentLoad.Next(s1, SegmentLoad.Connect) == AT_WORK;
  }

  lemma OnlyZero()
    ensures IsOrderOf([0], {0}) && Elements([0]) == {0}
  {
    assert [0][0] in Elements([0]);
  }

  lemma ZeroKeys(segments: set<int>) returns (keys: seq<int>)
    requires segments == {0}
    ensures keys == [0] && IsOrderOf(keys, segments) && LowerBound(keys, 0) == 0
  {
    keys := [0];
    OnlyZero();
  }

  lemma TheWindow(segments: set<int>, keys: seq<int>, before: nat) returns (w: Window, win: Win)
    requires keys == [0] && IsOrderOf(keys, segments)
    ensures w == WindowOf(|keys|, 0, 5) && w.cur == 0
    ensures win == WinOf(segments, keys, w, before) && win == W(before)
  {
    w := Window(0, 0, 1);
    WinIs(segments, keys, w, before, keys, keys, []);
    OnlyZero();
    win := W(before);
  }

  lemma WindowOfZero(st: Store, before: nat)
    requires st.segments.Keys == {0} && |st.objs| == before
    ensures Opened(st, 0, 5) == Forward(W(before))
  {
    var keys := ZeroKeys(st.segments.Keys);
    var w, win := TheWindow(st.segments.Keys, keys, before);
    WindowIs(st, 0, keys, 0, w, win);
  }

  lemma Updates()
    ensures Leads(Snap(NOTHING, CTL, Idle, NotStarted), OfMain(UpdateCache), Snap(NOTHING, CTL, Update, NotStarted))
  {
  }

  lemma StartsLoad()
    ensures Leads(Snap(NOTHING, CTL, Forward(W(0)), NotStarted), OfMain(LoadForward({}, Obj(AT_WORK))),
                  Snap(LOADING, CTL, Merging(W(0)), NotStarted))
  {
    AtWork();
    assert NextToLoad(NOTHING, [0], {}) == Some(0);
  }

  lemma MergesNothing()
    ensures Leads(Snap(LOADING, CTL, Merging(W(0)), NotStarted), OfMain(Merge({})), Snap(LOADING, CTL, Freeing(W(0)), NotStarted))
  {
  }

  lemma Frees(st: Store, ctl: Control, before: nat)
    requires st.segments.Keys == {0}
    ensures Leads(Snap(st, ctl, Freeing(W(before)), NotStarted), OfMain(FreeDone), Snap(st, ctl, Launch(W(before)), NotStarted))
  {
  }

  lemma NotYet()
    ensures Leads(Snap(LOADING, CTL, Launch(W(0)), NotStarted), OfMain(LaunchStream(false)), Snap(LOADING, CTL, Idle, NotStarted))
  {
  }

  lemma Loads()
    ensures Leads(Snap(LOADING, CTL, Idle, NotStarted), OfWorker(Work(0, SegmentLoad.Decrement(0))),
                  Snap(Holding(DECREMENTED), CTL, Idle, NotStarted))
  {
    assert SegmentLoad.Next(AT_WORK, SegmentLoad.Decrement(0)) == DECREMENTED;
    assert LOADING.objs[0 := Obj(DECREMENTED)] == [Obj(DECREMENTED)];
  }

  lemma Emits()
    ensures Leads(Snap(Holding(DECREMENTED), CTL, Idle, NotStarted), OfWorker(Work(0, SegmentLoad.Emit(0))),
                  Snap(READY, CTL, Idle, NotStarted).(posted := [Post(0, true)]))
  {
    assert SegmentLoad.Next(DECREMENTED, SegmentLoad.Emit(0)) == DONE;
    assert Holding(DECREMENTED).objs[0 := Obj(DONE)] == [Obj(DONE)];
  }

  lemma Delivers()
    ensures Leads(Snap(READY, CTL, Idle, NotStarted).(posted := [Post(0, true)]), OfMain(Deliver),
                  Snap(READY, CTL, Update, NotStarted))
  {
  }

  lemma FirstWindow(s0: State)
    requires s0 == Snap(NOTHING, CTL, Idle, NotStarted)
    ensures Goes(s0, Snap(NOTHING, CTL, Forward(W(0)), NotStarted))
  {
    Begins(s0);
    Updates();
    GoesOn(s0, s0, OfMain(UpdateCache), Snap(NOTHING, CTL, Update, NotStarted));
    WindowOfZero(NOTHING, 0);
    Opens(Snap(NOTHING, CTL, Update, NotStarted), Forward(W(0)));
    GoesOn(s0, Snap(NOTHING, CTL, Update, NotStarted), OfMain(OpenWindow), Snap(NOTHING, CTL, Forward(W(0)), NotStarted));
  }

  lemma FirstScan(s0: State)
    requires s0 == Snap(NOTHING, CTL, Idle, NotStarted)
    ensures Goes(s0, Snap(LOADING, CTL, Merging(W(0)), NotStarted))
  {
    FirstWindow(s0);
    StartsLoad();
    GoesOn(s0, Snap(NOTHING, CTL, Forward(W(0)), NotStarted), OfMain(LoadForward({}, Obj(AT_WORK))),
           Snap(LOADING, CTL, Merging(W(0)), NotStarted));
  }

  lemma FirstUpdate(s0: State)
    requires s0 == Snap(NOTHING, CTL, Idle, NotStarted)
    ensures Goes(s0, Snap(READY, CTL, Update, NotStarted))
  {
    FirstScan(s0);
    MergesNothing();
    GoesOn(s0, Snap(LOADING, CTL, Merging(W(0)), NotStarted), OfMain(Merge({})), Snap(LOADING, CTL, Freeing(W(0)), NotStarted));
    Frees(LOADING, CTL, 0);
    GoesOn(s0, Snap(LOADING, CTL, Freeing(W(0)), NotStarted), OfMain(FreeDone), Snap(LOADING, CTL, Launch(W(0)), NotStarted));
    NotYet();
    GoesOn(s0, Snap(LOADING, CTL, Launch(W(0)), NotStarted), OfMain(LaunchStream(false)), Snap(LOADING, CTL, Idle, NotStarted));
    FirstSignal(s0);
  }

  lemma FirstSignal(s0: State)
    requires Goes(s0, Snap(LOADING, CTL, Idle, NotStarted))
    ensures Goes(s0, Snap(READY, CTL, Update, NotStarted))
  {
    Loads();
    GoesOn(s0, Snap(LOADING, CTL, Idle, NotStarted), OfWorker(Work(0, SegmentLoad.Decrement(0))),
           Snap(Holding(DECREMENTED), CTL, Idle, NotStarted));
    Emits();
    GoesOn(s0, Snap(Holding(DECREMENTED), CTL, Idle, NotStarted), OfWorker(Work(0, SegmentLoad.Emit(0))),
           Snap(READY, CTL, Idle, NotStarted).(posted := [Post(0, true)]));
    Delivers();
    GoesOn(s0, Snap(READY, CTL, Idle, NotStarted).(posted := [Post(0, true)]), OfMain(Deliver),
           Snap(READY, CTL, Update, NotStarted));
  }

  // ---------------------------------------------------------------------------------------------
  // The second update merges the segment and starts the stream

  const GOING := CTL.(ready := true)
  const PLAYING := GOING.(curMono := 6, routeStart := 7)

  lemma NothingToLoad()
    ensures Leads(Snap(READY, CTL, Forward(W(1)), NotStarted), OfMain(LoadForward({0}, Obj(AT_WORK))),
                  Snap(READY, CTL, Reverse(W(1)), NotStarted))
  {
    assert NextToLoad(READY, [0][1..], {0}) == None;
    assert NextToLoad(READY, [0], {0}) == None;
  }

  lemma NothingBefore()
    ensures Leads(Snap(READY, CTL, Reverse(W(1)), NotStarted), OfMain(LoadReverse({0}, Obj(AT_WORK))),
                  Snap(READY, CTL, Merging(W(1)), NotStarted))
  {
  }

  lemma MergedEvents()
    ensures MergeAll(LogsOf(READY, {0}), {2}) == [MSG]
  {
    var keys := ZeroKeys({0});
    OrderIsUnique(Ordered({0}), keys, {0});
    assert LogsOf(READY, {0}) == [[MSG]];
    assert [[MSG]][..0] == [];
    assert [MSG][1..] == [];
    assert WithSocket([MSG], {2}) == [MSG];
    assert MergeAll([], {2}) == [];
    assert MergeAll([[MSG]], {2}) == ReplayEvents.Merge([], [MSG]);
  }

  lemma Merges()
    ensures Leads(Snap(READY, CTL, Merging(W(1)), NotStarted), OfMain(Merge({0})),
                  Snap(READY, CTL.(paused := true), Swapping(W(1), {0}, {2}, [MSG]), NotStarted))
  {
    MergedEvents();
    assert {0} * {0} == {0};
    assert 0 in {0} && 0 !in READY.merged;
  }

  lemma Swaps()
    ensures Leads(Snap(READY, CTL.(paused := true), Swapping(W(1), {0}, {2}, [MSG]), NotStarted), OfMain(SwapApply),
                  Snap(MERGED, GOING, Check(ToFree(W(1))), NotStarted))
  {
  }

  lemma NoSeek()
    ensures Leads(Snap(MERGED, GOING, Check(ToFree(W(1))), NotStarted), OfMain(CheckSeek(false)),
                  Snap(MERGED, GOING, Freeing(W(1)), NotStarted))
  {
  }

  const ROAD_CAM := Cam(10, true, [], None, [], [])
  const SERVING := Server(true, 0, ROAD_CAM, NO_CAM, NO_CAM)

  lemma Launches()
    ensures Leads(Snap(MERGED, GOING, Launch(W(1)), NotStarted), OfMain(LaunchStream(true)),
                  Snap(MERGED, PLAYING, Idle, Starting).(server := SERVING))
  {
  }

  lemma SecondUpdate(s0: State)
    requires Goes(s0, Snap(READY, CTL, Update, NotStarted))
    ensures Goes(s0, Snap(MERGED, PLAYING, Idle, Starting).(server := SERVING))
  {
    WindowOfZero(READY, 1);
    Opens(Snap(READY, CTL, Update, NotStarted), Forward(W(1)));
    GoesOn(s0, Snap(READY, CTL, Update, NotStarted), OfMain(OpenWindow), Snap(READY, CTL, Forward(W(1)), NotStarted));
    NothingToLoad();
    GoesOn(s0, Snap(READY, CTL, Forward(W(1)), NotStarted), OfMain(LoadForward({0}, Obj(AT_WORK))),
           Snap(READY, CTL, Reverse(W(1)), NotStarted));
    NothingBefore();
    GoesOn(s0, Snap(READY, CTL, Reverse(W(1)), NotStarted), OfMain(LoadReverse({0}, Obj(AT_WORK))),
           Snap(READY, CTL, Merging(W(1)), NotStarted));
    Merges();
    GoesOn(s0, Snap(READY, CTL, Merging(W(1)), NotStarted), OfMain(Merge({0})),
           Snap(READY, CTL.(paused := true), Swapping(W(1), {0}, {2}, [MSG]), NotStarted));
    Swaps();
    GoesOn(s0, Snap(READY, CTL.(paused := true), Swapping(W(1), {0}, {2}, [MSG]), NotStarted), OfMain(SwapApply),
           Snap(MERGED, GOING, Check(ToFree(W(1))), NotStarted));
    NoSeek();
    GoesOn(s0, Snap(MERGED, GOING, Check(ToFree(W(1))), NotStarted), OfMain(CheckSeek(false)),
           Snap(MERGED, GOING, Freeing(W(1)), NotStarted));
    Frees(MERGED, GOING, 1);
    GoesOn(s0, Snap(MERGED, GOING, Freeing(W(1)), NotStarted), OfMain(FreeDone), Snap(MERGED, GOING, Launch(W(1)), NotStarted));
    Launches();
    GoesOn(s0, Snap(MERGED, GOING, Launch(W(1)), NotStarted), OfMain(LaunchStream(true)),
           Snap(MERGED, PLAYING, Idle, Starting).(server := SERVING));
  }

  // ---------------------------------------------------------------------------------------------
  // The stream pushes a frame

  const THE_FRAME := Item(0, Road, 1, 0)
  const AT_MSG := PLAYING.(curMono := 7)

  function Stream(ctl: Control, v: Server, pc: StreamPc): State {
    Snap(MERGED, ctl, Idle, pc).(server := v)
  }

  function Counted(queue: seq<Item>, busy: Option<Item>, pushed: seq<Item>): Server {
    Server(true, 1, Cam(10, true, queue, busy, pushed, []), NO_CAM, NO_CAM)
  }

  lemma Selects()
    ensures Leads(Stream(PLAYING, SERVING, Starting), OfStream(TakeLock), Stream(PLAYING, SERVING, Head))
    ensures Leads(Stream(PLAYING, SERVING, Head), OfStream(SelectFirst), Stream(PLAYING, SERVING, Publish(0)))
  {
    assert UpperBound([MSG], 0, 6) == 0;
  }

  lemma ReachesFrame()
    ensures Leads(Stream(PLAYING, SERVING, Publish(0)), OfStream(NextEvent), Stream(AT_MSG, SERVING, Sleeping(0)))
    ensures Leads(Stream(AT_MSG, SERVING, Sleeping(0)), OfStream(ToFrame(false)), Stream(AT_MSG, SERVING, Frame(0)))
  {
    assert SegmentAt(7, 7) == 0;
  }

  lemma StartsPush()
    ensures Leads(Stream(AT_MSG, SERVING, Frame(0)), OfStream(PushStart), Stream(AT_MSG, SERVING, PushCount(0, THE_FRAME)))
  {
  }

  lemma Counts()
    ensures Leads(Stream(AT_MSG, SERVING, PushCount(0, THE_FRAME)), OfStream(Count),
                  Stream(AT_MSG, Counted([], None, []), PushQueue(0, THE_FRAME)))
  {
  }

  lemma Enqueues()
    ensures Leads(Stream(AT_MSG, Counted([], None, []), PushQueue(0, THE_FRAME)), OfStream(Enqueue),
                  Stream(AT_MSG, Counted([THE_FRAME], None, [THE_FRAME]), Publish(1)))
  {
  }

  lemma Takes()
    ensures Leads(Stream(AT_MSG, Counted([THE_FRAME], None, [THE_FRAME]), Publish(1)), OfCamera(Pop(Road)),
                  Stream(AT_MSG, Counted([], Some(THE_FRAME), [THE_FRAME]), Publish(1)))
  {
  }

  lemma Publishes(s0: State)
    requires Goes(s0, Stream(PLAYING, SERVING, Starting))
    ensures Goes(s0, Stream(AT_MSG, Counted([], Some(THE_FRAME), [THE_FRAME]), Publish(1)))
  {
    Selects();
    GoesOn(s0, Stream(PLAYING, SERVING, Starting), OfStream(TakeLock), Stream(PLAYING, SERVING, Head));
    GoesOn(s0, Stream(PLAYING, SERVING, Head), OfStream(SelectFirst), Stream(PLAYING, SERVING, Publish(0)));
    ReachesFrame();
    GoesOn(s0, Stream(PLAYING, SERVING, Publish(0)), OfStream(NextEvent), Stream(AT_MSG, SERVING, Sleeping(0)));
    GoesOn(s0, Stream(AT_MSG, SERVING, Sleeping(0)), OfStream(ToFrame(false)), Stream(AT_MSG, SERVING, Frame(0)));
    StartsPush();
    Counts();
    Enqueues();
    GoesOn(s0, Stream(AT_MSG, SERVING, Frame(0)), OfStream(PushStart), Stream(AT_MSG, SERVING, PushCount(0, THE_FRAME)));
    GoesOn(s0, Stream(AT_MSG, SERVING, PushCount(0, THE_FRAME)), OfStream(Count),
           Stream(AT_MSG, Counted([], None, []), PushQueue(0, THE_FRAME)));
    GoesOn(s0, Stream(AT_MSG, Counted([], None, []), PushQueue(0, THE_FRAME)), OfStream(Enqueue),
           Stream(AT_MSG, Counted([THE_FRAME], None, [THE_FRAME]), Publish(1)));
    Takes();
    GoesOn(s0, Stream(AT_MSG, Counted([THE_FRAME], None, [THE_FRAME]), Publish(1)), OfCamera(Pop(Road)),
           Stream(AT_MSG, Counted([], Some(THE_FRAME), [THE_FRAME]), Publish(1)));
  }

  lemma Seeks()
    ensures Leads(Stream(AT_MSG, Counted([], Some(THE_FRAME), [THE_FRAME]), Publish(1)), OfMain(SeekTo(3.0)),
                  Snap(MERGED, AT_MSG.(paused := true), Seeking(3.0), Publish(1))
                    .(server := Counted([], Some(THE_FRAME), [THE_FRAME])))
  {
  }

  /** A run from an initial state to one in which a camera thread works on a frame of a merged segment while the main thread
      waits for the lock. */
  lemma FrameOutstandingWhileSeeking() returns (s0: State, steps: seq<Step>, s: State)
    ensures Init(s0) && Reaches(s0, steps, s)
    ensures 0 in s.store.merged && s.store.events == [MSG] && s.main == Seeking(3.0) && !LockFree(s.stream)
    ensures s.server.road.busy == Some(THE_FRAME) && s.server.publishing == 1
  {
    s0 := Snap(NOTHING, CTL, Idle, NotStarted);
    FirstUpdate(s0);
    SecondUpdate(s0);
    Publishes(s0);
    Seeks();
    var before := Stream(AT_MSG, Counted([], Some(THE_FRAME), [THE_FRAME]), Publish(1));
    s := Snap(MERGED, AT_MSG.(paused := true), Seeking(3.0), Publish(1)).(server := Counted([], Some(THE_FRAME), [THE_FRAME]));
    GoesOn(s0, before, OfMain(SeekTo(3.0)), s);
    steps :| Reaches(s0, steps, s);
  }
}
