/** The main results on the replay engine: what holds in every state that some interleaving of its threads reaches. */
module ReplayRuns {
  import opened Helpers
  import opened ReplayEvents
  import opened CacheWindow
  import opened ReplayEngine
  import opened ReplaySafety
  import SegmentLoad

  /** A merged segment is there, held, fully loaded and not freed, with a log that is not empty. */
  lemma MergedSegmentsAreLoaded(s0: State, steps: seq<Step>, s: State, n: int)
    requires Init(s0) && Reaches(s0, steps, s) && s.main != Stopped && n in s.store.merged
    ensures IsHeld(s.store, n) && IsLoaded(s.store, n) && LogOf(s.store, n) != []
    ensures !s.store.objs[s.store.segments[n].id].freed
  {
    InvReaches(s0, steps, s);
  }

  /** `events_` is sorted and holds each event as often as the logs of the merged segments do, restricted to the kinds that
      had a socket when the merge was made. */
  lemma EventsAreTheMergedLogs(s0: State, steps: seq<Step>, s: State)
    requires Init(s0) && Reaches(s0, steps, s) && s.main != Stopped
    ensures Sorted(s.store.events)
    ensures forall e :: multiset(s.store.events)[e] == Occurrences(LogsOf(s.store, s.store.merged), s.store.mergeSockets, e)
  {
    InvReaches(s0, steps, s);
    var logs := LogsOf(s.store, s.store.merged);
    forall i | 0 <= i < |logs|
      ensures Sorted(logs[i])
    {
      assert Ordered(s.store.merged)[i] in Ordered(s.store.merged);
    }
    MergeAllIsExact(logs, s.store.mergeSockets);
  }

  /** Whatever owns an event of `events_` is a merged segment, so the memory the event points to has not been freed. */
  lemma EventsAreAlive(s: State, i: nat)
    requires Inv(s) && s.main != Stopped && i < |s.store.events|
    ensures var e := s.store.events[i];
      Live(s.store, e.owner) && s.store.objs[e.owner].num in s.store.merged && Loaded(s.store.objs[e.owner])
  {
    var e := s.store.events[i];
    var keys := Ordered(s.store.merged);
    var logs := LogsOf(s.store, s.store.merged);
    forall k | 0 <= k < |logs|
      ensures Sorted(logs[k])
    {
      assert keys[k] in keys;
    }
    MergeAllIsExact(logs, s.store.mergeSockets);
    assert e in multiset(s.store.events);
    OccurrencesPositive(logs, s.store.mergeSockets, e);
    var k :| 0 <= k < |logs| && e in logs[k];
    assert keys[k] in keys;
    assert e.owner == s.store.segments[keys[k]].id;
  }

  /** What a step reads through pointers it got earlier is still there when the step is taken. */
  ghost predicate SafeAccess(s: State, a: Step)
    requires Enabled(s, a)
  {
    match a
    // `seg->seg_num` of the sender
    case OfMain(Deliver) => s.posted[0].success || Live(s.store, s.posted[0].id)
    // what is destroyed for a failed segment, and when the window moves
    case OfMain(EraseApply) => NotInUse(s, s.main.n)
    case OfMain(FreeOne(n)) => NotInUse(s, n)
    // the logs that are merged
    case OfMain(Merge(seen)) =>
      forall n :: n in s.main.w.inside * seen ==> IsHeld(s.store, n) && Live(s.store, s.store.segments[n].id)
    // no reader of the old buffer is left when the buffers are swapped
    case OfMain(SwapApply) => Outstanding(s.server) == 0
    // `cur_segment->isLoaded()` and `events.front()`
    case OfMain(LaunchStream(loaded)) =>
      IsHeld(s.store, s.main.w.cur) && Live(s.store, s.store.segments[s.main.w.cur].id)
      && (loaded ==> LogOf(s.store, s.main.w.cur) != [])
    case OfMain(StopDone) => Outstanding(s.server) == 0
    // `e->data`
    case OfStream(Message(_)) => Live(s.store, s.store.events[s.stream.i].owner)
    // `segments_.at(n)->frames[cam]`, also reading no file that is still being loaded
    case OfStream(PushStart) =>
      var n := s.store.events[s.stream.i].eidxSegnum;
      n in s.store.merged ==> IsLoaded(s.store, n) && Live(s.store, s.store.segments[n].id)
    // the server is not replaced under a camera thread
    case OfStream(RestartServer) => Outstanding(s.server) == 0
    // `it->which`, or `segments_.rbegin()`
    case OfStream(Finish) => s.stream.i < |s.store.events| || (s.stream.i == |s.store.events| && s.store.segments.Keys != {})
    // the event and the frame reader a camera thread works with
    case OfCamera(Sent(c)) =>
      s.main != Stopped &&
      var item := CamOf(s.server, c).busy.value;
      item.gen == s.store.gen && item.index < |s.store.events| && Live(s.store, s.store.events[item.index].owner)
      && Live(s.store, item.id) && item.cam in s.store.objs[item.id].frames
    case _ => true
  }

  /** No event of `events_` and no queued frame belongs to the object in slot `n`. */
  ghost predicate NotInUse(s: State, n: int) {
    IsHeld(s.store, n) ==>
      && n !in s.store.merged
      && (forall i :: 0 <= i < |s.store.events| ==> s.store.events[i].owner != s.store.segments[n].id)
      && (forall item :: item in Pending(s.server.road) + Pending(s.server.driver) + Pending(s.server.wide) ==>
            item.id != s.store.segments[n].id)
  }

  lemma UnmergedIsNotInUse(s: State, n: int)
    requires Inv(s) && s.main != Stopped && n !in s.store.merged
    ensures NotInUse(s, n)
  {
    if IsHeld(s.store, n) {
      forall i | 0 <= i < |s.store.events|
        ensures s.store.events[i].owner != s.store.segments[n].id
      {
        EventsAreAlive(s, i);
      }
    }
  }

  lemma StreamAccessIsSafe(s: State, a: StreamStep)
    requires Inv(s) && s.main != Stopped && StreamEnabled(s, a)
    ensures SafeAccess(s, OfStream(a))
  {
    match a
    case Message(_) => EventsAreAlive(s, s.stream.i);
    case PushStart =>
      var n := s.store.events[s.stream.i].eidxSegnum;
      assert n in s.store.merged ==> IsLoaded(s.store, n);
    case Finish =>
      EventsAreAlive(s, 0);
      assert s.store.objs[s.store.events[0].owner].num in s.store.segments;
    case _ =>
  }

  lemma CameraAccessIsSafe(s: State, c: Camera)
    requires Inv(s) && CameraEnabled(s, Sent(c))
    ensures SafeAccess(s, OfCamera(Sent(c)))
  {
    var cam := CamOf(s.server, c);
    assert cam.busy.value in Pending(cam);
    EventsAreAlive(s, cam.busy.value.index);
  }

  lemma MainAccessIsSafe(s: State, a: MainStep)
    requires Inv(s) && s.main != Stopped && MainEnabled(s, a) && !a.Deliver?
    ensures SafeAccess(s, OfMain(a))
  {
    if a.EraseApply? {
      UnmergedIsNotInUse(s, s.main.n);
    } else if a.FreeOne? {
      UnmergedIsNotInUse(s, a.n);
    } else {
      OtherMainAccessIsSafe(s, a);
    }
  }

  lemma OtherMainAccessIsSafe(s: State, a: MainStep)
    requires Inv(s) && s.main != Stopped && MainEnabled(s, a) && !a.Deliver? && !a.EraseApply? && !a.FreeOne?
    ensures SafeAccess(s, OfMain(a))
  {
  }

  lemma OtherAccessIsSafe(s: State, a: Step)
    requires Inv(s) && Enabled(s, a) && a != OfMain(Deliver)
    ensures SafeAccess(s, a)
  {
    match a
    case OfMain(m) => MainAccessIsSafe(s, m);
    case OfStream(t) => StreamAccessIsSafe(s, t);
    case OfCamera(Sent(c)) => CameraAccessIsSafe(s, c);
    case _ =>
  }

  /** The step delivers a failure whose sender is no longer in its slot. */
  predicate LosesSender(s: State, a: Step) {
    a == OfMain(Deliver) && s.posted != [] && !s.posted[0].success && !InSlot(s.store, s.posted[0].id)
  }

  lemma DeliverySafeExactlyWhen(s: State)
    requires Inv(s) && s.main != Stopped && MainEnabled(s, Deliver)
    ensures SafeAccess(s, OfMain(Deliver)) <==> !LosesSender(s, OfMain(Deliver))
  {
    assert s.posted[0] in s.posted;
  }

  /** Safety of every run: whatever step is taken next, in any interleaving, what it touches has not been freed or replaced,
      if and only if the step is not the delivery of a failure whose sender has left its slot. */
  lemma EveryAccessIsSafe(s0: State, steps: seq<Step>, s: State, a: Step)
    requires Init(s0) && Reaches(s0, steps, s) && Enabled(s, a)
    ensures SafeAccess(s, a) <==> !LosesSender(s, a)
  {
    InvReaches(s0, steps, s);
    if a == OfMain(Deliver) {
      DeliverySafeExactlyWhen(s);
    } else {
      OtherAccessIsSafe(s, a);
    }
  }

  /** `publishing_` never undercounts; it is ahead by one only between its increment and the push. */
  lemma PublishingCountsOutstanding(s0: State, steps: seq<Step>, s: State)
    requires Init(s0) && Reaches(s0, steps, s) && s.main != Stopped
    ensures Outstanding(s.server) <= s.server.publishing <= Outstanding(s.server) + 1
    ensures s.server.publishing != Outstanding(s.server) <==> s.stream.PushQueue?
  {
    InvReaches(s0, steps, s);
  }

  /** Whenever the stream thread does not hold the lock, no frame is outstanding and every frame pushed to a camera has been
      handled by that camera's thread, in the order of the pushes. */
  lemma NothingOutstandingWhileUnlocked(s0: State, steps: seq<Step>, s: State, c: Camera)
    requires Init(s0) && Reaches(s0, steps, s) && s.main != Stopped && LockFree(s.stream)
    ensures s.server.publishing == 0 && CamOf(s.server, c).sent == CamOf(s.server, c).pushed
  {
    InvReaches(s0, steps, s);
    assert Pending(CamOf(s.server, c)) == [];
  }

  /** At all times a camera thread has handled a prefix of what was pushed to it, in order, and the rest is waiting. */
  lemma FramesAreSentInOrder(s0: State, steps: seq<Step>, s: State, c: Camera)
    requires Init(s0) && Reaches(s0, steps, s) && s.main != Stopped
    ensures CamOf(s.server, c).pushed == CamOf(s.server, c).sent + Pending(CamOf(s.server, c))
  {
    InvReaches(s0, steps, s);
  }

  /** How many steps the camera threads can take without new frames. */
  function Work(v: Server): nat {
    WorkOf(v.road) + WorkOf(v.driver) + WorkOf(v.wide)
  }

  function WorkOf(cam: Cam): nat { 2 * |cam.queue| + if cam.busy.Some? then 1 else 0 }

  /** Every step of a camera thread lowers the bound and leaves the stream thread where it is. */
  lemma CameraWorkEnds(s: State, a: CameraStep)
    requires CameraEnabled(s, a)
    ensures Work(CameraNext(s, a).server) < Work(s.server) && CameraNext(s, a).stream == s.stream
  {
  }

  /** `waitForSent` cannot hang: while it waits, some camera thread can take a step, and the camera threads can take only
      finitely many, whichever they take. */
  lemma WaitForSentEnds(s0: State, steps: seq<Step>, s: State)
    requires Init(s0) && Reaches(s0, steps, s)
    requires (s.stream.FrameWait? || s.stream.Resize? || s.stream.Drain?) && s.server.publishing > 0 && s.main != Stopped
    ensures exists a :: CameraEnabled(s, a)
    ensures forall a :: CameraEnabled(s, a) ==>
      Work(CameraNext(s, a).server) < Work(s.server) && CameraNext(s, a).stream == s.stream
  {
    InvReaches(s0, steps, s);
    CameraCanStep(s);
    forall a | CameraEnabled(s, a)
      ensures Work(CameraNext(s, a).server) < Work(s.server) && CameraNext(s, a).stream == s.stream
    {
      CameraWorkEnds(s, a);
    }
  }

  lemma CameraCanStep(s: State)
    requires ServerOk(s.store, s.server, s.stream) && Outstanding(s.server) > 0
    ensures exists a :: CameraEnabled(s, a)
  {
    var c := if Pending(s.server.road) != [] then Road else if Pending(s.server.driver) != [] then Driver else Wide;
    assert Pending(CamOf(s.server, c)) != [];
    var a := if CamOf(s.server, c).busy.Some? then Sent(c) else Pop(c);
    assert CameraEnabled(s, a);
  }

  /** Never more than one segment beyond the cache limit is held, and between updates never more than the limit. */
  lemma MemoryIsBounded(s0: State, steps: seq<Step>, s: State)
    requires Init(s0) && Reaches(s0, steps, s) && s.main != Stopped
    ensures |HeldSet(s.store)| <= s.cfg.limit + 1
    ensures s.main == Idle ==> |HeldSet(s.store)| <= s.cfg.limit
  {
    InvReaches(s0, steps, s);
    if s.main.Launch? {
      SubsetIsSmaller(HeldSet(s.store), s.main.w.inside);
    }
  }

  lemma AtLaunch(cfg: Config, st: Store, w: Win)
    requires MainOk(cfg, st, Launch(w))
    ensures w.cur in w.inside && IsHeld(st, w.cur) && |w.inside| == Min(cfg.limit, |st.segments.Keys|)
    ensures HeldSet(st) <= w.inside && st.merged <= w.inside && |st.objs| <= w.before + 1
  {
  }

  /** When `updateSegmentsCache` comes to its end, the window holds the current segment, which is not null, and exactly
      min(limit, n) segments; only segments of the window are held or merged, and at most one load was started. */
  lemma UpdateLeavesOnlyTheWindow(s0: State, steps: seq<Step>, s: State)
    requires Init(s0) && Reaches(s0, steps, s) && s.main.Launch?
    ensures var w := s.main.w;
      && w.cur in w.inside && IsHeld(s.store, w.cur)
      && |w.inside| == Min(s.cfg.limit, |s.store.segments.Keys|)
      && HeldSet(s.store) <= w.inside && s.store.merged <= w.inside
      && |s.store.objs| <= w.before + 1
  {
    InvReaches(s0, steps, s);
    AtLaunch(s.cfg, s.store, s.main.w);
  }

  // ---------------------------------------------------------------------------------------------
  // Progress: the conditions of the steps hide no access that would go wrong

  /** The stream thread waits for events, or for a camera thread. */
  predicate StreamWaits(s: State) {
    || (s.stream.Waiting? && !s.ctl.exit && (!s.ctl.ready || s.ctl.paused))
    || ((s.stream.FrameWait? || s.stream.Resize? || s.stream.Drain?) && s.server.publishing > 0)
  }

  function StreamChoice(s: State): StreamStep {
    match s.stream
    case Starting => TakeLock
    case Head =>
      if s.ctl.exit then Quit else if s.ctl.ready && !s.ctl.paused then SelectFirst else StreamStep.Wait
    case Waiting => Wake
    case Publish(i) => if s.ctl.paused || i >= |s.store.events| then LeaveLoop else NextEvent
    case Sleeping(i) =>
      if s.ctl.paused then Interrupted
      else if i < |s.store.events| && s.store.events[i].eidxSegnum == -1 then Message(false)
      else ToFrame(false)
    case FrameWait(_) => FrameWaitOver
    case Frame(_) => PushStart
    case Resize(_, _) => ResizeWaitOver
    case Restart(_, _) => RestartServer
    case PushCount(_, _) => Count
    case PushQueue(_, _) => Enqueue
    case Drain(_) => DrainOver
    case _ => Finish
  }

  lemma StreamCanStep(s: State)
    requires StreamOk(s.store, s.server, s.stream) && !s.stream.NotStarted? && !s.stream.Done?
    ensures StreamEnabled(s, StreamChoice(s)) || StreamWaits(s)
  {
  }

  /** Once started, the stream thread can always take a step, unless it waits or has ended: no index it holds is ever out of
      range. */
  lemma StreamIsNeverStuck(s0: State, steps: seq<Step>, s: State)
    requires Init(s0) && Reaches(s0, steps, s) && !s.stream.NotStarted? && !s.stream.Done?
    ensures StreamEnabled(s, StreamChoice(s)) || StreamWaits(s)
  {
    InvReaches(s0, steps, s);
    StreamCanStep(s);
  }

  /** The main thread waits for `stream_lock_`, or for the stream thread to end. */
  predicate MainWaits(s: State) {
    || (!LockFree(s.stream) && (s.main.Seeking? || s.main.Erasing? || s.main.Pausing? || s.main.SeekDone? || s.main.Swapping?))
    || (s.main == Stopping && s.stream !in {NotStarted, Done})
  }

  /** Some segment object for a slot: one job, which is at work. */
  lemma SomeObj(st: Store, n: int) returns (obj: SegmentObj)
    ensures Fresh(st, n, obj)
  {
    var s0 := SegmentLoad.Init(1);
    var s1 := SegmentLoad.Next(s0, SegmentLoad.Start(0));
    assert SegmentLoad.Run(1, [], s0);
    SegmentLoad.ReachableStep(s0, SegmentLoad.Start(0));
    SegmentLoad.ReachableStep(s1, SegmentLoad.Connect);
    obj := SegmentObj(n, [], map[], SegmentLoad.Next(s1, SegmentLoad.Connect), false);
  }

  lemma SomeLoad(st: Store, n: Option<int>) returns (obj: SegmentObj)
    ensures n.Some? ==> Fresh(st, n.value, obj)
  {
    obj := SomeObj(st, if n.Some? then n.value else 0);
  }

  lemma MainCanStep(s: State) returns (a: MainStep)
    requires s.main != Stopped && s.main != Broken && (s.main.Seeking? ==> s.main.t >= 0.0)
    ensures MainEnabled(s, a) || MainWaits(s)
    ensures s.main == Idle && s.posted != [] ==> a == Deliver
  {
    match s.main
    case Idle => a := if s.posted != [] then Deliver else UpdateCache;
    case Seeking(_) => a := SeekApply;
    case Erasing(_) => a := EraseApply;
    case Pausing(_) => a := PauseApply;
    case Check(_) => a := CheckSeek(false);
    case SeekDone(_) => a := SeekDoneApply;
    case Update => a := OpenWindow;
    case Forward(w) =>
      var obj := SomeLoad(s.store, NextToLoad(s.store, w.forward, {}));
      a := LoadForward({}, obj);
    case Reverse(w) =>
      var obj := SomeLoad(s.store, NextToLoad(s.store, w.reverse, {}));
      a := LoadReverse({}, obj);
    case Merging(_) => a := Merge({});
    case Swapping(_, _, _, _) => a := SwapApply;
    case Freeing(w) =>
      if n :| IsHeld(s.store, n) && n !in w.inside {
        a := FreeOne(n);
      } else {
        a := FreeDone;
      }
    case Launch(_) => a := LaunchStream(false);
    case _ => a := StopDone;
  }

  /** The main thread can always take a step, unless it waits, has stopped or is broken; when it is idle and a signal is in
      its queue, that step is the delivery, whatever has become of the sender. */
  lemma MainIsNeverStuck(s0: State, steps: seq<Step>, s: State) returns (a: MainStep)
    requires Init(s0) && Reaches(s0, steps, s) && s.main != Stopped && s.main != Broken
    ensures MainEnabled(s, a) || MainWaits(s)
    ensures s.main == Idle && s.posted != [] ==> a == Deliver
  {
    InvReaches(s0, steps, s);
    a := MainCanStep(s);
  }
}
