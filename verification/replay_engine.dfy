/** The replay engine as a state machine over the atomic steps of its threads (tools/replay/replay.cc, tools/replay/camera.cc,
    tools/replay/route.h). The main thread loads, merges and frees segments and seeks; the stream thread publishes events while
    it holds `stream_lock_`; three camera threads send frames; worker threads load files.

    A critical section of the main thread under `stream_lock_` is one step which needs the lock to be free; what the main
    thread does before and after it, and every access of the other threads to shared data, are steps of their own. Reading
    `isLoaded` of several segments takes a parameter `seen`: the segments which read as loaded. As a segment may become loaded
    right after it was looked at, `seen` is any set of segments that are loaded by now.

    The `loadFinished` signals of the segments wait in the event queue of the main thread, each with the object that sent it,
    and are delivered in order, whether or not that object still exists by then. */
module ReplayEngine {
  import opened Helpers
  import opened ReplayEvents
  import opened CacheWindow
  import SegmentLoad

  datatype Camera = Road | Driver | Wide

  // ---------------------------------------------------------------------------------------------
  // Shared state

  /** A slot of `segments_`: a null pointer or a segment object. */
  datatype Slot = Empty | Held(id: nat)

  /** A segment object. `load` is the state of its loading jobs, the last of which loads the log; `log` and `frames` (the size
      of each camera's pictures) are what the jobs leave behind. */
  datatype SegmentObj = SegmentObj(num: int, log: seq<Event>, frames: map<Camera, nat>, load: SegmentLoad.State, freed: bool)

  predicate Loaded(o: SegmentObj) { SegmentLoad.IsLoaded(o.load) }

  /** The log's job has passed its decrement. */
  predicate LogRead(load: SegmentLoad.State) {
    load.jobs != [] && load.jobs[|load.jobs| - 1] in {SegmentLoad.Emitting, SegmentLoad.Over}
  }

  /** A log that loads is not empty and sorted, as `ReplayEvents.Load` shows. */
  ghost predicate LogGood(o: SegmentObj) {
    LogRead(o.load) && !o.load.bad ==> o.log != [] && Sorted(o.log)
  }

  /** A `loadFinished` signal in the event queue: the object that sent it, and its argument. */
  datatype Post = Post(id: nat, success: bool)

  /** `segments_`, every segment object ever made, `merged_segments_` and `events_`. `gen` identifies the buffer of `events_`,
      `mergeSockets` is a history variable: the kinds of events that had a socket when `events_` was built. */
  datatype Store = Store(segments: map<int, Slot>, objs: seq<SegmentObj>, merged: set<int>, events: seq<Event>, gen: nat,
                         mergeSockets: set<nat>)

  /** A pair `(FrameReader*, const Event*)` in a camera queue: the reader of a segment object and a place in a buffer of events. */
  datatype Item = Item(id: nat, cam: Camera, gen: nat, index: nat)

  /** One camera: picture size (0 when unset), whether its thread runs, its queue and the item its thread works on.
      `pushed` and `sent` are history variables. */
  datatype Cam = Cam(size: nat, thread: bool, queue: seq<Item>, busy: Option<Item>, pushed: seq<Item>, sent: seq<Item>)

  datatype Server = Server(running: bool, publishing: int, road: Cam, driver: Cam, wide: Cam)

  function CamOf(v: Server, c: Camera): Cam {
    match c
    case Road => v.road
    case Driver => v.driver
    case Wide => v.wide
  }

  function WithCam(v: Server, c: Camera, cam: Cam): Server {
    match c
    case Road => v.(road := cam)
    case Driver => v.(driver := cam)
    case Wide => v.(wide := cam)
  }

  datatype Control = Control(sockets: set<nat>, ready: bool, paused: bool, userPaused: bool, exit: bool, curSegment: int,
                             curMono: nat, curWhich: nat, routeStart: nat, maxSeconds: real, seeking: Option<real>)

  const MIN_SEGMENTS_CACHE := 5

  /** What `setSegmentCacheLimit` lets through. */
  type CacheLimit = n: nat | n >= MIN_SEGMENTS_CACHE witness MIN_SEGMENTS_CACHE

  /** The cache limit, the flags, and the numbers of the three kinds of camera index. */
  datatype Config = Config(limit: CacheLimit, vipc: bool, dcam: bool, ecam: bool, roadIdx: nat, driverIdx: nat, wideIdx: nat)

  /** The window of one `updateSegmentsCache` call: its segments, the current one, and the two scan orders. `before` is a
      history variable: how many segment objects had been made when the call began. */
  datatype Win = Win(inside: set<int>, cur: int, forward: seq<int>, reverse: seq<int>, before: nat)

  /** What follows `checkSeekProgress`. */
  datatype After = ToUpdate | ToFree(w: Win)

  datatype MainPc =
    | Idle
    | Seeking(t: real)    // about to take the lock in `seekTo`
    | Erasing(n: int)     // about to take the lock in `segmentLoadFinished(false)`
    | Pausing(p: bool)    // about to take the lock in `pause`
    | Check(after: After) // `checkSeekProgress`
    | SeekDone(after: After)
    | Broken              // after a slot has read a sender that is gone
    | Update              // `updateSegmentsCache`
    | Forward(w: Win)
    | Reverse(w: Win)
    | Merging(w: Win)
    | Swapping(w: Win, toMerge: set<int>, sockets: set<nat>, events: seq<Event>)
    | Freeing(w: Win)
    | Launch(w: Win)
    | Stopping
    | Stopped

  datatype StreamPc =
    | NotStarted
    | Starting
    | Head                // at the condition variable, with the lock
    | Waiting             // blocked on the condition variable, without the lock
    | Publish(i: nat)     // head of the loop of `publishEvents`
    | Sleeping(i: nat)
    | FrameWait(i: nat)   // `waitForSent` when replaying faster than real time
    | Frame(i: nat)       // `publishFrame`
    | Resize(i: nat, item: Item)     // `pushFrame`, `waitForSent` before the server restarts
    | Restart(i: nat, item: Item)
    | PushCount(i: nat, item: Item)  // `++publishing_`
    | PushQueue(i: nat, item: Item)  // `queue.push`
    | Drain(i: nat)       // `waitForSent` at the end of a batch
    | Tail(i: nat)
    | Done

  datatype State = State(cfg: Config, store: Store, server: Server, ctl: Control, main: MainPc, stream: StreamPc,
                         posted: seq<Post>)

  /** `stream_lock_` is not held. The main thread holds it only inside single steps. */
  predicate LockFree(pc: StreamPc) {
    pc.NotStarted? || pc.Starting? || pc.Waiting? || pc.Done?
  }

  predicate IsHeld(st: Store, n: int) {
    n in st.segments && st.segments[n].Held? && st.segments[n].id < |st.objs|
  }

  /** `it->second && it->second->isLoaded()`. */
  predicate IsLoaded(st: Store, n: int) {
    IsHeld(st, n) && Loaded(st.objs[st.segments[n].id])
  }

  function LogOf(st: Store, n: int): seq<Event> {
    if IsHeld(st, n) then st.objs[st.segments[n].id].log else []
  }

  /** The object is still in its slot. */
  predicate InSlot(st: Store, id: nat) {
    id < |st.objs| && st.objs[id].num in st.segments && st.segments[st.objs[id].num] == Held(id)
  }

  /** The logs of some segments in ascending order of the segments. */
  ghost function LogsOf(st: Store, ns: set<int>): seq<seq<Event>> {
    var keys := Ordered(ns);
    seq(|keys|, i requires 0 <= i < |keys| => LogOf(st, keys[i]))
  }

  // ---------------------------------------------------------------------------------------------
  // The main thread

  datatype MainStep =
    | SeekTo(t: real) | SeekApply
    | Deliver | EraseApply  // `segmentLoadFinished`
    | PauseUser(p: bool) | PauseApply
    | CheckSeek(loaded: bool) | SeekDoneApply
    | UpdateCache | OpenWindow
    | LoadForward(seen: set<int>, obj: SegmentObj) | LoadReverse(seen: set<int>, obj: SegmentObj)
    | Merge(seen: set<int>) | SwapApply
    | FreeOne(n: int) | FreeDone
    | LaunchStream(loaded: bool)
    | Stop | StopDone

  ghost function WinOf(segments: set<int>, keys: seq<int>, w: Window, before: nat): Win
    requires IsOrderOf(keys, segments) && w.begin <= w.cur < w.end <= |keys|
  {
    Win(Inside(keys, w), keys[w.cur], keys[w.cur..w.end], Backwards(keys[w.begin..w.cur]), before)
  }

  /** How `updateSegmentsCache` goes on once it has computed the window. */
  ghost function Opened(st: Store, target: int, limit: CacheLimit): MainPc {
    var keys := Ordered(st.segments.Keys);
    var cur := LowerBound(keys, target);
    if cur == |keys| then Idle
    else Forward(WinOf(st.segments.Keys, keys, WindowOf(|keys|, cur, limit), |st.objs|))
  }

  function Backwards(s: seq<int>): (r: seq<int>)
    ensures |r| == |s| && forall i :: 0 <= i < |s| ==> r[i] == s[|s| - 1 - i]
  {
    seq(|s|, i requires 0 <= i < |s| => s[|s| - 1 - i])
  }

  /** `std::find_if` of `loadNextSegment`: the first segment that is null or not seen loaded, and of that one only whether
      it is null. */
  function NextToLoad(st: Store, keys: seq<int>, seen: set<int>): Option<int> {
    if keys == [] then None
    else if keys[0] in st.segments && st.segments[keys[0]].Empty? then Some(keys[0])
    else if keys[0] !in seen then None
    else NextToLoad(st, keys[1..], seen)
  }

  /** A new segment object: its constructor has returned and the signal has just been connected. Some jobs may be at work or
      even over by then. Its log lives in its own memory. */
  ghost predicate Fresh(st: Store, n: int, obj: SegmentObj) {
    && obj.num == n && !obj.freed
    && SegmentLoad.Reachable(obj.load) && obj.load.connected && obj.load.delivered == [] && obj.load.jobs != []
    && LogGood(obj)
    && (forall e :: e in obj.log ==> e.owner == |st.objs|)
    && (forall c :: c in obj.frames ==> obj.frames[c] > 0)
  }

  function Create(st: Store, n: int, obj: SegmentObj): Store {
    st.(segments := st.segments[n := Held(|st.objs|)], objs := st.objs + [obj])
  }

  function Release(st: Store, n: int): Store
    requires IsHeld(st, n)
  {
    var id := st.segments[n].id;
    st.(objs := st.objs[id := st.objs[id].(freed := true)])
  }

  /** Destroys the object of a slot, if there is one, and the slot itself. */
  function Drop(st: Store, n: int): Store {
    var st' := if IsHeld(st, n) then Release(st, n) else st;
    st'.(segments := st'.segments - {n})
  }

  function Continue(after: After): MainPc {
    match after
    case ToUpdate => Update
    case ToFree(w) => Freeing(w)
  }

  function SeekSegment(t: real): int { t.Floor / 60 }

  /** Arithmetic on unsigned times of 64 bits. */
  function Wrapped(x: int): nat { x % 0x1_0000_0000_0000_0000 }

  ghost predicate MainEnabled(s: State, a: MainStep) {
    match a
    case SeekTo(t) => s.main == Idle && t >= 0.0
    case SeekApply => s.main.Seeking? && s.main.t >= 0.0 && LockFree(s.stream)
    case Deliver => s.main == Idle && s.posted != []
    case EraseApply => s.main.Erasing? && LockFree(s.stream)
    case PauseUser(p) => s.main == Idle && s.ctl.userPaused != p
    case PauseApply => s.main.Pausing? && LockFree(s.stream)
    case CheckSeek(loaded) =>
      && s.main.Check?
      && (loaded ==> s.ctl.seeking.Some? && IsLoaded(s.store, SeekSegment(s.ctl.seeking.value)))
    case SeekDoneApply => s.main.SeekDone? && LockFree(s.stream)
    case UpdateCache => s.main == Idle
    case OpenWindow => s.main == Update
    case LoadForward(seen, obj) =>
      && s.main.Forward?
      && (forall n :: n in seen ==> IsLoaded(s.store, n))
      && (NextToLoad(s.store, s.main.w.forward, seen).Some? ==>
          Fresh(s.store, NextToLoad(s.store, s.main.w.forward, seen).value, obj))
    case LoadReverse(seen, obj) =>
      && s.main.Reverse?
      && (forall n :: n in seen ==> IsLoaded(s.store, n))
      && (NextToLoad(s.store, s.main.w.reverse, seen).Some? ==>
          Fresh(s.store, NextToLoad(s.store, s.main.w.reverse, seen).value, obj))
    case Merge(seen) => s.main.Merging? && forall n :: n in seen ==> IsLoaded(s.store, n)
    case SwapApply => s.main.Swapping? && LockFree(s.stream)
    case FreeOne(n) => s.main.Freeing? && n !in s.main.w.inside && IsHeld(s.store, n)
    case FreeDone => s.main.Freeing? && forall n :: IsHeld(s.store, n) ==> n in s.main.w.inside
    case LaunchStream(loaded) => s.main.Launch? && (loaded ==> IsLoaded(s.store, s.main.w.cur))
    case Stop => s.main == Idle
    case StopDone => s.main == Stopping && s.stream in {NotStarted, Done}
  }

  function NewCam(o: SegmentObj, c: Camera): Cam {
    var size := if c in o.frames then o.frames[c] else 0;
    Cam(size, size > 0, [], None, [], [])
  }

  /** The camera server made by `startStream`: a thread for every camera whose size is known. */
  function NewServer(o: SegmentObj): Server {
    Server(true, 0, NewCam(o, Road), NewCam(o, Driver), NewCam(o, Wide))
  }

  /** `~CameraServer`: the threads are joined. */
  function Halted(v: Server): Server {
    Server(false, v.publishing, v.road.(thread := false), v.driver.(thread := false), v.wide.(thread := false))
  }

  ghost function MainNext(s: State, a: MainStep): State
    requires MainEnabled(s, a)
  {
    var st, ctl := s.store, s.ctl;
    match a
    case SeekTo(t) => s.(ctl := ctl.(paused := true), main := Seeking(t))
    case SeekApply =>
      var t := s.main.t;
      var ctl' :=
        if SeekSegment(t) !in st.segments || t > ctl.maxSeconds then ctl.(ready := true)
        else ctl.(ready := false, curSegment := SeekSegment(t), seeking := Some(t),
                  curMono := (ctl.routeStart as real + t * 1000000000.0).Floor);
      s.(ctl := ctl'.(paused := ctl.userPaused), main := Check(ToUpdate))
    case Deliver =>
      var p, rest := s.posted[0], s.posted[1..];
      if p.success then s.(posted := rest, main := Update)
      else if InSlot(st, p.id) then
        s.(posted := rest, ctl := ctl.(paused := true), main := Erasing(st.objs[p.id].num))
      else s.(posted := rest, main := Broken)
    case EraseApply =>
      var st' := Drop(st, s.main.n);
      s.(store := st', ctl := ctl.(ready := st'.segments != map[], paused := ctl.userPaused), main := Update)
    case PauseUser(p) => s.(ctl := ctl.(paused := true), main := Pausing(p))
    case PauseApply => s.(ctl := ctl.(paused := s.main.p, userPaused := s.main.p), main := Idle)
    case CheckSeek(loaded) =>
      if loaded then s.(ctl := ctl.(seeking := None, paused := true), main := SeekDone(s.main.after))
      else s.(main := Continue(s.main.after))
    case SeekDoneApply => s.(ctl := ctl.(ready := true, paused := ctl.userPaused), main := Continue(s.main.after))
    case UpdateCache => s.(main := Update)
    case OpenWindow => s.(main := Opened(st, ctl.curSegment, s.cfg.limit))
    case LoadForward(seen, obj) =>
      (match NextToLoad(st, s.main.w.forward, seen)
       case None => s.(main := Reverse(s.main.w))
       case Some(n) => s.(store := Create(st, n, obj), main := Merging(s.main.w)))
    case LoadReverse(seen, obj) =>
      (match NextToLoad(st, s.main.w.reverse, seen)
       case None => s.(main := Merging(s.main.w))
       case Some(n) => s.(store := Create(st, n, obj), main := Merging(s.main.w)))
    case Merge(seen) =>
      var toMerge := s.main.w.inside * seen;
      if toMerge == st.merged then s.(main := Freeing(s.main.w))
      else s.(ctl := ctl.(paused := true),
              main := Swapping(s.main.w, toMerge, ctl.sockets, MergeAll(LogsOf(st, toMerge), ctl.sockets)))
    case SwapApply =>
      var st' := st.(events := s.main.events, gen := st.gen + 1, merged := s.main.toMerge, mergeSockets := s.main.sockets);
      var ready := ctl.seeking.None? && (ctl.curSegment in st'.merged || ctl.curSegment !in st.segments);
      s.(store := st', ctl := ctl.(ready := ready, paused := ctl.userPaused), main := Check(ToFree(s.main.w)))
    case FreeOne(n) => s.(store := Release(st, n).(segments := st.segments[n := Empty]))
    case FreeDone => s.(main := Launch(s.main.w))
    case LaunchStream(loaded) =>
      if s.stream == NotStarted && loaded && IsHeld(st, s.main.w.cur) then
        var o := st.objs[st.segments[s.main.w.cur].id];
        var start := if o.log != [] then o.log[0].monoTime else 0;
        s.(ctl := ctl.(routeStart := start, curMono := Wrapped(ctl.curMono + start - 1)),
           server := if s.cfg.vipc then NewServer(o) else s.server,
           stream := Starting, main := Idle)
      else s.(main := Idle)
    case Stop => s.(ctl := ctl.(exit := true, paused := true), main := Stopping)
    case StopDone =>
      s.(store := st.(segments := map[], objs := seq(|st.objs|, i requires 0 <= i < |st.objs| => st.objs[i].(freed := true))),
         server := Halted(s.server), main := Stopped)
  }

  // ---------------------------------------------------------------------------------------------
  // The stream thread

  datatype StreamStep =
    | TakeLock | Wait | Wake | Quit
    | SelectFirst         // `std::upper_bound`, with `ready` cleared when nothing is left
    | LeaveLoop | NextEvent
    | Interrupted | Message(broken: bool) | ToFrame(fast: bool) | FrameWaitOver | PushStart
    | ResizeWaitOver | RestartServer | Count | Enqueue
    | DrainOver | Finish

  /** The position of `mono_time` among the segments of the route, with the wrap-around of the unsigned difference. */
  function SegmentAt(routeStart: nat, monoTime: nat): int {
    Wrapped(monoTime - routeStart) / 60000000000
  }

  /** The camera of an event kind, if `publishFrame` knows it and it is enabled. */
  function CameraOf(cfg: Config, which: nat): Option<Camera> {
    if which == cfg.roadIdx then Some(Road)
    else if which == cfg.driverIdx then (if cfg.dcam then Some(Driver) else None)
    else if which == cfg.wideIdx then (if cfg.ecam then Some(Wide) else None)
    else None
  }

  /** The item `publishFrame` pushes for the event at index `i`, if any. */
  function FrameItem(s: State, i: nat): Option<Item>
    requires i < |s.store.events|
  {
    var e := s.store.events[i];
    match CameraOf(s.cfg, e.which)
    case None => None
    case Some(c) =>
      if e.eidxSegnum in s.store.merged && IsHeld(s.store, e.eidxSegnum) then
        var id := s.store.segments[e.eidxSegnum].id;
        if c in s.store.objs[id].frames then Some(Item(id, c, s.store.gen, i)) else None
      else None
  }

  predicate NoneOutstanding(s: State) { s.server.publishing <= 0 }

  predicate StreamEnabled(s: State, a: StreamStep) {
    var go := s.ctl.exit || (s.ctl.ready && !s.ctl.paused);
    match a
    case TakeLock => s.stream == Starting
    case Wait => s.stream == Head && !go
    case Wake => s.stream == Waiting && go
    case Quit => s.stream == Head && s.ctl.exit
    case SelectFirst => s.stream == Head && go && !s.ctl.exit
    case LeaveLoop => s.stream.Publish? && (s.ctl.paused || s.stream.i >= |s.store.events|)
    case NextEvent => s.stream.Publish? && !s.ctl.paused && s.stream.i < |s.store.events|
    case Interrupted => s.stream.Sleeping? && s.ctl.paused
    case Message(_) =>
      s.stream.Sleeping? && !s.ctl.paused && s.stream.i < |s.store.events| && s.store.events[s.stream.i].eidxSegnum == -1
    case ToFrame(_) =>
      s.stream.Sleeping? && !s.ctl.paused && s.stream.i < |s.store.events| && s.store.events[s.stream.i].eidxSegnum != -1
    case FrameWaitOver => s.stream.FrameWait? && NoneOutstanding(s)
    case PushStart => s.stream.Frame? && s.stream.i < |s.store.events|
    case ResizeWaitOver => s.stream.Resize? && NoneOutstanding(s)
    case RestartServer => s.stream.Restart?
    case Count => s.stream.PushCount?
    case Enqueue => s.stream.PushQueue?
    case DrainOver => s.stream.Drain? && (s.server.running ==> NoneOutstanding(s))
    case Finish => s.stream.Tail?
  }

  function FrameSize(st: Store, item: Item): nat {
    if item.id < |st.objs| && item.cam in st.objs[item.id].frames then st.objs[item.id].frames[item.cam] else 0
  }

  function Started(cam: Cam): Cam { cam.(thread := cam.thread || cam.size > 0) }

  /** `startVipcServer`: every camera whose size is set gets a thread. */
  function Restarted(v: Server): Server {
    v.(road := Started(v.road), driver := Started(v.driver), wide := Started(v.wide))
  }

  function StreamNext(s: State, a: StreamStep): State
    requires StreamEnabled(s, a)
  {
    match a
    case TakeLock => s.(stream := Head)
    case Wait => s.(stream := Waiting)
    case Wake => s.(stream := Head)
    case Quit => s.(stream := Done)
    case SelectFirst =>
      var first := UpperBound(s.store.events, s.ctl.curWhich, s.ctl.curMono);
      if first == |s.store.events| then s.(ctl := s.ctl.(ready := false))
      else s.(stream := Publish(first))
    case LeaveLoop => s.(stream := Drain(s.stream.i))
    case NextEvent =>
      var e := s.store.events[s.stream.i];
      var ctl := s.ctl.(curSegment := SegmentAt(s.ctl.routeStart, e.monoTime));
      if e.which in ctl.sockets then s.(ctl := ctl.(curMono := e.monoTime), stream := Sleeping(s.stream.i))
      else s.(ctl := ctl, stream := Publish(s.stream.i + 1))
    case Interrupted => s.(stream := Drain(s.stream.i))
    case Message(broken) =>
      var which := s.store.events[s.stream.i].which;
      s.(ctl := if broken then s.ctl.(sockets := s.ctl.sockets - {which}) else s.ctl, stream := Publish(s.stream.i + 1))
    case ToFrame(fast) =>
      s.(stream := if !s.server.running then Publish(s.stream.i + 1) else if fast then FrameWait(s.stream.i) else Frame(s.stream.i))
    case FrameWaitOver => s.(stream := Frame(s.stream.i))
    case PushStart =>
      (match FrameItem(s, s.stream.i)
       case None => s.(stream := Publish(s.stream.i + 1))
       case Some(item) =>
         var cam, size := CamOf(s.server, item.cam), FrameSize(s.store, item);
         if cam.size != size then
           s.(server := WithCam(s.server, item.cam, cam.(size := size)), stream := Resize(s.stream.i, item))
         else s.(stream := PushCount(s.stream.i, item)))
    case ResizeWaitOver => s.(stream := Restart(s.stream.i, s.stream.item))
    case RestartServer => s.(server := Restarted(s.server), stream := PushCount(s.stream.i, s.stream.item))
    case Count =>
      s.(server := s.server.(publishing := s.server.publishing + 1), stream := PushQueue(s.stream.i, s.stream.item))
    case Enqueue =>
      var cam := CamOf(s.server, s.stream.item.cam);
      s.(server := WithCam(s.server, s.stream.item.cam,
                           cam.(queue := cam.queue + [s.stream.item], pushed := cam.pushed + [s.stream.item])),
         stream := Publish(s.stream.i + 1))
    case DrainOver => s.(stream := Tail(s.stream.i))
    case Finish =>
      s.(ctl := if s.stream.i < |s.store.events| then s.ctl.(curWhich := s.store.events[s.stream.i].which) else s.ctl,
         stream := Head)
  }

  // ---------------------------------------------------------------------------------------------
  // Camera threads and workers

  datatype CameraStep = Pop(c: Camera) | Sent(c: Camera)

  predicate CameraEnabled(s: State, a: CameraStep) {
    var cam := CamOf(s.server, a.c);
    match a
    case Pop(_) => cam.thread && cam.busy.None? && cam.queue != []
    case Sent(_) => cam.thread && cam.busy.Some?
  }

  function CameraNext(s: State, a: CameraStep): State
    requires CameraEnabled(s, a)
  {
    var cam := CamOf(s.server, a.c);
    match a
    case Pop(c) => s.(server := WithCam(s.server, c, cam.(queue := cam.queue[1..], busy := Some(cam.queue[0]))))
    case Sent(c) =>
      s.(server := WithCam(s.server, c, cam.(busy := None, sent := cam.sent + [cam.busy.value]))
                   .(publishing := s.server.publishing - 1))
  }

  /** A loading job of a segment object takes a step. */
  datatype WorkerStep = Work(id: nat, step: SegmentLoad.Step)

  ghost predicate WorkerEnabled(s: State, a: WorkerStep) {
    && a.id < |s.store.objs| && !s.store.objs[a.id].freed
    && var o := s.store.objs[a.id];
      SegmentLoad.Enabled(o.load, a.step) && LogGood(o.(load := SegmentLoad.Next(o.load, a.step)))
  }

  /** What the step of a job adds to the event queue. */
  function Posts(id: nat, before: SegmentLoad.State, after: SegmentLoad.State): seq<Post> {
    if |after.delivered| > |before.delivered| then [Post(id, after.delivered[|after.delivered| - 1])] else []
  }

  ghost function WorkerNext(s: State, a: WorkerStep): State
    requires WorkerEnabled(s, a)
  {
    var o := s.store.objs[a.id];
    var load := SegmentLoad.Next(o.load, a.step);
    s.(store := s.store.(objs := s.store.objs[a.id := o.(load := load)]), posted := s.posted + Posts(a.id, o.load, load))
  }

  // ---------------------------------------------------------------------------------------------
  // Runs

  datatype Step = OfMain(m: MainStep) | OfStream(t: StreamStep) | OfCamera(c: CameraStep) | OfWorker(w: WorkerStep)

  ghost predicate Enabled(s: State, a: Step) {
    match a
    case OfMain(m) => MainEnabled(s, m)
    case OfStream(t) => StreamEnabled(s, t)
    case OfCamera(c) => CameraEnabled(s, c)
    case OfWorker(w) => WorkerEnabled(s, w)
  }

  ghost function Next(s: State, a: Step): State
    requires Enabled(s, a)
  {
    match a
    case OfMain(m) => MainNext(s, m)
    case OfStream(t) => StreamNext(s, t)
    case OfCamera(c) => CameraNext(s, c)
    case OfWorker(w) => WorkerNext(s, w)
  }

  /** After `Replay::load`: the valid segments of the route, none of them held. */
  ghost predicate Init(s: State) {
    && (forall n :: n in s.store.segments ==> s.store.segments[n] == Empty)
    && s.store.objs == [] && s.store.merged == {} && s.store.events == []
    && !s.ctl.exit && !s.ctl.ready
    && s.main == Idle && s.stream == NotStarted && s.posted == []
    && s.server == Server(false, 0, Cam(0, false, [], None, [], []), Cam(0, false, [], None, [], []),
                          Cam(0, false, [], None, [], []))
  }

  ghost predicate Reaches(s0: State, steps: seq<Step>, s: State)
    decreases |steps|
  {
    if steps == [] then s == s0
    else
      var n := |steps| - 1;
      exists t :: Reaches(s0, steps[..n], t) && Enabled(t, steps[n]) && s == Next(t, steps[n])
  }
}
