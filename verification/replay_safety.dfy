/** What every interleaving of the replay engine keeps, and what follows from it for every run. */
module ReplaySafety {
  import opened Helpers
  import opened ReplayEvents
  import opened CacheWindow
  import opened ReplayEngine
  import SegmentLoad

  // ---------------------------------------------------------------------------------------------
  // The invariant

  ghost predicate Live(st: Store, id: nat) { id < |st.objs| && !st.objs[id].freed }

  /** A slot holds a live object of its number, and a live object is in its slot. */
  ghost predicate SlotsOk(st: Store) {
    && (forall n :: n in st.segments && st.segments[n].Held? ==>
          Live(st, st.segments[n].id) && st.objs[st.segments[n].id].num == n)
    && (forall id :: 0 <= id < |st.objs| && !st.objs[id].freed ==> InSlot(st, id))
  }

  ghost predicate ObjOk(o: SegmentObj, id: nat) {
    && LoadOk(o)
    && (forall e :: e in o.log ==> e.owner == id)
    && (forall c :: c in o.frames ==> o.frames[c] > 0)
  }

  ghost predicate LoadOk(o: SegmentObj) {
    && SegmentLoad.Reachable(o.load) && o.load.connected && o.load.jobs != []
    && LogGood(o) && (Loaded(o) ==> o.log != [] && Sorted(o.log))
  }

  ghost predicate ObjsOk(st: Store) {
    forall id :: 0 <= id < |st.objs| ==> ObjOk(st.objs[id], id)
  }

  ghost predicate MergedOk(st: Store) {
    forall n :: n in st.merged ==> IsLoaded(st, n)
  }

  ghost predicate EventsOk(st: Store) {
    st.events == MergeAll(LogsOf(st, st.merged), st.mergeSockets)
  }

  ghost predicate StoreOk(st: Store) {
    SlotsOk(st) && ObjsOk(st) && MergedOk(st) && EventsOk(st)
  }

  ghost function HeldSet(st: Store): set<int> {
    set n | n in st.segments && st.segments[n].Held?
  }

  ghost predicate WinOk(cfg: Config, st: Store, w: Win) {
    && w.inside <= st.segments.Keys
    && w.cur in w.inside
    && |w.inside| == Min(cfg.limit, |st.segments.Keys|)
    && w.forward != [] && w.forward[0] == w.cur
    && (forall n :: n in w.forward ==> n in w.inside)
    && (forall n :: n in w.reverse ==> n in w.inside)
  }

  ghost predicate AfterOk(cfg: Config, st: Store, after: After) {
    match after
    case ToUpdate => |HeldSet(st)| <= cfg.limit
    case ToFree(w) =>
      && WinOk(cfg, st, w) && IsHeld(st, w.cur) && st.merged <= w.inside
      && |HeldSet(st)| <= cfg.limit + 1 && |st.objs| <= w.before + 1
  }

  ghost predicate MainOk(cfg: Config, st: Store, main: MainPc) {
    match main
    case Seeking(t) => |HeldSet(st)| <= cfg.limit && t >= 0.0
    case Erasing(n) =>
      |HeldSet(st)| <= cfg.limit && n !in st.merged && IsHeld(st, n) && false in st.objs[st.segments[n].id].load.delivered
    case Check(after) => AfterOk(cfg, st, after)
    case SeekDone(after) => AfterOk(cfg, st, after)
    case Forward(w) => |HeldSet(st)| <= cfg.limit && WinOk(cfg, st, w) && |st.objs| == w.before
    case Reverse(w) => |HeldSet(st)| <= cfg.limit && WinOk(cfg, st, w) && IsHeld(st, w.cur) && |st.objs| == w.before
    case Merging(w) =>
      WinOk(cfg, st, w) && IsHeld(st, w.cur) && |HeldSet(st)| <= cfg.limit + 1 && |st.objs| <= w.before + 1
    case Swapping(w, toMerge, sockets, events) =>
      && WinOk(cfg, st, w) && IsHeld(st, w.cur) && |HeldSet(st)| <= cfg.limit + 1 && |st.objs| <= w.before + 1
      && toMerge <= w.inside && (forall n :: n in toMerge ==> IsLoaded(st, n))
      && events == MergeAll(LogsOf(st, toMerge), sockets)
    case Freeing(w) => AfterOk(cfg, st, ToFree(w))
    case Launch(w) => AfterOk(cfg, st, ToFree(w)) && HeldSet(st) <= w.inside
    case _ => |HeldSet(st)| <= cfg.limit
  }

  /** Everything an item in a camera queue points to is there: the buffer of events, and the reader of a merged segment. */
  ghost predicate ItemOk(st: Store, item: Item) {
    && item.gen == st.gen && item.index < |st.events|
    && Live(st, item.id) && item.cam in st.objs[item.id].frames
    && st.objs[item.id].num in st.merged && IsHeld(st, st.objs[item.id].num)
    && st.segments[st.objs[item.id].num].id == item.id
  }

  /** The items pushed to a camera and not yet done with, oldest first. */
  function Pending(cam: Cam): seq<Item> {
    (if cam.busy.Some? then [cam.busy.value] else []) + cam.queue
  }

  function Outstanding(v: Server): nat {
    |Pending(v.road)| + |Pending(v.driver)| + |Pending(v.wide)|
  }

  ghost predicate CamOk(st: Store, cam: Cam) {
    && cam.pushed == cam.sent + Pending(cam)
    && (Pending(cam) != [] ==> cam.thread)
    && (forall item :: item in Pending(cam) ==> ItemOk(st, item))
  }

  ghost predicate CamsOk(st: Store, v: Server) {
    CamOk(st, v.road) && CamOk(st, v.driver) && CamOk(st, v.wide)
  }

  /** `publishing_` counts what is outstanding, and nothing is outstanding while the lock is free. */
  ghost predicate CountOk(v: Server, pc: StreamPc) {
    && v.publishing == Outstanding(v) + (if pc.PushQueue? then 1 else 0)
    && (LockFree(pc) || pc.Head? || pc.Tail? || pc.Restart? || !v.running ==> Outstanding(v) == 0)
  }

  ghost predicate PushOk(st: Store, v: Server, i: nat, item: Item) {
    && i < |st.events| && item.index == i && ItemOk(st, item) && v.running
    && CamOf(v, item.cam).size == FrameSize(st, item)
  }

  /** Between `pushFrame`'s entry and the push, the item is good and, from `PushCount` on, its camera has a thread. */
  ghost predicate StreamOk(st: Store, v: Server, pc: StreamPc) {
    match pc
    case NotStarted => !v.running
    case Publish(i) => i <= |st.events| && st.events != []
    case Sleeping(i) => i < |st.events|
    case FrameWait(i) => i < |st.events| && v.running
    case Frame(i) => i < |st.events| && v.running
    case Resize(i, item) => PushOk(st, v, i, item)
    case Restart(i, item) => PushOk(st, v, i, item)
    case PushCount(i, item) => PushOk(st, v, i, item) && CamOf(v, item.cam).thread
    case PushQueue(i, item) => PushOk(st, v, i, item) && CamOf(v, item.cam).thread
    case Drain(i) => i <= |st.events| && st.events != []
    case Tail(i) => i <= |st.events| && st.events != []
    case _ => true
  }

  /** Outside a resize every camera whose size is known has a thread. */
  ghost predicate ThreadsOk(v: Server, pc: StreamPc) {
    !pc.Resize? && !pc.Restart? && v.running ==>
      && (v.road.size > 0 ==> v.road.thread)
      && (v.driver.size > 0 ==> v.driver.thread)
      && (v.wide.size > 0 ==> v.wide.thread)
  }

  ghost predicate ServerOk(st: Store, v: Server, pc: StreamPc) {
    CamsOk(st, v) && CountOk(v, pc) && StreamOk(st, v, pc) && ThreadsOk(v, pc)
  }

  ghost predicate StoppedOk(v: Server, pc: StreamPc) {
    && pc in {NotStarted, Done} && Outstanding(v) == 0 && !v.running
    && !v.road.thread && !v.driver.thread && !v.wide.thread
  }

  /** What waits in the event queue was sent by the object it names. */
  ghost predicate PostedOk(st: Store, posted: seq<Post>) {
    forall p :: p in posted ==> p.id < |st.objs| && p.success in st.objs[p.id].load.delivered
  }

  ghost predicate Inv(s: State) {
    if s.main == Stopped then StoppedOk(s.server, s.stream)
    else
      && StoreOk(s.store) && MainOk(s.cfg, s.store, s.main) && ServerOk(s.store, s.server, s.stream)
      && PostedOk(s.store, s.posted)
  }

  // ---------------------------------------------------------------------------------------------
  // Changes of the store which leave the merged segments alone

  ghost predicate KeepsMerged(st: Store, st': Store) {
    && st'.merged == st.merged && st'.events == st.events && st'.gen == st.gen && st'.mergeSockets == st.mergeSockets
    && |st.objs| <= |st'.objs|
    && (forall n :: n in st.merged ==> n in st.segments && n in st'.segments && st'.segments[n] == st.segments[n])
    && (forall n :: n in st.merged && IsHeld(st, n) ==> SameSegment(st.objs[st.segments[n].id], st'.objs[st.segments[n].id]))
    && (forall id :: 0 <= id < |st.objs| ==> st.objs[id].load.delivered <= st'.objs[id].load.delivered)
  }

  /** The same segment, maybe further on with its loading jobs. */
  ghost predicate SameSegment(o: SegmentObj, o': SegmentObj) {
    && o'.num == o.num && o'.log == o.log && o'.frames == o.frames && o'.freed == o.freed
    && (Loaded(o) ==> Loaded(o'))
  }

  lemma KeepsMergedPosted(st: Store, st': Store, posted: seq<Post>)
    requires PostedOk(st, posted) && KeepsMerged(st, st')
    ensures PostedOk(st', posted)
  {
    forall p | p in posted
      ensures p.success in st'.objs[p.id].load.delivered
    {
      assert st.objs[p.id].load.delivered <= st'.objs[p.id].load.delivered;
    }
  }

  lemma LogsOfSame(st: Store, st': Store, ns: set<int>)
    requires forall n :: n in ns ==> LogOf(st', n) == LogOf(st, n)
    ensures LogsOf(st', ns) == LogsOf(st, ns)
  {
    var keys := Ordered(ns);
    forall i | 0 <= i < |keys|
      ensures LogsOf(st', ns)[i] == LogsOf(st, ns)[i]
    {
      assert keys[i] in keys;
    }
  }

  lemma KeepsMergedStore(st: Store, st': Store)
    requires MergedOk(st) && EventsOk(st) && KeepsMerged(st, st')
    ensures MergedOk(st') && EventsOk(st')
  {
    LogsOfSame(st, st', st.merged);
  }

  lemma KeepsMergedServer(st: Store, st': Store, v: Server, pc: StreamPc)
    requires ServerOk(st, v, pc) && KeepsMerged(st, st')
    ensures ServerOk(st', v, pc)
  {
  }

  lemma CreateParts(st: Store, n: int, obj: SegmentObj)
    requires SlotsOk(st) && ObjsOk(st) && n in st.segments && st.segments[n].Empty? && Fresh(st, n, obj)
    ensures SlotsOk(Create(st, n, obj)) && ObjsOk(Create(st, n, obj))
  {
    LoadedHasLog(obj);
    assert ObjOk(obj, |st.objs|);
  }

  lemma CreateKeeps(st: Store, n: int, obj: SegmentObj)
    requires MergedOk(st) && n in st.segments && st.segments[n].Empty?
    ensures KeepsMerged(st, Create(st, n, obj))
  {
  }

  lemma CreateOk(st: Store, n: int, obj: SegmentObj)
    requires StoreOk(st) && n in st.segments && st.segments[n].Empty? && Fresh(st, n, obj)
    ensures StoreOk(Create(st, n, obj)) && KeepsMerged(st, Create(st, n, obj))
    ensures |HeldSet(Create(st, n, obj))| == |HeldSet(st)| + 1 && IsHeld(Create(st, n, obj), n)
    ensures Create(st, n, obj).segments.Keys == st.segments.Keys
    ensures forall m :: IsHeld(st, m) ==> IsHeld(Create(st, n, obj), m)
  {
    var st' := Create(st, n, obj);
    assert HeldSet(st') == HeldSet(st) + {n};
    CreateParts(st, n, obj);
    CreateKeeps(st, n, obj);
    KeepsMergedStore(st, st');
  }

  lemma ReleaseParts(st: Store, n: int, st': Store)
    requires SlotsOk(st) && ObjsOk(st) && MergedOk(st) && IsHeld(st, n) && n !in st.merged
    requires st' == Release(st, n).(segments := st.segments[n := Empty])
    ensures SlotsOk(st') && ObjsOk(st') && KeepsMerged(st, st')
  {
  }

  lemma ReleaseOk(st: Store, n: int, st': Store)
    requires StoreOk(st) && IsHeld(st, n) && n !in st.merged
    requires st' == Release(st, n).(segments := st.segments[n := Empty])
    ensures StoreOk(st') && KeepsMerged(st, st')
    ensures HeldSet(st') == HeldSet(st) - {n} && st'.segments.Keys == st.segments.Keys
    ensures forall m :: IsHeld(st', m) <==> IsHeld(st, m) && m != n
  {
    ReleaseParts(st, n, st');
    KeepsMergedStore(st, st');
  }

  lemma DropOk(st: Store, n: int)
    requires StoreOk(st) && n !in st.merged
    ensures StoreOk(Drop(st, n)) && KeepsMerged(st, Drop(st, n))
    ensures HeldSet(Drop(st, n)) <= HeldSet(st)
  {
    KeepsMergedStore(st, Drop(st, n));
  }

  /** A loading job goes on. */
  lemma JobKeeps(o: SegmentObj, a: SegmentLoad.Step)
    requires LoadOk(o) && SegmentLoad.Enabled(o.load, a)
    requires LogGood(o.(load := SegmentLoad.Next(o.load, a)))
    ensures var o' := o.(load := SegmentLoad.Next(o.load, a));
      LoadOk(o') && SameSegment(o, o') && o.load.delivered <= o'.load.delivered
  {
    SegmentLoad.ConnectedStep(o.load, a);
    LoadedHasLog(o.(load := SegmentLoad.Next(o.load, a)));
  }

  lemma LoadedHasLog(o: SegmentObj)
    requires SegmentLoad.Reachable(o.load) && o.load.connected && o.load.jobs != [] && LogGood(o)
    ensures Loaded(o) ==> o.log != [] && Sorted(o.log)
  {
    SegmentLoad.ConnectedFacts(o.load);
  }

  lemma WorkerOk(s: State, a: WorkerStep)
    requires StoreOk(s.store) && WorkerEnabled(s, a)
    ensures StoreOk(WorkerNext(s, a).store) && KeepsMerged(s.store, WorkerNext(s, a).store)
    ensures forall n :: IsLoaded(s.store, n) ==> IsLoaded(WorkerNext(s, a).store, n)
    ensures forall n :: IsHeld(s.store, n) <==> IsHeld(WorkerNext(s, a).store, n)
    ensures forall n :: LogOf(s.store, n) == LogOf(WorkerNext(s, a).store, n)
  {
    JobKeeps(s.store.objs[a.id], a.step);
    KeepsMergedStore(s.store, WorkerNext(s, a).store);
  }

  lemma PostsOk(s: State, a: WorkerStep)
    requires StoreOk(s.store) && PostedOk(s.store, s.posted) && WorkerEnabled(s, a)
    requires KeepsMerged(s.store, WorkerNext(s, a).store)
    ensures PostedOk(WorkerNext(s, a).store, WorkerNext(s, a).posted)
  {
    KeepsMergedPosted(s.store, WorkerNext(s, a).store, s.posted);
  }

  lemma {:induction false} NextToLoadFacts(st: Store, keys: seq<int>, seen: set<int>)
    requires forall n :: n in seen ==> IsLoaded(st, n)
    requires forall n :: n in keys ==> n in st.segments
    ensures var r := NextToLoad(st, keys, seen);
      && (r.Some? ==> r.value in keys && r.value in st.segments && st.segments[r.value].Empty?)
      && (keys != [] && keys[0] in st.segments && (r.None? || r.value != keys[0]) ==> st.segments[keys[0]].Held?)
  {
    if keys != [] {
      assert keys[0] in keys;
      NextToLoadFacts(st, keys[1..], seen);
    }
  }

  // ---------------------------------------------------------------------------------------------
  // Every step keeps the invariant

  lemma WorkerKeeps(s: State, a: WorkerStep)
    requires Inv(s) && WorkerEnabled(s, a)
    ensures Inv(WorkerNext(s, a))
  {
    if s.main != Stopped {
      var t := WorkerNext(s, a);
      WorkerOk(s, a);
      KeepsMergedServer(s.store, t.store, s.server, s.stream);
      WorkerKeepsMain(s, a);
      PostsOk(s, a);
    }
  }

  lemma WorkerKeepsMain(s: State, a: WorkerStep)
    requires StoreOk(s.store) && MainOk(s.cfg, s.store, s.main) && WorkerEnabled(s, a)
    ensures MainOk(s.cfg, WorkerNext(s, a).store, s.main)
  {
    var t := WorkerNext(s, a);
    WorkerOk(s, a);
    assert HeldSet(t.store) == HeldSet(s.store);
    if s.main.Swapping? {
      LogsOfSame(s.store, t.store, s.main.toMerge);
    }
  }

  lemma PopKeeps(st: Store, cam: Cam)
    requires CamOk(st, cam) && cam.busy.None? && cam.queue != []
    ensures var cam' := cam.(queue := cam.queue[1..], busy := Some(cam.queue[0]));
      CamOk(st, cam') && Pending(cam') == Pending(cam)
  {
    var cam' := cam.(queue := cam.queue[1..], busy := Some(cam.queue[0]));
    assert Pending(cam') == Pending(cam);
  }

  lemma SentKeeps(st: Store, cam: Cam)
    requires CamOk(st, cam) && cam.busy.Some?
    ensures var cam' := cam.(busy := None, sent := cam.sent + [cam.busy.value]);
      CamOk(st, cam') && |Pending(cam')| == |Pending(cam)| - 1
  {
    var cam' := cam.(busy := None, sent := cam.sent + [cam.busy.value]);
    assert Pending(cam) == [cam.busy.value] + Pending(cam');
  }

  lemma EnqueueKeepsCam(st: Store, cam: Cam, item: Item)
    requires CamOk(st, cam) && cam.thread && ItemOk(st, item)
    ensures var cam' := cam.(queue := cam.queue + [item], pushed := cam.pushed + [item]);
      CamOk(st, cam') && |Pending(cam')| == |Pending(cam)| + 1
  {
    var cam' := cam.(queue := cam.queue + [item], pushed := cam.pushed + [item]);
    assert Pending(cam') == Pending(cam) + [item];
  }

  /** Replacing one camera by another with the same size and thread keeps what does not count items. */
  lemma WithCamKeeps(st: Store, v: Server, pc: StreamPc, c: Camera, cam: Cam)
    requires CamsOk(st, v) && StreamOk(st, v, pc) && ThreadsOk(v, pc)
    requires CamOk(st, cam) && cam.size == CamOf(v, c).size && cam.thread == CamOf(v, c).thread
    ensures var v' := WithCam(v, c, cam); CamsOk(st, v') && StreamOk(st, v', pc) && ThreadsOk(v', pc)
    ensures Outstanding(WithCam(v, c, cam)) == Outstanding(v) + |Pending(cam)| - |Pending(CamOf(v, c))|
  {
  }

  lemma PublishingKeeps(st: Store, v: Server, pc: StreamPc, n: int)
    requires CamsOk(st, v) && StreamOk(st, v, pc) && ThreadsOk(v, pc)
    ensures var v' := v.(publishing := n); CamsOk(st, v') && StreamOk(st, v', pc) && ThreadsOk(v', pc)
    ensures Outstanding(v.(publishing := n)) == Outstanding(v)
  {
  }

  lemma CameraKeepsServer(s: State, a: CameraStep)
    requires ServerOk(s.store, s.server, s.stream) && CameraEnabled(s, a)
    ensures ServerOk(s.store, CameraNext(s, a).server, s.stream)
  {
    var cam := CamOf(s.server, a.c);
    match a
    case Pop(c) =>
      var cam' := cam.(queue := cam.queue[1..], busy := Some(cam.queue[0]));
      PopKeeps(s.store, cam);
      WithCamKeeps(s.store, s.server, s.stream, c, cam');
    case Sent(c) =>
      var cam' := cam.(busy := None, sent := cam.sent + [cam.busy.value]);
      SentKeeps(s.store, cam);
      WithCamKeeps(s.store, s.server, s.stream, c, cam');
      PublishingKeeps(s.store, WithCam(s.server, c, cam'), s.stream, s.server.publishing - 1);
  }

  lemma CameraKeeps(s: State, a: CameraStep)
    requires Inv(s) && CameraEnabled(s, a)
    ensures Inv(CameraNext(s, a))
  {
    if s.main != Stopped {
      CameraKeepsServer(s, a);
    }
  }

  lemma FrameItemOk(s: State, i: nat)
    requires StoreOk(s.store) && i < |s.store.events| && FrameItem(s, i).Some?
    ensures ItemOk(s.store, FrameItem(s, i).value) && FrameSize(s.store, FrameItem(s, i).value) > 0
    ensures FrameItem(s, i).value.index == i
  {
    assert IsLoaded(s.store, s.store.events[i].eidxSegnum);
  }

  /** Setting the size of a camera keeps the items; whether it still has a thread to match is up to the restart. */
  lemma ResizeKeeps(st: Store, v: Server, c: Camera, size: nat)
    requires CamsOk(st, v)
    ensures var v' := WithCam(v, c, CamOf(v, c).(size := size)); CamsOk(st, v') && Outstanding(v') == Outstanding(v)
  {
  }

  lemma PushStartKeeps(s: State)
    requires ServerOk(s.store, s.server, s.stream) && StreamEnabled(s, PushStart)
    requires var item := FrameItem(s, s.stream.i);
      item.Some? ==> ItemOk(s.store, item.value) && FrameSize(s.store, item.value) > 0 && item.value.index == s.stream.i
    ensures ServerOk(s.store, StreamNext(s, PushStart).server, StreamNext(s, PushStart).stream)
  {
    var t := StreamNext(s, PushStart);
    if FrameItem(s, s.stream.i).Some? {
      var item := FrameItem(s, s.stream.i).value;
      ResizeKeeps(s.store, s.server, item.cam, FrameSize(s.store, item));
      assert CamsOk(s.store, t.server) && CountOk(t.server, t.stream);
      assert StreamOk(s.store, t.server, t.stream);
      assert ThreadsOk(t.server, t.stream);
    }
  }

  lemma RestartKeeps(s: State)
    requires ServerOk(s.store, s.server, s.stream) && StreamEnabled(s, RestartServer)
    requires FrameSize(s.store, s.stream.item) > 0
    ensures ServerOk(s.store, StreamNext(s, RestartServer).server, StreamNext(s, RestartServer).stream)
  {
  }

  lemma EnqueueKeeps(s: State)
    requires ServerOk(s.store, s.server, s.stream) && StreamEnabled(s, Enqueue)
    ensures ServerOk(s.store, StreamNext(s, Enqueue).server, StreamNext(s, Enqueue).stream)
  {
    EnqueueKeepsCam(s.store, CamOf(s.server, s.stream.item.cam), s.stream.item);
  }

  lemma StreamKeepsServer(s: State, a: StreamStep)
    requires ServerOk(s.store, s.server, s.stream) && StreamEnabled(s, a)
    requires a !in {Enqueue, RestartServer, PushStart}
    ensures ServerOk(s.store, StreamNext(s, a).server, StreamNext(s, a).stream)
  {
  }

  lemma ItemSize(st: Store, item: Item)
    requires StoreOk(st) && ItemOk(st, item)
    ensures FrameSize(st, item) > 0
  {
  }

  lemma StreamKeepsParts(s: State, a: StreamStep)
    requires StoreOk(s.store) && ServerOk(s.store, s.server, s.stream) && StreamEnabled(s, a)
    ensures ServerOk(s.store, StreamNext(s, a).server, StreamNext(s, a).stream)
  {
    if a == Enqueue {
      EnqueueKeeps(s);
    } else if a == RestartServer {
      ItemSize(s.store, s.stream.item);
      RestartKeeps(s);
    } else if a == PushStart {
      if FrameItem(s, s.stream.i).Some? {
        FrameItemOk(s, s.stream.i);
      }
      PushStartKeeps(s);
    } else {
      StreamKeepsServer(s, a);
    }
  }

  lemma InvFromServer(s: State, t: State)
    requires Inv(s) && s.main != Stopped && t.cfg == s.cfg && t.store == s.store && t.main == s.main && t.posted == s.posted
    requires ServerOk(t.store, t.server, t.stream)
    ensures Inv(t)
  {
  }

  /** A step of the stream thread leaves the segments, the main thread and the event queue alone. */
  lemma StreamFrame(s: State, a: StreamStep) returns (t: State)
    requires StreamEnabled(s, a)
    ensures t == StreamNext(s, a)
    ensures t.cfg == s.cfg && t.store == s.store && t.main == s.main && t.posted == s.posted
  {
    t := StreamNext(s, a);
  }

  lemma StreamKeeps(s: State, a: StreamStep)
    requires Inv(s) && StreamEnabled(s, a)
    ensures Inv(StreamNext(s, a))
  {
    if s.main != Stopped {
      var t := StreamFrame(s, a);
      StreamKeepsParts(s, a);
      InvFromServer(s, t);
    }
  }

  lemma RangeInside(keys: seq<int>, w: Window, k: nat)
    requires w.begin <= k < w.end <= |keys|
    ensures keys[k] in Inside(keys, w)
  {
    assert keys[w.begin..w.end][k - w.begin] == keys[k];
  }

  lemma ScansInside(segments: set<int>, keys: seq<int>, w: Window, n: int)
    requires IsOrderOf(keys, segments) && w.begin <= w.cur < w.end <= |keys|
    requires n in keys[w.cur..w.end] || n in Backwards(keys[w.begin..w.cur])
    ensures n in Inside(keys, w)
  {
    if n in keys[w.cur..w.end] {
      var i :| 0 <= i < w.end - w.cur && keys[w.cur..w.end][i] == n;
      RangeInside(keys, w, w.cur + i);
    } else {
      var back := Backwards(keys[w.begin..w.cur]);
      var i :| 0 <= i < |back| && back[i] == n;
      assert back[i] == keys[w.begin..w.cur][w.cur - w.begin - 1 - i];
      RangeInside(keys, w, w.cur - 1 - i);
    }
  }

  lemma OpenWindowOk(cfg: Config, st: Store, target: int, keys: seq<int>, cur: nat, w: Window)
    requires IsOrderOf(keys, st.segments.Keys) && cur == LowerBound(keys, target) && cur < |keys|
    requires w == WindowOf(|keys|, cur, cfg.limit)
    ensures WinOk(cfg, st, WinOf(st.segments.Keys, keys, w, |st.objs|))
  {
    WindowHolds(st.segments.Keys, target, cfg.limit, keys, cur, w);
    forall n | n in keys[w.cur..w.end] || n in Backwards(keys[w.begin..w.cur])
      ensures n in Inside(keys, w)
    {
      ScansInside(st.segments.Keys, keys, w, n);
    }
    var win := WinOf(st.segments.Keys, keys, w, |st.objs|);
    assert win.forward[0] == win.cur;
  }

  lemma LoadForwardKeeps(s: State, a: MainStep)
    requires a.LoadForward? && MainEnabled(s, a) && StoreOk(s.store) && MainOk(s.cfg, s.store, s.main)
    ensures var t := MainNext(s, a);
      StoreOk(t.store) && MainOk(t.cfg, t.store, t.main) && KeepsMerged(s.store, t.store)
  {
    var w, st := s.main.w, s.store;
    assert forall n :: n in w.forward ==> n in st.segments;
    NextToLoadFacts(st, w.forward, a.seen);
    assert w.forward[0] in st.segments;
    var r := NextToLoad(st, w.forward, a.seen);
    if r.Some? {
      CreateOk(st, r.value, a.obj);
    }
  }

  lemma LoadReverseKeeps(s: State, a: MainStep)
    requires a.LoadReverse? && MainEnabled(s, a) && StoreOk(s.store) && MainOk(s.cfg, s.store, s.main)
    ensures var t := MainNext(s, a);
      StoreOk(t.store) && MainOk(t.cfg, t.store, t.main) && KeepsMerged(s.store, t.store)
  {
    var w, st := s.main.w, s.store;
    assert forall n :: n in w.reverse ==> n in st.segments;
    NextToLoadFacts(st, w.reverse, a.seen);
    var r := NextToLoad(st, w.reverse, a.seen);
    if r.Some? {
      CreateOk(st, r.value, a.obj);
    }
  }

  lemma FreeOneKeeps(s: State, a: MainStep)
    requires a.FreeOne? && MainEnabled(s, a) && StoreOk(s.store) && MainOk(s.cfg, s.store, s.main)
    ensures var t := MainNext(s, a);
      StoreOk(t.store) && MainOk(t.cfg, t.store, t.main) && KeepsMerged(s.store, t.store)
  {
    ReleaseOk(s.store, a.n, MainNext(s, a).store);
  }

  lemma EraseKeeps(s: State)
    requires MainEnabled(s, EraseApply) && StoreOk(s.store) && MainOk(s.cfg, s.store, s.main)
    ensures var t := MainNext(s, EraseApply);
      StoreOk(t.store) && MainOk(t.cfg, t.store, t.main) && KeepsMerged(s.store, t.store)
  {
    var t := MainNext(s, EraseApply);
    DropOk(s.store, s.main.n);
    SubsetIsSmaller(HeldSet(t.store), HeldSet(s.store));
  }

  lemma {:induction false} SubsetIsSmaller(a: set<int>, b: set<int>)
    requires a <= b
    ensures |a| <= |b|
  {
    NonEmpty(a);
    if a != {} {
      var x :| x in a;
      SubsetIsSmaller(a - {x}, b - {x});
    }
  }

  /** Which main-thread steps change only flags and the program counter. */
  predicate OnlyControl(a: MainStep) {
    a.SeekTo? || a.SeekApply? || a.PauseUser? || a.PauseApply? || a.CheckSeek? || a.SeekDoneApply?
    || a.UpdateCache? || a.OpenWindow? || a.Merge? || a.FreeDone? || a.Stop?
  }

  lemma OpenWindowKeeps(s: State)
    requires MainEnabled(s, OpenWindow) && StoreOk(s.store) && MainOk(s.cfg, s.store, s.main)
    ensures var t := MainNext(s, OpenWindow); t.store == s.store && MainOk(t.cfg, t.store, t.main)
  {
    var keys := Ordered(s.store.segments.Keys);
    var cur := LowerBound(keys, s.ctl.curSegment);
    if cur < |keys| {
      OpenWindowOk(s.cfg, s.store, s.ctl.curSegment, keys, cur, WindowOf(|keys|, cur, s.cfg.limit));
    }
  }

  lemma FreeDoneKeeps(s: State)
    requires MainEnabled(s, FreeDone) && MainOk(s.cfg, s.store, s.main) && SlotsOk(s.store)
    ensures var t := MainNext(s, FreeDone); t.store == s.store && MainOk(t.cfg, t.store, t.main)
  {
    forall n | n in HeldSet(s.store)
      ensures n in s.main.w.inside
    {
      assert IsHeld(s.store, n);
    }
  }

  lemma FlagsKeep(s: State, a: MainStep)
    requires OnlyControl(a) && !a.OpenWindow? && !a.FreeDone?
    requires MainEnabled(s, a) && StoreOk(s.store) && MainOk(s.cfg, s.store, s.main)
    ensures var t := MainNext(s, a); t.store == s.store && MainOk(t.cfg, t.store, t.main)
  {
  }

  lemma ControlKeeps(s: State, a: MainStep)
    requires OnlyControl(a) && MainEnabled(s, a) && StoreOk(s.store) && MainOk(s.cfg, s.store, s.main)
    ensures var t := MainNext(s, a); t.store == s.store && MainOk(t.cfg, t.store, t.main)
  {
    if a.OpenWindow? {
      OpenWindowKeeps(s);
    } else if a.FreeDone? {
      FreeDoneKeeps(s);
    } else {
      FlagsKeep(s, a);
    }
  }

  lemma LaunchKeeps(s: State, a: MainStep)
    requires a.LaunchStream? && MainEnabled(s, a)
    requires MainOk(s.cfg, s.store, s.main) && ServerOk(s.store, s.server, s.stream)
    ensures var t := MainNext(s, a);
      t.store == s.store && MainOk(t.cfg, t.store, t.main) && ServerOk(t.store, t.server, t.stream)
  {
    SubsetIsSmaller(HeldSet(s.store), s.main.w.inside);
  }

  /** The store after the swap. */
  function Swapped(st: Store, toMerge: set<int>, sockets: set<nat>, events: seq<Event>): Store {
    st.(events := events, gen := st.gen + 1, merged := toMerge, mergeSockets := sockets)
  }

  lemma SwapStore(st: Store, toMerge: set<int>, sockets: set<nat>, events: seq<Event>)
    requires StoreOk(st) && (forall n :: n in toMerge ==> IsLoaded(st, n))
    requires events == MergeAll(LogsOf(st, toMerge), sockets)
    ensures StoreOk(Swapped(st, toMerge, sockets, events))
  {
    LogsOfSame(st, Swapped(st, toMerge, sockets, events), toMerge);
  }

  lemma SwapServer(st: Store, st': Store, v: Server, pc: StreamPc)
    requires ServerOk(st, v, pc) && LockFree(pc)
    ensures ServerOk(st', v, pc)
  {
    assert Outstanding(v) == 0;
    assert Pending(v.road) == [] && Pending(v.driver) == [] && Pending(v.wide) == [];
  }

  lemma SwapResult(s: State) returns (t: State)
    requires MainEnabled(s, SwapApply)
    ensures t == MainNext(s, SwapApply)
    ensures t.store == Swapped(s.store, s.main.toMerge, s.main.sockets, s.main.events)
    ensures t.cfg == s.cfg && t.main == Check(ToFree(s.main.w))
    ensures t.server == s.server && t.stream == s.stream && t.posted == s.posted
  {
    t := MainNext(s, SwapApply);
  }

  lemma SwapKeepsParts(s: State, st': Store)
    requires s.main.Swapping? && LockFree(s.stream) && Inv(s)
    requires st' == Swapped(s.store, s.main.toMerge, s.main.sockets, s.main.events)
    ensures StoreOk(st') && MainOk(s.cfg, st', Check(ToFree(s.main.w)))
    ensures ServerOk(st', s.server, s.stream) && PostedOk(st', s.posted)
  {
    SwapStore(s.store, s.main.toMerge, s.main.sockets, s.main.events);
    SwapServer(s.store, st', s.server, s.stream);
  }

  lemma SwapKeeps(s: State)
    requires MainEnabled(s, SwapApply) && Inv(s)
    ensures Inv(MainNext(s, SwapApply))
  {
    var t := SwapResult(s);
    SwapKeepsParts(s, t.store);
  }

  lemma StopDoneKeeps(s: State)
    requires MainEnabled(s, StopDone) && ServerOk(s.store, s.server, s.stream)
    ensures StoppedOk(MainNext(s, StopDone).server, s.stream)
  {
    assert Pending(s.server.road) == [] && Pending(s.server.driver) == [] && Pending(s.server.wide) == [];
  }

  /** The steps which add or destroy a segment object. */
  lemma SegmentStepKeeps(s: State, a: MainStep)
    requires MainEnabled(s, a) && StoreOk(s.store) && MainOk(s.cfg, s.store, s.main)
    requires OnSegments(a)
    ensures var t := MainNext(s, a);
      StoreOk(t.store) && MainOk(t.cfg, t.store, t.main) && KeepsMerged(s.store, t.store)
  {
    if a.LoadForward? {
      LoadForwardKeeps(s, a);
    } else if a.LoadReverse? {
      LoadReverseKeeps(s, a);
    } else if a.FreeOne? {
      FreeOneKeeps(s, a);
    } else {
      EraseKeeps(s);
    }
  }

  lemma ControlStepKeeps(s: State, a: MainStep)
    requires Inv(s) && s.main != Stopped && MainEnabled(s, a) && OnlyControl(a)
    ensures Inv(MainNext(s, a))
  {
    ControlKeeps(s, a);
    assert MainNext(s, a).server == s.server && MainNext(s, a).stream == s.stream;
  }

  lemma SegmentStepKeepsInv(s: State, a: MainStep)
    requires Inv(s) && s.main != Stopped && MainEnabled(s, a)
    requires OnSegments(a)
    ensures Inv(MainNext(s, a))
  {
    SegmentStepKeeps(s, a);
    KeepsMergedServer(s.store, MainNext(s, a).store, s.server, s.stream);
    KeepsMergedPosted(s.store, MainNext(s, a).store, s.posted);
    assert MainNext(s, a).server == s.server && MainNext(s, a).stream == s.stream;
  }

  /** A segment that has announced a failure is not merged. */
  lemma FailedIsNotMerged(st: Store, id: nat)
    requires StoreOk(st) && InSlot(st, id) && false in st.objs[id].load.delivered
    ensures st.objs[id].num !in st.merged
  {
    SegmentLoad.ConnectedFacts(st.objs[id].load);
  }

  lemma DeliverKeeps(s: State)
    requires Inv(s) && s.main != Stopped && MainEnabled(s, Deliver)
    ensures Inv(MainNext(s, Deliver))
  {
    var p := s.posted[0];
    assert p in s.posted;
    if !p.success && InSlot(s.store, p.id) {
      FailedIsNotMerged(s.store, p.id);
    }
    assert MainNext(s, Deliver).server == s.server && MainNext(s, Deliver).stream == s.stream;
  }

  lemma LaunchStepKeeps(s: State, a: MainStep)
    requires Inv(s) && s.main != Stopped && MainEnabled(s, a) && a.LaunchStream?
    ensures Inv(MainNext(s, a))
  {
    LaunchKeeps(s, a);
  }

  lemma OtherStepKeeps(s: State, a: MainStep)
    requires Inv(s) && s.main != Stopped && MainEnabled(s, a)
    requires a.SwapApply? || a.StopDone? || a.LaunchStream? || a.Deliver?
    ensures Inv(MainNext(s, a))
  {
    if a.Deliver? {
      DeliverKeeps(s);
    } else if a.SwapApply? {
      SwapKeeps(s);
    } else if a.StopDone? {
      StopDoneKeeps(s);
    } else {
      LaunchStepKeeps(s, a);
    }
  }

  predicate OnSegments(a: MainStep) { a.LoadForward? || a.LoadReverse? || a.FreeOne? || a.EraseApply? }

  lemma MainKeeps(s: State, a: MainStep)
    requires Inv(s) && MainEnabled(s, a)
    ensures Inv(MainNext(s, a))
  {
    if OnlyControl(a) {
      ControlStepKeeps(s, a);
    } else if OnSegments(a) {
      SegmentStepKeepsInv(s, a);
    } else {
      OtherStepKeeps(s, a);
    }
  }

  lemma InvInit(s: State)
    requires Init(s)
    ensures Inv(s)
  {
    assert forall n :: n !in HeldSet(s.store);
    assert HeldSet(s.store) == {};
    assert |Ordered({})| == 0;
  }

  lemma InvStep(s: State, a: Step)
    requires Inv(s) && Enabled(s, a)
    ensures Inv(Next(s, a))
  {
    match a
    case OfMain(m) => MainKeeps(s, m);
    case OfStream(t) => StreamKeeps(s, t);
    case OfCamera(c) => CameraKeeps(s, c);
    case OfWorker(w) => WorkerKeeps(s, w);
  }

  /** In every interleaving of the threads the invariant holds. */
  lemma {:induction false} InvReaches(s0: State, steps: seq<Step>, s: State)
    requires Init(s0) && Reaches(s0, steps, s)
    ensures Inv(s)
    decreases |steps|
  {
    if steps == [] {
      InvInit(s);
    } else {
      var n := |steps| - 1;
      var t :| Reaches(s0, steps[..n], t) && Enabled(t, steps[n]) && s == Next(t, steps[n]);
      InvReaches(s0, steps[..n], t);
      InvStep(t, steps[n]);
    }
  }
}
