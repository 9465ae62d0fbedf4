/** What the stream thread publishes: every event from the position of the replay to the end, as long as nobody pauses
    (`Replay::streamThread`, `Replay::publishEvents`, `Replay::publishFrame`, tools/replay/replay.cc). */
module ReplayPublishing {
  import opened Helpers
  import opened ReplayEvents
  import opened ReplayEngine
  import opened ReplaySafety
  import opened ReplayRuns

  // ---------------------------------------------------------------------------------------------
  // A stretch of a run, and what it hands out

  /** The event at an index was handed to `publishMessage` (whose send may have failed) or to `publishFrame`. */
  datatype Handed = Handed(index: nat, frame: bool, broken: bool)

  function HandedBy(s: State, a: Step): seq<Handed> {
    if !s.stream.Sleeping? then []
    else
      match a
      case OfStream(Message(broken)) => [Handed(s.stream.i, false, broken)]
      case OfStream(ToFrame(_)) => [Handed(s.stream.i, true, false)]
      case _ => []
  }

  /** All threads run from s to t, nobody pauses, and the stream thread does not start a new batch. */
  ghost predicate Plays(s: State, steps: seq<Step>, t: State, handed: seq<Handed>)
    decreases |steps|
  {
    && !t.ctl.paused
    && if steps == [] then t == s && handed == []
      else
        var n := |steps| - 1;
        exists u, h :: Plays(s, steps[..n], u, h) && Goes(u, steps[n], t) && handed == h + HandedBy(u, steps[n])
  }

  ghost predicate Goes(u: State, a: Step, t: State) {
    Enabled(u, a) && a != OfStream(DrainOver) && t == Next(u, a)
  }

  predicate IsHanded(handed: seq<Handed>, i: nat) {
    exists j :: 0 <= j < |handed| && handed[j].index == i
  }

  /** The kind had a socket at the beginning, and no message of it handed out at an index below i has failed. */
  predicate HasSocket(events: seq<Event>, sockets: set<nat>, handed: seq<Handed>, which: nat, i: nat) {
    && which in sockets
    && forall j :: 0 <= j < |handed| && handed[j].index < i && handed[j].index < |events| && handed[j].broken ==>
        events[handed[j].index].which != which
  }

  /** In the order of the events, each once, exactly those from `first` up to `end` were handed out whose kind had a socket when
      their turn came; video frames to `publishFrame` and all others to `publishMessage`. */
  ghost predicate Covers(events: seq<Event>, sockets: set<nat>, handed: seq<Handed>, first: nat, end: nat) {
    && first <= end <= |events|
    && (forall j, k :: 0 <= j < k < |handed| ==> handed[j].index < handed[k].index)
    && (forall j :: 0 <= j < |handed| ==> first <= handed[j].index < end)
    && (forall j :: 0 <= j < |handed| ==> (handed[j].frame <==> events[handed[j].index].eidxSegnum != -1))
    && (forall j :: 0 <= j < |handed| ==> !(handed[j].frame && handed[j].broken))
    && (forall i :: first <= i < end ==> (IsHanded(handed, i) <==> HasSocket(events, sockets, handed, events[i].which, i)))
  }

  /** The time of the last event handed out, if any. */
  function LastTime(events: seq<Event>, handed: seq<Handed>, before: nat): nat {
    if handed == [] || handed[|handed| - 1].index >= |events| then before else events[handed[|handed| - 1].index].monoTime
  }

  lemma SocketStays(events: seq<Event>, sockets: set<nat>, handed: seq<Handed>, h: Handed, which: nat, i: nat)
    requires h.index >= i
    ensures HasSocket(events, sockets, handed + [h], which, i) <==> HasSocket(events, sockets, handed, which, i)
  {
    var all := handed + [h];
    assert forall j :: 0 <= j < |handed| ==> all[j] == handed[j];
    if HasSocket(events, sockets, all, which, i) {
      forall j | 0 <= j < |handed| && handed[j].index < i && handed[j].index < |events| && handed[j].broken
        ensures events[handed[j].index].which != which
      {
        assert all[j] == handed[j];
      }
    }
  }

  lemma HandedMore(handed: seq<Handed>, h: Handed, i: nat)
    ensures IsHanded(handed + [h], i) <==> IsHanded(handed, i) || h.index == i
  {
    var all := handed + [h];
    if IsHanded(handed, i) {
      var j :| 0 <= j < |handed| && handed[j].index == i;
      assert all[j].index == i;
    }
    assert all[|handed|] == h;
  }

  /** An event without a socket is passed over. */
  lemma CoversSkip(events: seq<Event>, sockets: set<nat>, handed: seq<Handed>, first: nat, end: nat)
    requires Covers(events, sockets, handed, first, end) && end < |events|
    requires !HasSocket(events, sockets, handed, events[end].which, end)
    ensures Covers(events, sockets, handed, first, end + 1)
  {
    assert !IsHanded(handed, end);
  }

  /** An event with a socket is handed out. */
  lemma CoversHand(events: seq<Event>, sockets: set<nat>, handed: seq<Handed>, first: nat, end: nat, h: Handed)
    requires Covers(events, sockets, handed, first, end) && end < |events|
    requires HasSocket(events, sockets, handed, events[end].which, end)
    requires h.index == end && (h.frame <==> events[end].eidxSegnum != -1) && !(h.frame && h.broken)
    ensures Covers(events, sockets, handed + [h], first, end + 1)
  {
    var all := handed + [h];
    forall i | first <= i < end + 1
      ensures IsHanded(all, i) <==> HasSocket(events, sockets, all, events[i].which, i)
    {
      SocketStays(events, sockets, handed, h, events[i].which, i);
      HandedMore(handed, h, i);
    }
  }

  /** The sockets that are left. */
  ghost predicate SocketsLeft(events: seq<Event>, sockets: set<nat>, handed: seq<Handed>, end: nat, left: set<nat>) {
    forall which :: which in left <==> HasSocket(events, sockets, handed, which, end)
  }

  lemma SocketsAfterSkip(events: seq<Event>, sockets: set<nat>, handed: seq<Handed>, first: nat, end: nat, left: set<nat>)
    requires Covers(events, sockets, handed, first, end) && SocketsLeft(events, sockets, handed, end, left)
    ensures SocketsLeft(events, sockets, handed, end + 1, left)
  {
    forall which
      ensures HasSocket(events, sockets, handed, which, end + 1) <==> HasSocket(events, sockets, handed, which, end)
    {
    }
  }

  lemma SocketsAfterHand(events: seq<Event>, sockets: set<nat>, handed: seq<Handed>, first: nat, end: nat, left: set<nat>,
                         h: Handed)
    requires Covers(events, sockets, handed, first, end) && SocketsLeft(events, sockets, handed, end, left)
    requires end < |events| && h.index == end
    ensures SocketsLeft(events, sockets, handed + [h], end + 1, if h.broken then left - {events[end].which} else left)
  {
    var all := handed + [h];
    var left' := if h.broken then left - {events[end].which} else left;
    forall which
      ensures which in left' <==> HasSocket(events, sockets, all, which, end + 1)
    {
      SocketAfter(events, sockets, handed, first, end, h, which);
    }
  }

  lemma SocketAfter(events: seq<Event>, sockets: set<nat>, handed: seq<Handed>, first: nat, end: nat, h: Handed, which: nat)
    requires Covers(events, sockets, handed, first, end) && end < |events| && h.index == end
    ensures HasSocket(events, sockets, handed + [h], which, end + 1) <==>
      HasSocket(events, sockets, handed, which, end) && !(h.broken && events[end].which == which)
  {
    var all := handed + [h];
    assert all[|handed|] == h;
    assert forall j :: 0 <= j < |handed| ==> all[j] == handed[j];
    if HasSocket(events, sockets, all, which, end + 1) {
      forall j | 0 <= j < |handed| && handed[j].index < end && handed[j].index < |events| && handed[j].broken
        ensures events[handed[j].index].which != which
      {
        assert all[j] == handed[j];
      }
    }
  }

  // ---------------------------------------------------------------------------------------------
  // How far the stretch is

  /** Where the stream thread stands: all events below `at` are done with; if it is asleep the event at `at` comes next; if it
      is with a frame, that one was handed out already. */
  ghost predicate Stands(events: seq<Event>, sockets: set<nat>, clock: nat, handed: seq<Handed>, first: nat, ctl: Control,
                         pc: StreamPc)
  {
    match pc
    case Publish(i) => Done(events, sockets, clock, handed, first, i, ctl)
    case Drain(i) => Done(events, sockets, clock, handed, first, i, ctl) && i == |events|
    case Sleeping(i) =>
      && Covers(events, sockets, handed, first, i) && SocketsLeft(events, sockets, handed, i, ctl.sockets)
      && i < |events| && events[i].which in ctl.sockets && ctl.curMono == events[i].monoTime
    case FrameWait(i) => Done(events, sockets, clock, handed, first, i + 1, ctl)
    case Frame(i) => Done(events, sockets, clock, handed, first, i + 1, ctl)
    case Resize(i, _) => Done(events, sockets, clock, handed, first, i + 1, ctl)
    case Restart(i, _) => Done(events, sockets, clock, handed, first, i + 1, ctl)
    case PushCount(i, _) => Done(events, sockets, clock, handed, first, i + 1, ctl)
    case PushQueue(i, _) => Done(events, sockets, clock, handed, first, i + 1, ctl)
    case _ => false
  }

  ghost predicate Done(events: seq<Event>, sockets: set<nat>, clock: nat, handed: seq<Handed>, first: nat, end: nat,
                       ctl: Control)
  {
    && Covers(events, sockets, handed, first, end) && SocketsLeft(events, sockets, handed, end, ctl.sockets)
    && ctl.curMono == LastTime(events, handed, clock)
  }

  lemma StandsNext(s: State, sockets: set<nat>, clock: nat, handed: seq<Handed>, first: nat)
    requires StreamEnabled(s, NextEvent) && Stands(s.store.events, sockets, clock, handed, first, s.ctl, s.stream)
    ensures var t := StreamNext(s, NextEvent); Stands(t.store.events, sockets, clock, handed, first, t.ctl, t.stream)
  {
    var events, i := s.store.events, s.stream.i;
    if events[i].which !in s.ctl.sockets {
      CoversSkip(events, sockets, handed, first, i);
      SocketsAfterSkip(events, sockets, handed, first, i, s.ctl.sockets);
    }
  }

  lemma StandsHand(s: State, a: StreamStep, sockets: set<nat>, clock: nat, handed: seq<Handed>, first: nat, h: Handed)
    requires (a.Message? || a.ToFrame?) && StreamEnabled(s, a) && HandedBy(s, OfStream(a)) == [h]
    requires Stands(s.store.events, sockets, clock, handed, first, s.ctl, s.stream)
    ensures var t := StreamNext(s, a); Stands(t.store.events, sockets, clock, handed + [h], first, t.ctl, t.stream)
  {
    var events, i := s.store.events, s.stream.i;
    CoversHand(events, sockets, handed, first, i, h);
    SocketsAfterHand(events, sockets, handed, first, i, s.ctl.sockets, h);
    assert LastTime(events, handed + [h], clock) == events[i].monoTime;
  }

  /** The other steps of the stream thread change neither the clock nor the sockets. */
  lemma StandsOther(s: State, a: StreamStep, sockets: set<nat>, clock: nat, handed: seq<Handed>, first: nat)
    requires StreamEnabled(s, a) && !a.Message? && !a.ToFrame? && !a.NextEvent? && !a.DrainOver? && !s.ctl.paused
    requires Stands(s.store.events, sockets, clock, handed, first, s.ctl, s.stream)
    ensures var t := StreamNext(s, a); Stands(t.store.events, sockets, clock, handed, first, t.ctl, t.stream)
  {
  }

  // ---------------------------------------------------------------------------------------------
  // What the other threads leave alone

  /** What the stream thread reads is the same: the events, the merged segments and their frame readers. */
  ghost predicate SameReading(st: Store, st': Store) {
    && st'.events == st.events && st'.gen == st.gen && st'.merged == st.merged
    && forall n :: n in st.merged ==>
        IsHeld(st, n) && IsHeld(st', n) && st'.segments[n] == st.segments[n]
        && st'.objs[st'.segments[n].id].frames == st.objs[st.segments[n].id].frames
  }

  lemma ReadingKept(st: Store, st': Store)
    requires MergedOk(st) && MergedOk(st') && KeepsMerged(st, st')
    ensures SameReading(st, st')
  {
    assert forall n :: n in st.merged ==> IsLoaded(st, n);
    assert forall n :: n in st.merged ==> IsLoaded(st', n);
  }

  lemma ReadingOfSame(st: Store)
    requires MergedOk(st)
    ensures SameReading(st, st)
  {
    assert forall n :: n in st.merged ==> IsLoaded(st, n);
  }

  lemma ReadingTwice(a: Store, b: Store, c: Store)
    requires SameReading(a, b) && SameReading(b, c)
    ensures SameReading(a, c)
  {
  }

  /** While the stream thread holds the lock and nobody pauses, the main thread leaves flags, server and stream thread alone. */
  lemma MainLeaves(s: State, a: MainStep) returns (t: State)
    requires MainEnabled(s, a) && !LockFree(s.stream) && !s.ctl.paused && !MainNext(s, a).ctl.paused
    ensures t == MainNext(s, a) && t.ctl == s.ctl && t.server == s.server && t.stream == s.stream && t.cfg == s.cfg
    ensures OnSegments(a) || t.store == s.store
  {
    t := MainNext(s, a);
  }

  lemma MainKeepsReading(s: State, a: MainStep) returns (t: State)
    requires Inv(s) && s.main != Stopped && MainEnabled(s, a) && !LockFree(s.stream)
    requires !s.ctl.paused && !MainNext(s, a).ctl.paused
    ensures t == MainNext(s, a) && t.ctl == s.ctl && t.server == s.server && t.stream == s.stream && t.cfg == s.cfg
    ensures SameReading(s.store, t.store)
  {
    t := MainLeaves(s, a);
    if OnSegments(a) {
      SegmentStepKeeps(s, a);
      ReadingKept(s.store, t.store);
    } else {
      ReadingOfSame(s.store);
    }
  }

  lemma WorkerKeepsReading(s: State, a: WorkerStep) returns (t: State)
    requires Inv(s) && s.main != Stopped && WorkerEnabled(s, a)
    ensures t == WorkerNext(s, a) && t.ctl == s.ctl && t.server == s.server && t.stream == s.stream && t.cfg == s.cfg
    ensures SameReading(s.store, t.store)
  {
    t := WorkerNext(s, a);
    WorkerOk(s, a);
    ReadingKept(s.store, t.store);
  }

  // ---------------------------------------------------------------------------------------------
  // What goes to the cameras

  /** The frame belongs on a camera: the event is of the camera's kind, the camera is enabled, and the frame's segment is merged
      and has a reader for it. */
  ghost predicate ShowsOn(cfg: Config, st: Store, h: Handed, c: Camera) {
    && h.frame && h.index < |st.events|
    && (match c
        case Road => st.events[h.index].which == cfg.roadIdx
        case Driver => cfg.dcam && st.events[h.index].which == cfg.driverIdx != cfg.roadIdx
        case Wide =>
          cfg.ecam && st.events[h.index].which == cfg.wideIdx && cfg.wideIdx != cfg.roadIdx && cfg.wideIdx != cfg.driverIdx)
    && var n := st.events[h.index].eidxSegnum;
      n in st.merged && IsHeld(st, n) && c in st.objs[st.segments[n].id].frames
  }

  /** The frame with its reader, for the queue of a camera. */
  ghost function ItemOf(st: Store, h: Handed, c: Camera): Item
    requires h.index < |st.events| && IsHeld(st, st.events[h.index].eidxSegnum)
  {
    Item(st.segments[st.events[h.index].eidxSegnum].id, c, st.gen, h.index)
  }

  /** What a camera should get of what was handed out, in order. */
  ghost function ItemsFor(cfg: Config, st: Store, c: Camera, handed: seq<Handed>): seq<Item> {
    if handed == [] then []
    else
      var n := |handed| - 1;
      ItemsFor(cfg, st, c, handed[..n]) + if ShowsOn(cfg, st, handed[n], c) then [ItemOf(st, handed[n], c)] else []
  }

  /** Each camera that has a server got exactly its items, besides what it had before. */
  ghost predicate Pushed(cfg: Config, st: Store, v0: Server, v: Server, handed: seq<Handed>) {
    && v.running == v0.running
    && forall c :: CamOf(v, c).pushed == CamOf(v0, c).pushed + if v0.running then ItemsFor(cfg, st, c, handed) else []
  }

  /** While the last frame handed out is on its way, all but that one were pushed. */
  ghost predicate OnTheWay(cfg: Config, st: Store, v0: Server, v: Server, handed: seq<Handed>, i: nat) {
    && v.running && handed != [] && handed[|handed| - 1] == Handed(i, true, false)
    && Pushed(cfg, st, v0, v, handed[..|handed| - 1])
  }

  ghost predicate IsItem(cfg: Config, st: Store, h: Handed, item: Item) {
    && ShowsOn(cfg, st, h, item.cam) && item == ItemOf(st, h, item.cam)
    && forall c :: ShowsOn(cfg, st, h, c) ==> c == item.cam
  }

  ghost predicate PushStands(cfg: Config, st: Store, v0: Server, v: Server, handed: seq<Handed>, pc: StreamPc) {
    match pc
    case FrameWait(i) => OnTheWay(cfg, st, v0, v, handed, i)
    case Frame(i) => OnTheWay(cfg, st, v0, v, handed, i)
    case Resize(i, item) => OnTheWay(cfg, st, v0, v, handed, i) && IsItem(cfg, st, Handed(i, true, false), item)
    case Restart(i, item) => OnTheWay(cfg, st, v0, v, handed, i) && IsItem(cfg, st, Handed(i, true, false), item)
    case PushCount(i, item) => OnTheWay(cfg, st, v0, v, handed, i) && IsItem(cfg, st, Handed(i, true, false), item)
    case PushQueue(i, item) => OnTheWay(cfg, st, v0, v, handed, i) && IsItem(cfg, st, Handed(i, true, false), item)
    case _ => Pushed(cfg, st, v0, v, handed)
  }

  lemma ItemsNext(cfg: Config, st: Store, c: Camera, handed: seq<Handed>, h: Handed)
    ensures ItemsFor(cfg, st, c, handed + [h]) ==
      ItemsFor(cfg, st, c, handed) + if ShowsOn(cfg, st, h, c) then [ItemOf(st, h, c)] else []
  {
    assert (handed + [h])[..|handed|] == handed;
  }

  /** What is pushed for an event is what belongs on a camera, if anything does. */
  lemma FrameItemIs(s: State, st: Store, i: nat)
    requires i < |s.store.events| && SameReading(st, s.store)
    ensures match FrameItem(s, i)
      case None => forall c :: !ShowsOn(s.cfg, st, Handed(i, true, false), c)
      case Some(item) => IsItem(s.cfg, st, Handed(i, true, false), item)
  {
  }

  lemma PushedNothing(cfg: Config, st: Store, v0: Server, v: Server, handed: seq<Handed>, h: Handed)
    requires Pushed(cfg, st, v0, v, handed) && (v0.running ==> forall c :: !ShowsOn(cfg, st, h, c))
    ensures Pushed(cfg, st, v0, v, handed + [h])
  {
    forall c
      ensures CamOf(v, c).pushed == CamOf(v0, c).pushed + if v0.running then ItemsFor(cfg, st, c, handed + [h]) else []
    {
      ItemsNext(cfg, st, c, handed, h);
    }
  }

  lemma PushedOne(cfg: Config, st: Store, v0: Server, v: Server, v': Server, handed: seq<Handed>, h: Handed, item: Item)
    requires Pushed(cfg, st, v0, v, handed) && v0.running && IsItem(cfg, st, h, item) && v'.running
    requires forall c :: CamOf(v', c).pushed == CamOf(v, c).pushed + if c == item.cam then [item] else []
    ensures Pushed(cfg, st, v0, v', handed + [h])
  {
    forall c
      ensures CamOf(v', c).pushed == CamOf(v0, c).pushed + ItemsFor(cfg, st, c, handed + [h])
    {
      ItemsNext(cfg, st, c, handed, h);
    }
  }

  ghost predicate SamePushed(v: Server, v': Server) {
    v'.running == v.running && forall c :: CamOf(v', c).pushed == CamOf(v, c).pushed
  }

  lemma PushedSame(cfg: Config, st: Store, v0: Server, v: Server, v': Server, handed: seq<Handed>)
    requires Pushed(cfg, st, v0, v, handed) && SamePushed(v, v')
    ensures Pushed(cfg, st, v0, v', handed)
  {
  }

  lemma PushStandsSame(cfg: Config, st: Store, v0: Server, v: Server, v': Server, handed: seq<Handed>, pc: StreamPc)
    requires PushStands(cfg, st, v0, v, handed, pc) && SamePushed(v, v')
    ensures PushStands(cfg, st, v0, v', handed, pc)
  {
    if handed != [] && Pushed(cfg, st, v0, v, handed[..|handed| - 1]) {
      PushedSame(cfg, st, v0, v, v', handed[..|handed| - 1]);
    }
    if Pushed(cfg, st, v0, v, handed) {
      PushedSame(cfg, st, v0, v, v', handed);
    }
  }

  lemma PushHand(s: State, a: StreamStep, st: Store, v0: Server, handed: seq<Handed>, h: Handed)
    requires (a.Message? || a.ToFrame?) && StreamEnabled(s, a) && HandedBy(s, OfStream(a)) == [h]
    requires PushStands(s.cfg, st, v0, s.server, handed, s.stream)
    ensures var t := StreamNext(s, a); PushStands(s.cfg, st, v0, t.server, handed + [h], t.stream)
  {
    assert (handed + [h])[..|handed|] == handed;
    if a.Message? || !s.server.running {
      PushedNothing(s.cfg, st, v0, s.server, handed, h);
    }
  }

  lemma PushOfStart(s: State, st: Store, v0: Server, handed: seq<Handed>)
    requires StreamEnabled(s, PushStart) && SameReading(st, s.store)
    requires PushStands(s.cfg, st, v0, s.server, handed, s.stream)
    ensures var t := StreamNext(s, PushStart); PushStands(s.cfg, st, v0, t.server, handed, t.stream)
  {
    var i, h := s.stream.i, Handed(s.stream.i, true, false);
    var before := handed[..|handed| - 1];
    FrameItemIs(s, st, i);
    assert handed == before + [h];
    match FrameItem(s, i)
    case None => PushedNothing(s.cfg, st, v0, s.server, before, h);
    case Some(item) =>
      var t := StreamNext(s, PushStart);
      assert SamePushed(s.server, t.server);
      PushedSame(s.cfg, st, v0, s.server, t.server, before);
  }

  lemma PushOfEnqueue(s: State, st: Store, v0: Server, handed: seq<Handed>)
    requires StreamEnabled(s, Enqueue) && PushStands(s.cfg, st, v0, s.server, handed, s.stream)
    ensures var t := StreamNext(s, Enqueue); PushStands(s.cfg, st, v0, t.server, handed, t.stream)
  {
    var t := StreamNext(s, Enqueue);
    var h := Handed(s.stream.i, true, false);
    var before := handed[..|handed| - 1];
    assert handed == before + [h];
    PushedOne(s.cfg, st, v0, s.server, t.server, before, h, s.stream.item);
  }

  /** The other steps of the stream thread push nothing. */
  lemma PushOfOther(s: State, a: StreamStep, st: Store, v0: Server, handed: seq<Handed>)
    requires StreamEnabled(s, a) && !a.Message? && !a.ToFrame? && !a.PushStart? && !a.Enqueue? && !a.DrainOver?
    requires PushStands(s.cfg, st, v0, s.server, handed, s.stream)
    requires s.stream.Publish? || s.stream.Sleeping? || s.stream.FrameWait? || s.stream.Resize? || s.stream.Restart?
      || s.stream.PushCount?
    ensures var t := StreamNext(s, a); PushStands(s.cfg, st, v0, t.server, handed, t.stream)
  {
    var t := StreamNext(s, a);
    assert SamePushed(s.server, t.server);
    PushStandsSame(s.cfg, st, v0, s.server, t.server, handed, s.stream);
  }

  lemma CameraPushesNothing(s: State, a: CameraStep) returns (t: State)
    requires CameraEnabled(s, a)
    ensures t == CameraNext(s, a) && SamePushed(s.server, t.server)
    ensures t.ctl == s.ctl && t.store == s.store && t.stream == s.stream && t.cfg == s.cfg
  {
    t := CameraNext(s, a);
  }

  // ---------------------------------------------------------------------------------------------
  // Whole stretches

  /** How a stretch that began at s stands at t. */
  ghost predicate StandsAt(s: State, t: State, handed: seq<Handed>, first: nat) {
    && t.cfg == s.cfg && SameReading(s.store, t.store)
    && Stands(s.store.events, s.ctl.sockets, s.ctl.curMono, handed, first, t.ctl, t.stream)
    && PushStands(s.cfg, s.store, s.server, t.server, handed, t.stream)
  }

  lemma StandsStream(s: State, u: State, a: StreamStep, handed: seq<Handed>, first: nat)
    requires StandsAt(s, u, handed, first) && StreamEnabled(u, a) && !a.DrainOver? && !u.ctl.paused
    ensures StandsAt(s, StreamNext(u, a), handed + HandedBy(u, OfStream(a)), first)
  {
    var more := HandedBy(u, OfStream(a));
    var t := StreamFrame(u, a);
    if a.Message? || a.ToFrame? {
      StandsHand(u, a, s.ctl.sockets, s.ctl.curMono, handed, first, more[0]);
      PushHand(u, a, s.store, s.server, handed, more[0]);
      assert more == [more[0]];
    } else {
      assert handed + more == handed;
      if a.NextEvent? {
        StandsNext(u, s.ctl.sockets, s.ctl.curMono, handed, first);
      } else {
        StandsOther(u, a, s.ctl.sockets, s.ctl.curMono, handed, first);
      }
      PushOfQuiet(s, u, a, handed, first);
    }
  }

  lemma PushOfQuiet(s: State, u: State, a: StreamStep, handed: seq<Handed>, first: nat)
    requires StandsAt(s, u, handed, first) && StreamEnabled(u, a)
    requires !a.DrainOver? && !a.Message? && !a.ToFrame? && !u.ctl.paused
    ensures var t := StreamNext(u, a); PushStands(s.cfg, s.store, s.server, t.server, handed, t.stream)
  {
    if a.PushStart? {
      PushOfStart(u, s.store, s.server, handed);
    } else if a.Enqueue? {
      PushOfEnqueue(u, s.store, s.server, handed);
    } else {
      PushOfOther(u, a, s.store, s.server, handed);
    }
  }

  lemma StandsKept(s: State, u: State, t: State, handed: seq<Handed>, first: nat)
    requires StandsAt(s, u, handed, first)
    requires t.ctl == u.ctl && t.stream == u.stream && t.cfg == u.cfg
    requires SameReading(u.store, t.store) && SamePushed(u.server, t.server)
    ensures StandsAt(s, t, handed, first)
  {
    ReadingTwice(s.store, u.store, t.store);
    PushStandsSame(s.cfg, s.store, s.server, u.server, t.server, handed, u.stream);
  }

  lemma StandsMain(s: State, u: State, a: MainStep, handed: seq<Handed>, first: nat)
    requires Inv(u) && u.main != Stopped && StandsAt(s, u, handed, first) && MainEnabled(u, a)
    requires !u.ctl.paused && !MainNext(u, a).ctl.paused
    ensures StandsAt(s, MainNext(u, a), handed, first)
  {
    assert !LockFree(u.stream);
    var t := MainKeepsReading(u, a);
    StandsKept(s, u, t, handed, first);
  }

  lemma StandsCamera(s: State, u: State, a: CameraStep, handed: seq<Handed>, first: nat)
    requires Inv(u) && u.main != Stopped && StandsAt(s, u, handed, first) && CameraEnabled(u, a)
    ensures StandsAt(s, CameraNext(u, a), handed, first)
  {
    var t := CameraPushesNothing(u, a);
    ReadingOfInv(u);
    StandsKept(s, u, t, handed, first);
  }

  lemma StandsWorker(s: State, u: State, a: WorkerStep, handed: seq<Handed>, first: nat)
    requires Inv(u) && u.main != Stopped && StandsAt(s, u, handed, first) && WorkerEnabled(u, a)
    ensures StandsAt(s, WorkerNext(u, a), handed, first)
  {
    var t := WorkerKeepsReading(u, a);
    StandsKept(s, u, t, handed, first);
  }

  lemma StandsStep(s: State, u: State, a: Step, t: State, handed: seq<Handed>, first: nat)
    requires Inv(u) && u.main != Stopped && StandsAt(s, u, handed, first) && Goes(u, a, t)
    requires !u.ctl.paused && !t.ctl.paused
    ensures StandsAt(s, t, handed + HandedBy(u, a), first)
  {
    if a.OfStream? {
      StandsStream(s, u, a.t, handed, first);
    } else {
      assert handed + HandedBy(u, a) == handed;
      StandsOthers(s, u, a, t, handed, first);
    }
  }

  lemma StandsOthers(s: State, u: State, a: Step, t: State, handed: seq<Handed>, first: nat)
    requires Inv(u) && u.main != Stopped && StandsAt(s, u, handed, first) && Goes(u, a, t) && !a.OfStream?
    requires !u.ctl.paused && !t.ctl.paused
    ensures StandsAt(s, t, handed, first)
  {
    match a
    case OfMain(m) => StandsMain(s, u, m, handed, first);
    case OfCamera(m) => StandsCamera(s, u, m, handed, first);
    case OfWorker(m) => StandsWorker(s, u, m, handed, first);
    case _ =>
  }

  lemma ReadingOfInv(u: State)
    requires Inv(u) && u.main != Stopped
    ensures SameReading(u.store, u.store)
  {
    ReadingOfSame(u.store);
  }

  lemma StillRuns(u: State, a: Step)
    requires u.main != Stopped && Enabled(u, a) && !LockFree(u.stream)
    ensures Next(u, a).main != Stopped
  {
  }

  /** A stretch stands as described after every step. */
  lemma {:induction false} PlaysStands(s: State, steps: seq<Step>, t: State, handed: seq<Handed>, first: nat)
    requires Inv(s) && s.main != Stopped && StandsAt(s, s, [], first) && Plays(s, steps, t, handed)
    ensures Inv(t) && t.main != Stopped && StandsAt(s, t, handed, first)
    decreases |steps|
  {
    if steps != [] {
      var n := |steps| - 1;
      var u, h :| Plays(s, steps[..n], u, h) && Goes(u, steps[n], t) && handed == h + HandedBy(u, steps[n]);
      PlaysStands(s, steps[..n], u, h, first);
      StandsStep(s, u, steps[n], t, h, first);
      InvStep(u, steps[n]);
      StillRuns(u, steps[n]);
    }
  }

  /** The index is that of the first event behind a position: everything in front is at or before it, the rest is behind. */
  ghost predicate FirstBehind(events: seq<Event>, clock: nat, which: nat, first: nat) {
    && first <= |events|
    && forall k :: 0 <= k < |events| ==>
        (k >= first <==> events[k].monoTime > clock || (events[k].monoTime == clock && events[k].which > which))
  }

  lemma UpperBoundIsFirstBehind(events: seq<Event>, clock: nat, which: nat)
    requires Sorted(events)
    ensures FirstBehind(events, clock, which, UpperBound(events, which, clock))
  {
    var first := UpperBound(events, which, clock);
    forall k | first < k < |events|
      ensures !Less(events[k], events[first])
    {
    }
  }

  lemma BeginsStretch(u: State, s: State) returns (first: nat)
    requires Inv(u) && u.main != Stopped && StreamEnabled(u, SelectFirst) && s == StreamNext(u, SelectFirst)
    requires s.stream.Publish? && Sorted(u.store.events)
    ensures FirstBehind(s.store.events, u.ctl.curMono, u.ctl.curWhich, first) && s.stream == Publish(first)
    ensures StandsAt(s, s, [], first) && s.ctl == u.ctl && s.store == u.store && s.main == u.main
    ensures s.cfg == u.cfg && s.server == u.server
  {
    first := s.stream.i;
    UpperBoundIsFirstBehind(u.store.events, u.ctl.curMono, u.ctl.curWhich);
    ReadingOfSame(s.store);
    assert Covers(s.store.events, s.ctl.sockets, [], first, first);
  }

  /** Each camera got exactly the frames that belong on it, behind what it had before. */
  ghost predicate CamerasGot(u: State, v: Server, handed: seq<Handed>) {
    forall c :: CamOf(v, c).pushed ==
      (CamOf(u.server, c).pushed + if u.server.running then ItemsFor(u.cfg, u.store, c, handed) else [])
  }

  lemma AtDrain(s: State, t: State, handed: seq<Handed>, first: nat)
    requires StandsAt(s, t, handed, first) && t.stream.Drain?
    ensures t.store.events == s.store.events && Covers(s.store.events, s.ctl.sockets, handed, first, |s.store.events|)
    ensures t.ctl.curMono == LastTime(s.store.events, handed, s.ctl.curMono) && CamerasGot(s, t.server, handed)
  {
  }

  /** In every run: if nobody pauses between the choice of the first event and the end of the batch, the stream thread hands
      out, in order and each once, exactly the events behind the position of the replay whose kind has a socket when their turn
      comes, messages to `publishMessage` and video frames to `publishFrame`; every camera gets exactly the frames that belong
      on it; and the clock ends at the last event handed out. */
  lemma StretchIsComplete(s0: State, before: seq<Step>, u: State, s: State, steps: seq<Step>, t: State, handed: seq<Handed>)
    returns (first: nat)
    requires Init(s0) && Reaches(s0, before, u) && u.main != Stopped
    requires Enabled(u, OfStream(SelectFirst)) && s == Next(u, OfStream(SelectFirst)) && s.stream.Publish?
    requires Plays(s, steps, t, handed) && t.stream.Drain?
    ensures FirstBehind(u.store.events, u.ctl.curMono, u.ctl.curWhich, first) && t.store.events == u.store.events
    ensures Covers(u.store.events, u.ctl.sockets, handed, first, |u.store.events|)
    ensures handed == [] ==> t.ctl.curMono == u.ctl.curMono
    ensures handed != [] ==> t.ctl.curMono == u.store.events[handed[|handed| - 1].index].monoTime
    ensures CamerasGot(u, t.server, handed)
  {
    InvReaches(s0, before, u);
    EventsAreTheMergedLogs(s0, before, u);
    first := StretchFromInv(u, s, steps, t, handed);
  }

  lemma StretchFromInv(u: State, s: State, steps: seq<Step>, t: State, handed: seq<Handed>) returns (first: nat)
    requires Inv(u) && u.main != Stopped && Sorted(u.store.events)
    requires StreamEnabled(u, SelectFirst) && s == StreamNext(u, SelectFirst) && s.stream.Publish?
    requires Plays(s, steps, t, handed) && t.stream.Drain?
    ensures FirstBehind(u.store.events, u.ctl.curMono, u.ctl.curWhich, first) && t.store.events == u.store.events
    ensures Covers(u.store.events, u.ctl.sockets, handed, first, |u.store.events|)
    ensures t.ctl.curMono == LastTime(u.store.events, handed, u.ctl.curMono) && CamerasGot(u, t.server, handed)
  {
    first := BeginsStretch(u, s);
    StreamKeeps(u, SelectFirst);
    PlaysStands(s, steps, t, handed, first);
    AtDrain(s, t, handed, first);
  }
}
