/** What the main thread gets done: the segment it loads next, the segments it merges, seeking, pausing and starting the stream
    (`updateSegmentsCache`, `loadSegmentInRange`, `mergeSegments`, `seekTo`, `startStream`, tools/replay/replay.cc). */
module ReplayControl {
  import opened Helpers
  import opened ReplayEvents
  import opened CacheWindow
  import opened ReplayEngine
  import opened ReplaySafety
  import opened ReplayRuns
  import opened ReplayPublishing

  // ---------------------------------------------------------------------------------------------
  // Loading

  /** The slot at place k is the first one in the order that is not a segment seen loaded, and it is empty. */
  predicate IsNext(st: Store, keys: seq<int>, seen: set<int>, k: nat) {
    && k < |keys| && keys[k] in st.segments && st.segments[keys[k]].Empty?
    && forall j :: 0 <= j < k ==> keys[j] in st.segments && st.segments[keys[j]].Held? && keys[j] in seen
  }

  predicate IsNextOf(st: Store, keys: seq<int>, seen: set<int>, k: nat, n: int) {
    IsNext(st, keys, seen, k) && keys[k] == n
  }

  /** The scan finds exactly the first slot that is not a segment seen loaded, if that slot is empty. */
  lemma {:induction false} NextToLoadExactly(st: Store, keys: seq<int>, seen: set<int>, n: int)
    requires forall j :: 0 <= j < |keys| ==> keys[j] in st.segments
    ensures NextToLoad(st, keys, seen) == Some(n) <==> exists k: nat :: IsNextOf(st, keys, seen, k, n)
  {
    if keys != [] {
      var rest := keys[1..];
      NextToLoadExactly(st, rest, seen, n);
      if st.segments[keys[0]].Empty? {
        assert IsNextOf(st, keys, seen, 0, keys[0]);
      } else if keys[0] in seen {
        NextBehindFirst(st, keys, seen, n);
      }
    }
  }

  lemma NextBehindFirst(st: Store, keys: seq<int>, seen: set<int>, n: int)
    requires keys != [] && keys[0] in st.segments && st.segments[keys[0]].Held? && keys[0] in seen
    ensures (exists k: nat :: IsNextOf(st, keys, seen, k, n)) <==> exists k: nat :: IsNextOf(st, keys[1..], seen, k, n)
  {
    if k: nat :| IsNextOf(st, keys, seen, k, n) {
      NextOfRest(st, keys, seen, k - 1);
      assert IsNextOf(st, keys[1..], seen, k - 1, n);
    }
    if k: nat :| IsNextOf(st, keys[1..], seen, k, n) {
      NextOfRest(st, keys, seen, k);
      assert IsNextOf(st, keys, seen, k + 1, n);
    }
  }

  lemma NextOfRest(st: Store, keys: seq<int>, seen: set<int>, k: nat)
    requires k + 1 < |keys| && keys[0] in st.segments && st.segments[keys[0]].Held? && keys[0] in seen
    ensures IsNext(st, keys[1..], seen, k) <==> IsNext(st, keys, seen, k + 1)
  {
    var rest := keys[1..];
    if IsNext(st, rest, seen, k) {
      forall j | 0 <= j < k + 1
        ensures keys[j] in st.segments && st.segments[keys[j]].Held? && keys[j] in seen
      {
        assert j > 0 ==> rest[j - 1] == keys[j];
      }
    }
    if IsNext(st, keys, seen, k + 1) {
      forall j | 0 <= j < k
        ensures rest[j] in st.segments && st.segments[rest[j]].Held? && rest[j] in seen
      {
        assert rest[j] == keys[j + 1];
      }
    }
  }

  /** One object was made since the update began, for the segment n, and put into its slot. */
  ghost predicate Made(before: Store, w: Win, n: int, after: Store) {
    && |after.objs| == w.before + 1 && after.objs[w.before].num == n
    && after.segments == before.segments[n := Held(w.before)]
    && |before.objs| == w.before && after.objs[..w.before] == before.objs
    && after.merged == before.merged && after.events == before.events
  }

  ghost predicate MadeNone(before: Store, w: Win, after: Store) {
    |after.objs| == w.before && after == before
  }

  /** The store and the program counter after a scan. */
  lemma AfterForward(s: State, seen: set<int>, obj: SegmentObj) returns (t: State, r: Option<int>)
    requires MainEnabled(s, LoadForward(seen, obj))
    ensures t == MainNext(s, LoadForward(seen, obj)) && r == NextToLoad(s.store, s.main.w.forward, seen)
    ensures r.None? ==> t.store == s.store && t.main == Reverse(s.main.w)
    ensures r.Some? ==> t.store == Create(s.store, r.value, obj) && t.main == Merging(s.main.w) && obj.num == r.value
  {
    t, r := MainNext(s, LoadForward(seen, obj)), NextToLoad(s.store, s.main.w.forward, seen);
  }

  lemma AfterReverse(s: State, seen: set<int>, obj: SegmentObj) returns (t: State, r: Option<int>)
    requires MainEnabled(s, LoadReverse(seen, obj))
    ensures t == MainNext(s, LoadReverse(seen, obj)) && r == NextToLoad(s.store, s.main.w.reverse, seen)
    ensures r.None? ==> t.store == s.store && t.main == Merging(s.main.w)
    ensures r.Some? ==> t.store == Create(s.store, r.value, obj) && t.main == Merging(s.main.w) && obj.num == r.value
  {
    t, r := MainNext(s, LoadReverse(seen, obj)), NextToLoad(s.store, s.main.w.reverse, seen);
  }

  lemma CreateMakes(st: Store, w: Win, n: int, obj: SegmentObj)
    requires |st.objs| == w.before && obj.num == n
    ensures Made(st, w, n, Create(st, n, obj))
  {
  }

  lemma OpenWindowIsOfRoute(s: State)
    requires Inv(s) && (s.main.Forward? || s.main.Reverse?)
    ensures |s.store.objs| == s.main.w.before
    ensures forall j :: 0 <= j < |s.main.w.forward| ==> s.main.w.forward[j] in s.store.segments
    ensures forall j :: 0 <= j < |s.main.w.reverse| ==> s.main.w.reverse[j] in s.store.segments
  {
    assert forall n :: n in s.main.w.forward ==> n in s.main.w.inside;
    assert forall n :: n in s.main.w.reverse ==> n in s.main.w.inside;
  }

  lemma ScansRoute(s0: State, steps: seq<Step>, s: State)
    requires Init(s0) && Reaches(s0, steps, s) && (s.main.Forward? || s.main.Reverse?)
    ensures |s.store.objs| == s.main.w.before
    ensures forall j :: 0 <= j < |s.main.w.forward| ==> s.main.w.forward[j] in s.store.segments
    ensures forall j :: 0 <= j < |s.main.w.reverse| ==> s.main.w.reverse[j] in s.store.segments
  {
    InvReaches(s0, steps, s);
    OpenWindowIsOfRoute(s);
  }

  /** Scanning forward, an update starts the load of exactly the first slot that is not a segment seen loaded, if that slot is
      empty; otherwise nothing is made and the reverse order comes next. */
  lemma ForwardLoadsNext(s0: State, steps: seq<Step>, s: State, seen: set<int>, obj: SegmentObj) returns (t: State)
    requires Init(s0) && Reaches(s0, steps, s) && Enabled(s, OfMain(LoadForward(seen, obj)))
    ensures t == Next(s, OfMain(LoadForward(seen, obj)))
    ensures forall k: nat :: IsNext(s.store, s.main.w.forward, seen, k) ==>
      t.main == Merging(s.main.w) && Made(s.store, s.main.w, s.main.w.forward[k], t.store)
    ensures (forall k: nat :: !IsNext(s.store, s.main.w.forward, seen, k)) ==>
      t.main == Reverse(s.main.w) && MadeNone(s.store, s.main.w, t.store)
  {
    ScansRoute(s0, steps, s);
    var r;
    t, r := AfterForward(s, seen, obj);
    ScanMakes(s.store, s.main.w, s.main.w.forward, seen, obj, r, t.store);
  }

  /** Scanning back, likewise; nothing that the forward order wanted was made before. */
  lemma ReverseLoadsNext(s0: State, steps: seq<Step>, s: State, seen: set<int>, obj: SegmentObj) returns (t: State)
    requires Init(s0) && Reaches(s0, steps, s) && Enabled(s, OfMain(LoadReverse(seen, obj)))
    ensures t == Next(s, OfMain(LoadReverse(seen, obj))) && t.main == Merging(s.main.w)
    ensures forall k: nat :: IsNext(s.store, s.main.w.reverse, seen, k) ==>
      Made(s.store, s.main.w, s.main.w.reverse[k], t.store)
    ensures (forall k: nat :: !IsNext(s.store, s.main.w.reverse, seen, k)) ==> MadeNone(s.store, s.main.w, t.store)
  {
    ScansRoute(s0, steps, s);
    var r;
    t, r := AfterReverse(s, seen, obj);
    ScanMakes(s.store, s.main.w, s.main.w.reverse, seen, obj, r, t.store);
  }

  lemma ScanMakes(st: Store, w: Win, keys: seq<int>, seen: set<int>, obj: SegmentObj, r: Option<int>, st': Store)
    requires r == NextToLoad(st, keys, seen) && forall j :: 0 <= j < |keys| ==> keys[j] in st.segments
    requires |st.objs| == w.before && (r.None? ==> st' == st)
    requires r.Some? ==> st' == Create(st, r.value, obj) && obj.num == r.value
    ensures r.Some? <==> exists k: nat :: IsNext(st, keys, seen, k)
    ensures forall k: nat :: IsNext(st, keys, seen, k) ==> Made(st, w, keys[k], st')
    ensures (forall k: nat :: !IsNext(st, keys, seen, k)) ==> MadeNone(st, w, st')
  {
    if r.Some? {
      CreateMakes(st, w, r.value, obj);
      NextToLoadExactly(st, keys, seen, r.value);
      var k: nat :| IsNextOf(st, keys, seen, k, r.value);
    }
    forall k: nat | IsNext(st, keys, seen, k)
      ensures r == Some(keys[k])
    {
      NextToLoadExactly(st, keys, seen, keys[k]);
      assert IsNextOf(st, keys, seen, k, keys[k]);
    }
  }

  // ---------------------------------------------------------------------------------------------
  // The order of the scans

  ghost predicate Ascending(keys: seq<int>) { forall i, j :: 0 <= i < j < |keys| ==> keys[i] < keys[j] }

  ghost predicate Descending(keys: seq<int>) { forall i, j :: 0 <= i < j < |keys| ==> keys[i] > keys[j] }

  /** The current segment is the first one of the route at or behind the target; the forward order is the rest of the window from
      it on, ascending, the reverse order the window in front of it, descending. */
  ghost predicate InOrder(segments: set<int>, target: int, w: Win) {
    && w.cur in segments && w.cur >= target && (forall n :: n in segments && n >= target ==> n >= w.cur)
    && Ascending(w.forward) && (forall n :: n in w.forward <==> n in w.inside && n >= w.cur)
    && Descending(w.reverse) && (forall n :: n in w.reverse <==> n in w.inside && n < w.cur)
  }

  lemma WinInOrder(segments: set<int>, target: int, keys: seq<int>, w: Window, before: nat)
    requires IsOrderOf(keys, segments) && w.cur == LowerBound(keys, target) && w.begin <= w.cur < w.end <= |keys|
    ensures InOrder(segments, target, WinOf(segments, keys, w, before))
  {
    var win := WinOf(segments, keys, w, before);
    assert win.cur in keys;
    forall n | n in segments && n >= target
      ensures n >= win.cur
    {
      assert n in keys;
      var k :| 0 <= k < |keys| && keys[k] == n;
      assert k >= w.cur;
    }
    PartsOfWindow(keys, w, win.inside, win.forward, win.reverse);
  }

  lemma PartsOfWindow(keys: seq<int>, w: Window, inside: set<int>, forward: seq<int>, reverse: seq<int>)
    requires Increasing(keys) && w.begin <= w.cur < w.end <= |keys| && inside == Inside(keys, w)
    requires forward == keys[w.cur..w.end] && reverse == Backwards(keys[w.begin..w.cur])
    ensures Ascending(forward) && (forall n :: n in forward <==> n in inside && n >= keys[w.cur])
    ensures Descending(reverse) && (forall n :: n in reverse <==> n in inside && n < keys[w.cur])
  {
    forall n
      ensures n in inside <==> exists k :: w.begin <= k < w.end && keys[k] == n
    {
      InsideHas(keys, w, n);
    }
    forall n
      ensures n in forward <==> exists k :: w.cur <= k < w.end && keys[k] == n
    {
      RangeHas(keys, w.cur, w.end, n);
    }
    var back := keys[w.begin..w.cur];
    forall n
      ensures n in reverse <==> exists k :: w.begin <= k < w.cur && keys[k] == n
    {
      BackwardsHas(back, n);
      RangeHas(keys, w.begin, w.cur, n);
    }
  }

  lemma RangeHas(keys: seq<int>, a: nat, b: nat, n: int)
    requires a <= b <= |keys|
    ensures n in keys[a..b] <==> exists k :: a <= k < b && keys[k] == n
  {
    if k :| a <= k < b && keys[k] == n {
      assert keys[a..b][k - a] == n;
    }
  }

  lemma InsideHas(keys: seq<int>, w: Window, n: int)
    requires w.begin <= w.end <= |keys|
    ensures n in Inside(keys, w) <==> exists k :: w.begin <= k < w.end && keys[k] == n
  {
    RangeHas(keys, w.begin, w.end, n);
  }

  lemma BackwardsHas(s: seq<int>, n: int)
    ensures n in Backwards(s) <==> n in s
  {
    var r := Backwards(s);
    if n in s {
      var i :| 0 <= i < |s| && s[i] == n;
      assert r[|s| - 1 - i] == n;
    }
  }

  /** What the window is when an update begins; without a segment at or behind the current position there is none. */
  lemma UpdateOpensInOrder(s: State) returns (t: State)
    requires Enabled(s, OfMain(OpenWindow))
    ensures t == Next(s, OfMain(OpenWindow)) && t.store == s.store
    ensures (exists n :: n in s.store.segments.Keys && n >= s.ctl.curSegment) ==>
      t.main.Forward? && InOrder(s.store.segments.Keys, s.ctl.curSegment, t.main.w)
    ensures (forall n :: n in s.store.segments.Keys ==> n < s.ctl.curSegment) ==> t.main == Idle
  {
    t := Next(s, OfMain(OpenWindow));
    OpenedInOrder(s.store, s.ctl.curSegment, s.cfg.limit);
  }

  lemma OpenedInOrder(st: Store, target: int, limit: CacheLimit)
    ensures (exists n :: n in st.segments.Keys && n >= target) ==>
      Opened(st, target, limit).Forward? && InOrder(st.segments.Keys, target, Opened(st, target, limit).w)
    ensures (forall n :: n in st.segments.Keys ==> n < target) ==> Opened(st, target, limit) == Idle
  {
    var keys := Ordered(st.segments.Keys);
    var cur := LowerBound(keys, target);
    if cur < |keys| {
      assert keys[cur] in keys;
      WinInOrder(st.segments.Keys, target, keys, WindowOf(|keys|, cur, limit), |st.objs|);
    } else {
      forall n | n in st.segments.Keys
        ensures n < target
      {
        assert n in keys;
        var k :| 0 <= k < |keys| && keys[k] == n;
      }
    }
  }

  // ---------------------------------------------------------------------------------------------
  // Merging

  /** The update is going to leave, or has left, exactly these segments merged. */
  ghost predicate Merges(s: State, target: set<int>) {
    match s.main
    case Swapping(_, toMerge, _, _) => toMerge == target
    case Check(after) => after.ToFree? && s.store.merged == target
    case SeekDone(after) => after.ToFree? && s.store.merged == target
    case Freeing(_) => s.store.merged == target
    case Launch(_) => s.store.merged == target
    case _ => false
  }

  lemma MergesStays(s: State, a: Step, target: set<int>)
    requires Merges(s, target) && Enabled(s, a)
    ensures Merges(Next(s, a), target) || Next(s, a).main == Idle
  {
    match a
    case OfMain(m) => MergesStaysMain(s, m, target);
    case OfStream(m) => var t := StreamFrame(s, m);
    case OfCamera(_) =>
    case OfWorker(_) =>
  }

  lemma MergesStaysMain(s: State, a: MainStep, target: set<int>)
    requires Merges(s, target) && MainEnabled(s, a)
    ensures Merges(MainNext(s, a), target) || MainNext(s, a).main == Idle
  {
  }

  /** When an update comes to its end, the merged segments are exactly those of the window that were seen loaded, whatever the
      other threads did meanwhile. */
  lemma {:induction false} UpdateMergesSeen(s: State, seen: set<int>, steps: seq<Step>, t: State)
    requires Enabled(s, OfMain(Merge(seen))) && Reaches(Next(s, OfMain(Merge(seen))), steps, t)
    requires forall a :: a in steps ==> !(a.OfMain? && a.m.LaunchStream?)
    ensures Merges(t, s.main.w.inside * seen)
    ensures t.main.Launch? ==> forall n :: n in t.store.merged <==> n in s.main.w.inside && n in seen
    decreases |steps|
  {
    if steps == [] {
      MergeBegins(s, seen);
    } else {
      var k := |steps| - 1;
      var u :| Reaches(Next(s, OfMain(Merge(seen))), steps[..k], u) && Enabled(u, steps[k]) && t == Next(u, steps[k]);
      UpdateMergesSeen(s, seen, steps[..k], u);
      assert steps[k] in steps;
      MergesStays(u, steps[k], s.main.w.inside * seen);
      OnlyLaunchEnds(u, steps[k], s.main.w.inside * seen);
    }
  }

  lemma MergeBegins(s: State, seen: set<int>)
    requires MainEnabled(s, Merge(seen))
    ensures Merges(MainNext(s, Merge(seen)), s.main.w.inside * seen)
  {
  }

  lemma OnlyLaunchEnds(s: State, a: Step, target: set<int>)
    requires Merges(s, target) && Enabled(s, a) && !(a.OfMain? && a.m.LaunchStream?)
    ensures Next(s, a).main != Idle
  {
    if a.OfStream? {
      var t := StreamFrame(s, a.t);
    }
  }

  // ---------------------------------------------------------------------------------------------
  // Seeking

  /** The target is in a segment of the route and not behind its end. */
  predicate ValidTarget(s: State, target: real) {
    target.Floor / 60 in s.store.segments && target <= s.ctl.maxSeconds
  }

  /** The time of the log at a number of seconds into the route. */
  function LogTime(routeStart: nat, target: real): int { (routeStart as real + target * 1000000000.0).Floor }

  /** A seek to a valid target stops the stream, moves the position there and is pending; any other one only lets the stream go
      on. */
  lemma SeekMoves(s: State) returns (t: State)
    requires Enabled(s, OfMain(SeekApply))
    ensures t == Next(s, OfMain(SeekApply)) && t.store == s.store && t.stream == s.stream && t.ctl.paused == s.ctl.userPaused
    ensures ValidTarget(s, s.main.t) ==>
      && !t.ctl.ready && t.ctl.seeking == Some(s.main.t) && t.ctl.curSegment == s.main.t.Floor / 60
      && t.ctl.curMono == LogTime(s.ctl.routeStart, s.main.t)
    ensures !ValidTarget(s, s.main.t) ==> t.ctl == s.ctl.(ready := true, paused := s.ctl.userPaused)
  {
    t := Next(s, OfMain(SeekApply));
  }

  /** No batch of events has begun. */
  predicate BeforeBatch(pc: StreamPc) { pc.Starting? || pc.Head? || pc.Waiting? || pc.Done? }

  lemma ClockStays(s: State, a: Step)
    requires BeforeBatch(s.stream) && Enabled(s, a) && a != OfMain(SeekApply) && a != OfStream(SelectFirst)
    ensures var t := Next(s, a);
      BeforeBatch(t.stream) && t.ctl.curMono == s.ctl.curMono && t.ctl.curWhich == s.ctl.curWhich
  {
    match a
    case OfMain(m) => ClockStaysMain(s, m);
    case OfStream(_) =>
    case OfCamera(_) =>
    case OfWorker(_) =>
  }

  lemma ClockStaysMain(s: State, a: MainStep)
    requires BeforeBatch(s.stream) && MainEnabled(s, a) && a != SeekApply
    ensures var t := MainNext(s, a); t.stream == s.stream && t.ctl.curMono == s.ctl.curMono && t.ctl.curWhich == s.ctl.curWhich
  {
  }

  lemma {:induction false} ClockStaysRun(s: State, steps: seq<Step>, t: State)
    requires BeforeBatch(s.stream) && Reaches(s, steps, t)
    requires forall a :: a in steps ==> a != OfMain(SeekApply) && a != OfStream(SelectFirst)
    ensures BeforeBatch(t.stream) && t.ctl.curMono == s.ctl.curMono && t.ctl.curWhich == s.ctl.curWhich
    decreases |steps|
  {
    if steps != [] {
      var k := |steps| - 1;
      var u :| Reaches(s, steps[..k], u) && Enabled(u, steps[k]) && t == Next(u, steps[k]);
      assert forall a :: a in steps[..k] ==> a in steps;
      ClockStaysRun(s, steps[..k], u);
      assert steps[k] in steps;
      ClockStays(u, steps[k]);
    }
  }

  /** After a seek to a valid target, and before another one, the next batch begins with the first event behind the target,
      whatever is merged in between; if there is none the stream waits. */
  lemma SeekSelectsTarget(s0: State, before: seq<Step>, s: State, steps: seq<Step>, u: State) returns (t: State, first: nat)
    requires Init(s0) && Reaches(s0, before, s) && Enabled(s, OfMain(SeekApply)) && ValidTarget(s, s.main.t)
    requires s.stream != NotStarted && Reaches(Next(s, OfMain(SeekApply)), steps, u)
    requires forall a :: a in steps ==> a != OfMain(SeekApply) && a != OfStream(SelectFirst)
    requires Enabled(u, OfStream(SelectFirst)) && u.main != Stopped
    ensures t == Next(u, OfStream(SelectFirst))
    ensures FirstBehind(u.store.events, u.ctl.curMono, u.ctl.curWhich, first)
    ensures u.ctl.curMono == LogTime(s.ctl.routeStart, s.main.t)
    ensures if first < |u.store.events| then t.stream == Publish(first) else t.stream == Head && !t.ctl.ready
  {
    var moved := SeekMoves(s);
    ClockStaysRun(moved, steps, u);
    EventsAreSortedAfter(s0, before, s, OfMain(SeekApply), moved, steps, u);
    t, first := Selected(u);
  }

  lemma EventsAreSortedAfter(s0: State, before: seq<Step>, s: State, a: Step, moved: State, steps: seq<Step>, u: State)
    requires Init(s0) && Reaches(s0, before, s) && Enabled(s, a) && moved == Next(s, a) && Reaches(moved, steps, u)
    requires u.main != Stopped
    ensures Sorted(u.store.events)
  {
    ReachesMore(s0, before, s, a, moved);
    RunsJoin(s0, before + [a], moved, steps, u);
    EventsAreTheMergedLogs(s0, before + [a] + steps, u);
  }

  lemma Selected(u: State) returns (t: State, first: nat)
    requires StreamEnabled(u, SelectFirst) && Sorted(u.store.events)
    ensures t == StreamNext(u, SelectFirst) && FirstBehind(u.store.events, u.ctl.curMono, u.ctl.curWhich, first)
    ensures if first < |u.store.events| then t.stream == Publish(first) else t.stream == Head && !t.ctl.ready
  {
    UpperBoundIsFirstBehind(u.store.events, u.ctl.curMono, u.ctl.curWhich);
    t, first := StreamNext(u, SelectFirst), UpperBound(u.store.events, u.ctl.curWhich, u.ctl.curMono);
  }

  lemma ReachesMore(s0: State, steps: seq<Step>, s: State, a: Step, t: State)
    requires Reaches(s0, steps, s) && Enabled(s, a) && t == Next(s, a)
    ensures Reaches(s0, steps + [a], t)
  {
    assert (steps + [a])[..|steps|] == steps;
  }

  lemma LastOfRun(s: State, steps: seq<Step>, t: State) returns (u: State)
    requires steps != [] && Reaches(s, steps, t)
    ensures var k := |steps| - 1; Reaches(s, steps[..k], u) && Enabled(u, steps[k]) && t == Next(u, steps[k])
  {
    var k := |steps| - 1;
    u :| Reaches(s, steps[..k], u) && Enabled(u, steps[k]) && t == Next(u, steps[k]);
  }

  lemma {:induction false} RunsJoin(s0: State, before: seq<Step>, s: State, steps: seq<Step>, t: State)
    requires Reaches(s0, before, s) && Reaches(s, steps, t)
    ensures Reaches(s0, before + steps, t)
    decreases |steps|, 0
  {
    if steps == [] {
      assert before + steps == before;
    } else {
      var u := LastOfRun(s, steps, t);
      RunJoinsLast(s0, before, s, steps[..|steps| - 1], u, steps[|steps| - 1], t, steps);
    }
  }

  lemma {:induction false} RunJoinsLast(s0: State, before: seq<Step>, s: State, steps: seq<Step>, u: State, a: Step, t: State,
                                        all: seq<Step>)
    requires Reaches(s0, before, s) && Reaches(s, steps, u) && Enabled(u, a) && t == Next(u, a) && all == steps + [a]
    ensures Reaches(s0, before + all, t)
    decreases |steps|, 1
  {
    RunsJoin(s0, before, s, steps, u);
    ReachesMore(s0, before + steps, u, a, t);
    assert before + all == before + steps + [a];
  }

  /** A pending seek ends when its segment is seen loaded, and then the stream goes on. */
  lemma SeekEnds(s: State, loaded: bool) returns (t: State)
    requires Enabled(s, OfMain(CheckSeek(loaded)))
    ensures t == Next(s, OfMain(CheckSeek(loaded))) && t.store == s.store
    ensures loaded ==> s.ctl.seeking.Some? && IsLoaded(s.store, s.ctl.seeking.value.Floor / 60)
    ensures loaded ==> t.ctl.seeking == None && t.main.SeekDone? && t.ctl.paused
    ensures !loaded ==> t.ctl == s.ctl && (t.main.Update? || t.main.Freeing?)
  {
    t := Next(s, OfMain(CheckSeek(loaded)));
  }

  // ---------------------------------------------------------------------------------------------
  // When the stream may go on

  /** After a merge: exactly if no seek is pending and the current segment is merged or not in the route. */
  lemma ReadyAfterSwap(s: State) returns (t: State)
    requires Enabled(s, OfMain(SwapApply))
    ensures t == Next(s, OfMain(SwapApply)) && t.ctl.paused == s.ctl.userPaused
    ensures t.store.events == s.main.events && t.store.merged == s.main.toMerge
    ensures t.ctl.ready <==>
      s.ctl.seeking == None && (s.ctl.curSegment in s.main.toMerge || s.ctl.curSegment !in s.store.segments)
  {
    t := Next(s, OfMain(SwapApply));
  }

  /** After a seek that has ended: always. */
  lemma ReadyAfterSeek(s: State) returns (t: State)
    requires Enabled(s, OfMain(SeekDoneApply))
    ensures t == Next(s, OfMain(SeekDoneApply)) && t.ctl == s.ctl.(ready := true, paused := s.ctl.userPaused)
  {
    t := Next(s, OfMain(SeekDoneApply));
  }

  /** After a failed segment was erased: exactly if a segment is left. The slot is gone, its object is freed, and the others stay
      as they are. */
  lemma EraseRemoves(s0: State, steps: seq<Step>, s: State) returns (t: State)
    requires Init(s0) && Reaches(s0, steps, s) && Enabled(s, OfMain(EraseApply))
    ensures t == Next(s, OfMain(EraseApply)) && s.main.n in s.store.segments
    ensures t.store.segments == s.store.segments - {s.main.n} && t.ctl.paused == s.ctl.userPaused
    ensures forall id :: 0 <= id < |s.store.objs| ==>
      (t.store.objs[id].freed <==> s.store.objs[id].freed || s.store.segments[s.main.n] == Held(id))
    ensures t.ctl.ready <==> t.store.segments.Keys != {}
  {
    InvReaches(s0, steps, s);
    t := Next(s, OfMain(EraseApply));
    assert t.store.segments != map[] <==> t.store.segments.Keys != {};
  }

  /** A pause or its end takes effect. */
  lemma PauseTakes(s: State) returns (t: State)
    requires Enabled(s, OfMain(PauseApply))
    ensures t == Next(s, OfMain(PauseApply)) && t.ctl == s.ctl.(paused := s.main.p, userPaused := s.main.p)
  {
    t := Next(s, OfMain(PauseApply));
  }

  /** After a batch that was interrupted, the kind of the event it stopped at is kept for the next choice. */
  lemma BatchEnds(s: State) returns (t: State)
    requires Enabled(s, OfStream(Finish))
    ensures t == Next(s, OfStream(Finish)) && t.stream == Head && t.store == s.store
    ensures t.ctl == if s.stream.i < |s.store.events| then s.ctl.(curWhich := s.store.events[s.stream.i].which) else s.ctl
  {
    t := Next(s, OfStream(Finish));
  }

  /** A new camera server: a thread for exactly the cameras the segment has pictures for, and nothing queued. */
  ghost predicate Serves(v: Server, o: SegmentObj) {
    && v.running && v.publishing == 0
    && forall c :: (CamOf(v, c).thread <==> c in o.frames) && CamOf(v, c).queue == [] && CamOf(v, c).busy == None
  }

  lemma NewServerServes(o: SegmentObj)
    requires forall c :: c in o.frames ==> o.frames[c] > 0
    ensures Serves(NewServer(o), o)
  {
  }

  lemma Launched(s: State, o: SegmentObj) returns (t: State)
    requires MainEnabled(s, LaunchStream(true)) && s.stream == NotStarted && IsHeld(s.store, s.main.w.cur)
    requires o == s.store.objs[s.store.segments[s.main.w.cur].id] && o.log != []
    ensures t == MainNext(s, LaunchStream(true)) && t.stream == Starting && t.store == s.store
    ensures t.ctl.routeStart == o.log[0].monoTime
    ensures t.ctl.curMono == (s.ctl.curMono + o.log[0].monoTime - 1) % 0x1_0000_0000_0000_0000
    ensures t.server == if s.cfg.vipc then NewServer(o) else s.server
  {
    t := MainNext(s, LaunchStream(true));
  }

  /** The stream starts with the first current segment that is seen loaded: the route begins at its first event, the clock moves
      by that time less one, and the cameras are served if they are wanted. */
  lemma StreamStarts(s0: State, steps: seq<Step>, s: State) returns (t: State, o: SegmentObj)
    requires Init(s0) && Reaches(s0, steps, s) && Enabled(s, OfMain(LaunchStream(true))) && s.stream == NotStarted
    ensures t == Next(s, OfMain(LaunchStream(true))) && t.stream == Starting && t.store == s.store
    ensures IsHeld(s.store, s.main.w.cur) && o == s.store.objs[s.store.segments[s.main.w.cur].id] && o.log != []
    ensures t.ctl.routeStart == o.log[0].monoTime
    ensures t.ctl.curMono == (s.ctl.curMono + o.log[0].monoTime - 1) % 0x1_0000_0000_0000_0000
    ensures if s.cfg.vipc then Serves(t.server, o) else t.server == s.server
  {
    InvReaches(s0, steps, s);
    o := CurrentObj(s);
    t := Launched(s, o);
    NewServerServes(o);
  }

  lemma CurrentObj(s: State) returns (o: SegmentObj)
    requires Inv(s) && MainEnabled(s, LaunchStream(true))
    ensures IsHeld(s.store, s.main.w.cur) && o == s.store.objs[s.store.segments[s.main.w.cur].id] && o.log != []
    ensures forall c :: c in o.frames ==> o.frames[c] > 0
  {
    o := s.store.objs[s.store.segments[s.main.w.cur].id];
    assert ObjOk(o, s.store.segments[s.main.w.cur].id);
  }

  // ---------------------------------------------------------------------------------------------
  // Where the replay is

  /** The index of the event the stream thread works on, if any. */
  function AtEvent(pc: StreamPc): Option<nat> {
    match pc
    case Sleeping(i) => Some(i)
    case FrameWait(i) => Some(i)
    case Frame(i) => Some(i)
    case Resize(i, _) => Some(i)
    case Restart(i, _) => Some(i)
    case PushCount(i, _) => Some(i)
    case PushQueue(i, _) => Some(i)
    case _ => None
  }

  /** Segments last 60 seconds; a time in front of the route counts as one at the far end of a clock of 64 bits. */
  predicate IsSegmentOf(routeStart: nat, time: nat, n: int) {
    var since := if time >= routeStart then time - routeStart else time - routeStart + 0x1_0000_0000_0000_0000;
    0 <= since < 0x1_0000_0000_0000_0000 ==> n * 60000000000 <= since < n * 60000000000 + 60000000000
  }

  lemma SegmentAtExactly(routeStart: nat, time: nat)
    ensures IsSegmentOf(routeStart, time, SegmentAt(routeStart, time))
  {
  }

  ghost predicate PositionOk(s: State) {
    match AtEvent(s.stream)
    case None => true
    case Some(i) => i < |s.store.events| && IsSegmentOf(s.ctl.routeStart, s.store.events[i].monoTime, s.ctl.curSegment)
  }

  lemma PositionStream(s: State, a: StreamStep)
    requires PositionOk(s) && StreamEnabled(s, a)
    ensures PositionOk(StreamNext(s, a))
  {
    var t := StreamFrame(s, a);
    if a == NextEvent {
      SegmentAtExactly(s.ctl.routeStart, s.store.events[s.stream.i].monoTime);
    }
  }

  /** The main thread leaves the stream thread alone while it works on an event. */
  lemma MainLeavesEvent(s: State, a: MainStep)
    requires AtEvent(s.stream).Some? && MainEnabled(s, a)
    ensures var t := MainNext(s, a);
      && t.stream == s.stream && t.store.events == s.store.events
      && t.ctl.curSegment == s.ctl.curSegment && t.ctl.routeStart == s.ctl.routeStart
  {
  }

  lemma PositionMain(s: State, a: MainStep)
    requires PositionOk(s) && MainEnabled(s, a)
    ensures PositionOk(MainNext(s, a))
  {
    if AtEvent(s.stream).Some? {
      MainLeavesEvent(s, a);
    } else {
      MainStartsNoEvent(s, a);
    }
  }

  lemma MainStartsNoEvent(s: State, a: MainStep)
    requires AtEvent(s.stream).None? && MainEnabled(s, a)
    ensures AtEvent(MainNext(s, a).stream).None?
  {
  }

  lemma PositionStep(s: State, a: Step)
    requires PositionOk(s) && Enabled(s, a)
    ensures PositionOk(Next(s, a))
  {
    match a
    case OfMain(m) => PositionMain(s, m);
    case OfStream(m) => PositionStream(s, m);
    case OfCamera(_) =>
    case OfWorker(_) =>
  }

  /** Whenever the stream thread works on an event, the current segment, around which the cache is kept, is the one the time of
      the event falls into. */
  lemma {:induction false} PositionIsOfEvent(s0: State, steps: seq<Step>, s: State)
    requires Init(s0) && Reaches(s0, steps, s)
    ensures PositionOk(s)
    decreases |steps|
  {
    if steps != [] {
      var k := |steps| - 1;
      var t :| Reaches(s0, steps[..k], t) && Enabled(t, steps[k]) && s == Next(t, steps[k]);
      PositionIsOfEvent(s0, steps[..k], t);
      PositionStep(t, steps[k]);
    }
  }

  // ---------------------------------------------------------------------------------------------
  // What follows what

  /** The main thread is on its way to an update of the cache (or broken). */
  predicate OwesUpdate(pc: MainPc) {
    match pc
    case Seeking(_) => true
    case Erasing(_) => true
    case Check(after) => after.ToUpdate?
    case SeekDone(after) => after.ToUpdate?
    case Update => true
    case Broken => true
    case _ => false
  }

  lemma OwesStays(s: State, a: Step)
    requires OwesUpdate(s.main) && Enabled(s, a) && a != OfMain(OpenWindow)
    ensures OwesUpdate(Next(s, a).main)
  {
    match a
    case OfMain(m) => OwesStaysMain(s, m);
    case OfStream(m) => var t := StreamFrame(s, m);
    case OfCamera(_) =>
    case OfWorker(_) =>
  }

  lemma OwesStaysMain(s: State, a: MainStep)
    requires OwesUpdate(s.main) && MainEnabled(s, a) && a != OpenWindow
    ensures OwesUpdate(MainNext(s, a).main)
  {
  }

  lemma {:induction false} OwesStaysRun(s: State, steps: seq<Step>, t: State)
    requires OwesUpdate(s.main) && Reaches(s, steps, t) && OfMain(OpenWindow) !in steps
    ensures OwesUpdate(t.main)
    decreases |steps|
  {
    if steps != [] {
      var k := |steps| - 1;
      var u := LastOfRun(s, steps, t);
      assert steps[k] in steps;
      OwesStaysRun(s, steps[..k], u);
      OwesStays(u, steps[k]);
    }
  }

  /** Whatever the end of a load was announced, and whatever was asked for by a seek, the main thread does not come to rest before
      it has gone through an update of the cache. */
  lemma UpdateFollows(s: State, a: MainStep, steps: seq<Step>, t: State)
    requires a.SeekTo? || a.Deliver? || a.UpdateCache?
    requires Enabled(s, OfMain(a)) && Reaches(Next(s, OfMain(a)), steps, t) && OfMain(OpenWindow) !in steps
    ensures t.main != Idle && OwesUpdate(t.main)
  {
    OwesBegins(s, a);
    OwesStaysRun(Next(s, OfMain(a)), steps, t);
  }

  lemma OwesBegins(s: State, a: MainStep)
    requires (a.SeekTo? || a.Deliver? || a.UpdateCache?) && MainEnabled(s, a)
    ensures OwesUpdate(MainNext(s, a).main)
  {
  }

  /** The scans of an update have not come to the merge yet. */
  predicate Scans(pc: MainPc, w: Win) { pc == Forward(w) || pc == Reverse(w) || pc == Merging(w) }

  lemma ScansStay(s: State, a: Step, w: Win)
    requires Scans(s.main, w) && Enabled(s, a) && !(a.OfMain? && a.m.Merge?)
    ensures Scans(Next(s, a).main, w)
  {
    match a
    case OfMain(m) => ScansStayMain(s, m, w);
    case OfStream(m) => var t := StreamFrame(s, m);
    case OfCamera(_) =>
    case OfWorker(_) =>
  }

  lemma ScansStayMain(s: State, a: MainStep, w: Win)
    requires Scans(s.main, w) && MainEnabled(s, a) && !a.Merge?
    ensures Scans(MainNext(s, a).main, w)
  {
  }

  /** And an update that has opened its window does not end before it has merged, for that window. */
  lemma {:induction false} MergeFollows(s: State, w: Win, steps: seq<Step>, t: State)
    requires Enabled(s, OfMain(OpenWindow)) && Next(s, OfMain(OpenWindow)).main == Forward(w)
    requires Reaches(Next(s, OfMain(OpenWindow)), steps, t)
    requires forall a :: a in steps ==> !(a.OfMain? && a.m.Merge?)
    ensures Scans(t.main, w)
    decreases |steps|
  {
    if steps != [] {
      var k := |steps| - 1;
      var u := LastOfRun(Next(s, OfMain(OpenWindow)), steps, t);
      assert steps[k] in steps;
      MergeFollows(s, w, steps[..k], u);
      ScansStay(u, steps[k], w);
    }
  }

  // ---------------------------------------------------------------------------------------------
  // When nothing is published

  predicate NoBatch(pc: StreamPc) { pc.NotStarted? || BeforeBatch(pc) }

  ghost predicate HeldByUser(s: State) { s.ctl.userPaused && s.ctl.paused && NoBatch(s.stream) }

  lemma HeldByUserStays(s: State, a: Step)
    requires HeldByUser(s) && !s.main.Pausing? && Enabled(s, a) && !(a.OfMain? && a.m.PauseUser?)
    ensures HeldByUser(Next(s, a)) && !Next(s, a).main.Pausing?
  {
    match a
    case OfMain(m) => HeldByUserMain(s, m);
    case OfStream(m) => var t := StreamFrame(s, m);
    case OfCamera(_) =>
    case OfWorker(_) =>
  }

  lemma HeldByUserMain(s: State, a: MainStep)
    requires HeldByUser(s) && !s.main.Pausing? && MainEnabled(s, a) && !a.PauseUser?
    ensures HeldByUser(MainNext(s, a)) && !MainNext(s, a).main.Pausing?
  {
  }

  /** From the moment a pause takes effect until the user ends it, no batch of events begins, whatever is sought, loaded or merged
      meanwhile. */
  lemma {:induction false} PauseHolds(s: State, steps: seq<Step>, t: State)
    requires Enabled(s, OfMain(PauseApply)) && s.main.p && Reaches(Next(s, OfMain(PauseApply)), steps, t)
    requires forall a :: a in steps ==> !(a.OfMain? && a.m.PauseUser?)
    ensures HeldByUser(t) && !t.main.Pausing?
    decreases |steps|
  {
    if steps == [] {
      PauseBegins(s);
    } else {
      var k := |steps| - 1;
      var u := LastOfRun(Next(s, OfMain(PauseApply)), steps, t);
      assert steps[k] in steps;
      PauseHolds(s, steps[..k], u);
      HeldByUserStays(u, steps[k]);
    }
  }

  lemma PauseBegins(s: State)
    requires MainEnabled(s, PauseApply) && s.main.p
    ensures HeldByUser(MainNext(s, PauseApply)) && !MainNext(s, PauseApply).main.Pausing?
  {
  }

  ghost predicate HeldBySeek(s: State) {
    !s.ctl.ready && NoBatch(s.stream) && (s.ctl.seeking.Some? || s.main.SeekDone?)
  }

  /** The steps that let the stream go on, or seek anew. */
  predicate EndsSeek(a: Step) {
    a.OfMain? && (a.m.SeekApply? || a.m.SeekDoneApply? || a.m.EraseApply? || a.m.Stop?)
  }

  lemma HeldBySeekStays(s: State, a: Step)
    requires HeldBySeek(s) && Enabled(s, a) && !EndsSeek(a) && !s.ctl.exit
    ensures HeldBySeek(Next(s, a)) && !Next(s, a).ctl.exit
  {
    match a
    case OfMain(m) => HeldBySeekMain(s, m);
    case OfStream(m) => HeldBySeekStream(s, m);
    case OfCamera(_) =>
    case OfWorker(_) =>
  }

  lemma HeldBySeekMain(s: State, a: MainStep)
    requires HeldBySeek(s) && MainEnabled(s, a) && !EndsSeek(OfMain(a)) && !s.ctl.exit
    ensures HeldBySeek(MainNext(s, a)) && !MainNext(s, a).ctl.exit
  {
  }

  lemma HeldBySeekStream(s: State, a: StreamStep)
    requires HeldBySeek(s) && StreamEnabled(s, a) && !s.ctl.exit
    ensures HeldBySeek(StreamNext(s, a)) && !StreamNext(s, a).ctl.exit
  {
  }

  /** From a seek to a valid target on no batch of events begins before the seek is done, unless a failed segment is erased or
      another seek takes its place: events of the old position are never published. */
  lemma {:induction false} SeekHolds(s: State, steps: seq<Step>, t: State)
    requires Enabled(s, OfMain(SeekApply)) && ValidTarget(s, s.main.t) && !s.ctl.exit
    requires Reaches(Next(s, OfMain(SeekApply)), steps, t) && forall a :: a in steps ==> !EndsSeek(a)
    ensures HeldBySeek(t) && !t.ctl.exit
    decreases |steps|
  {
    if steps == [] {
      SeekBegins(s);
    } else {
      var k := |steps| - 1;
      var u := LastOfRun(Next(s, OfMain(SeekApply)), steps, t);
      assert steps[k] in steps;
      SeekHolds(s, steps[..k], u);
      HeldBySeekStays(u, steps[k]);
    }
  }

  lemma SeekBegins(s: State)
    requires MainEnabled(s, SeekApply) && ValidTarget(s, s.main.t) && !s.ctl.exit
    ensures HeldBySeek(MainNext(s, SeekApply)) && !MainNext(s, SeekApply).ctl.exit
  {
  }

  // ---------------------------------------------------------------------------------------------
  // The camera threads

  predicate HasSize(cam: Cam) { cam.thread ==> cam.size > 0 }

  predicate AllHaveSize(v: Server) { HasSize(v.road) && HasSize(v.driver) && HasSize(v.wide) }

  lemma SizesMain(s: State, a: MainStep)
    requires AllHaveSize(s.server) && MainEnabled(s, a)
    ensures AllHaveSize(MainNext(s, a).server)
  {
  }

  lemma SizesStream(s: State, a: StreamStep)
    requires AllHaveSize(s.server) && StreamEnabled(s, a) && a != PushStart
    ensures AllHaveSize(StreamNext(s, a).server)
  {
  }

  lemma SizesStart(s: State)
    requires Inv(s) && s.main != Stopped && AllHaveSize(s.server) && StreamEnabled(s, PushStart)
    ensures AllHaveSize(StreamNext(s, PushStart).server)
  {
    StreamKeeps(s, PushStart);
    var t := StreamFrame(s, PushStart);
    if t.stream.Resize? {
      ItemSize(t.store, t.stream.item);
      SizeOfResize(s, t.stream.item);
    } else {
      NoSizeChange(s);
    }
  }

  lemma SizeOfResize(s: State, item: Item)
    requires AllHaveSize(s.server) && StreamEnabled(s, PushStart) && FrameSize(s.store, item) > 0
    requires StreamNext(s, PushStart).stream == Resize(s.stream.i, item)
    ensures AllHaveSize(StreamNext(s, PushStart).server)
  {
  }

  lemma NoSizeChange(s: State)
    requires StreamEnabled(s, PushStart) && !StreamNext(s, PushStart).stream.Resize?
    ensures StreamNext(s, PushStart).server == s.server
  {
  }

  lemma SizesOfStream(s: State, a: StreamStep)
    requires Inv(s) && AllHaveSize(s.server) && StreamEnabled(s, a)
    ensures AllHaveSize(StreamNext(s, a).server)
  {
    if a == PushStart {
      StartIsNotStopped(s);
      SizesStart(s);
    } else {
      SizesStream(s, a);
    }
  }

  lemma StartIsNotStopped(s: State)
    requires Inv(s) && s.stream.Frame?
    ensures s.main != Stopped
  {
  }

  lemma SizesOfCamera(s: State, a: CameraStep)
    requires AllHaveSize(s.server) && CameraEnabled(s, a)
    ensures AllHaveSize(CameraNext(s, a).server)
  {
  }

  lemma SizesStep(s: State, a: Step)
    requires Inv(s) && AllHaveSize(s.server) && Enabled(s, a)
    ensures AllHaveSize(Next(s, a).server)
  {
    match a
    case OfMain(m) => SizesMain(s, m);
    case OfStream(m) => SizesOfStream(s, m);
    case OfCamera(m) => SizesOfCamera(s, m);
    case OfWorker(_) =>
  }

  lemma {:induction false} SizesRun(s0: State, steps: seq<Step>, s: State)
    requires Init(s0) && Reaches(s0, steps, s)
    ensures AllHaveSize(s.server)
    decreases |steps|
  {
    if steps != [] {
      var k := |steps| - 1;
      var u := LastOfRun(s0, steps, s);
      SizesRun(s0, steps[..k], u);
      InvReaches(s0, steps[..k], u);
      SizesStep(u, steps[k]);
    }
  }

  /** In every reachable state, while the camera server runs and is not just being restarted, exactly the cameras whose size is
      known have a thread. */
  lemma ThreadsExactly(s0: State, steps: seq<Step>, s: State, c: Camera)
    requires Init(s0) && Reaches(s0, steps, s)
    requires s.server.running && s.main != Stopped && !s.stream.Resize? && !s.stream.Restart?
    ensures CamOf(s.server, c).thread <==> CamOf(s.server, c).size > 0
  {
    SizesRun(s0, steps, s);
    InvReaches(s0, steps, s);
  }
}
