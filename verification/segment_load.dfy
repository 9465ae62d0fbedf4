/** The life of one segment object while its files load on worker threads: the constructor of `Segment`, `Segment::loadFile`
    (tools/replay/route.cc) and the connection made by `Replay::loadSegmentInRange` (tools/replay/replay.cc), as a state
    machine in which every access to the atomics `loading_` and `abort_` is one step. */
module SegmentLoad {

  /** A job not yet started, at work, at work and known to have failed, about to emit `loadFinished`, or over. */
  datatype Job = Unstarted | Running | Failed | Emitting | Over

  /** `delivered` are the values of the `loadFinished` signals which reached the replay; `bad` is a history variable (some
      job failed), and `openAtConnect` records whether a job was not over when the signal got connected. */
  datatype State = State(jobs: seq<Job>, loading: int, abort: bool, bad: bool, connected: bool, openAtConnect: bool,
                         delivered: seq<bool>)

  datatype Step =
    | Start(j: nat)      // `++loading_` and the launch of a job, by the constructor
    | Connect            // the constructor has returned and the signal is connected
    | Fail(j: nat)       // `abort_ = true`
    | Decrement(j: nat)  // `--loading_ == 0`
    | Emit(j: nat)       // `emit loadFinished(!abort_)`

  predicate Constructed(s: State) { Unstarted !in s.jobs }

  /** `Segment::isLoaded`. */
  predicate IsLoaded(s: State) { s.loading == 0 && !s.abort }

  predicate AllOver(s: State) { forall j :: 0 <= j < |s.jobs| ==> s.jobs[j] == Over }

  function Init(files: nat): State {
    State(seq(files, _ => Unstarted), 0, false, false, false, false, [])
  }

  predicate Enabled(s: State, a: Step) {
    match a
    case Start(j) => j < |s.jobs| && s.jobs[j] == Unstarted
    case Connect => Constructed(s) && !s.connected
    case Fail(j) => j < |s.jobs| && s.jobs[j] == Running
    case Decrement(j) => j < |s.jobs| && s.jobs[j] in {Running, Failed}
    case Emit(j) => j < |s.jobs| && s.jobs[j] == Emitting
  }

  function Next(s: State, a: Step): State
    requires Enabled(s, a)
  {
    match a
    case Start(j) => s.(jobs := s.jobs[j := Running], loading := s.loading + 1)
    case Connect => s.(connected := true, openAtConnect := !AllOver(s))
    case Fail(j) => s.(jobs := s.jobs[j := Failed], abort := true, bad := true)
    case Decrement(j) => s.(jobs := s.jobs[j := if s.loading == 1 then Emitting else Over], loading := s.loading - 1)
    case Emit(j) => s.(jobs := s.jobs[j := Over], delivered := if s.connected then s.delivered + [!s.abort] else s.delivered)
  }

  ghost predicate Run(files: nat, steps: seq<Step>, s: State)
    decreases |steps|
  {
    if steps == [] then s == Init(files)
    else
      var n := |steps| - 1;
      exists t :: Run(files, steps[..n], t) && Enabled(t, steps[n]) && s == Next(t, steps[n])
  }

  /** The jobs which have been started and have not yet decremented the counter. */
  function Active(jobs: seq<Job>): nat {
    if jobs == [] then 0 else (if jobs[|jobs| - 1] in {Running, Failed} then 1 else 0) + Active(jobs[..|jobs| - 1])
  }

  lemma {:induction false} ActiveUpdate(jobs: seq<Job>, j: nat, job: Job)
    requires j < |jobs|
    ensures Active(jobs[j := job]) - Active(jobs) ==
            (if job in {Running, Failed} then 1 else 0) - (if jobs[j] in {Running, Failed} then 1 else 0)
  {
    var n := |jobs| - 1;
    if j == n {
      assert jobs[j := job][..n] == jobs[..n];
    } else {
      ActiveUpdate(jobs[..n], j, job);
      assert jobs[j := job][..n] == jobs[..n][j := job];
    }
  }

  lemma {:induction false} ActiveZero(jobs: seq<Job>)
    ensures Active(jobs) == 0 <==> forall j :: 0 <= j < |jobs| ==> jobs[j] !in {Running, Failed}
  {
    if jobs != [] {
      ActiveZero(jobs[..|jobs| - 1]);
    }
  }

  ghost predicate Inv(s: State) {
    && s.loading == Active(s.jobs)
    && s.abort == s.bad
    && (Failed in s.jobs ==> s.bad)
    && (s.connected ==> Constructed(s))
    && (!s.connected ==> s.delivered == [])
    && (s.connected && !s.openAtConnect ==> AllOver(s) && s.delivered == [])
    && (s.connected && s.openAtConnect ==>
        || s.loading > 0
        || Emitting in s.jobs
        || (s.delivered != [] && s.delivered[|s.delivered| - 1] == !s.abort))
    && (false in s.delivered ==> s.abort)
  }

  lemma InvInit(files: nat)
    ensures Inv(Init(files))
  {
    ActiveZero(Init(files).jobs);
  }

  lemma InvStep(s: State, a: Step)
    requires Inv(s) && Enabled(s, a)
    ensures Inv(Next(s, a))
  {
    var t := Next(s, a);
    ActiveZero(s.jobs);
    ActiveZero(t.jobs);
    match a
    case Start(j) => ActiveUpdate(s.jobs, j, Running);
    case Connect =>
    case Fail(j) =>
      ActiveUpdate(s.jobs, j, Failed);
    case Decrement(j) =>
      ActiveUpdate(s.jobs, j, t.jobs[j]);
      assert t.jobs[j] in t.jobs;
    case Emit(j) => ActiveUpdate(s.jobs, j, Over);
  }

  lemma {:induction false} InvRun(files: nat, steps: seq<Step>, s: State)
    requires Run(files, steps, s)
    ensures Inv(s)
    decreases |steps|
  {
    if steps == [] {
      InvInit(files);
    } else {
      var n := |steps| - 1;
      var t :| Run(files, steps[..n], t) && Enabled(t, steps[n]) && s == Next(t, steps[n]);
      InvRun(files, steps[..n], t);
      InvStep(t, steps[n]);
    }
  }

  /** Some interleaving of the constructor and the workers leads here. */
  ghost predicate Reachable(s: State) {
    exists files, steps :: Run(files, steps, s)
  }

  lemma ReachableStep(s: State, a: Step)
    requires Reachable(s) && Enabled(s, a)
    ensures Reachable(Next(s, a))
  {
    var files, steps :| Run(files, steps, s);
    assert (steps + [a])[..|steps|] == steps;
    assert Run(files, steps + [a], Next(s, a));
  }

  /** What the workers do to a segment that the replay is connected to: nothing is lost, and at most one signal is added. */
  lemma ConnectedStep(s: State, a: Step)
    requires Reachable(s) && s.connected && Enabled(s, a)
    ensures var t := Next(s, a);
      && Reachable(t) && t.connected && |t.jobs| == |s.jobs| && t.openAtConnect == s.openAtConnect
      && (IsLoaded(s) ==> IsLoaded(t)) && (s.abort ==> t.abort) && (s.bad ==> t.bad)
      && (t.delivered == s.delivered || t.delivered == s.delivered + [!s.abort])
      && !AllOver(s)
  {
    var files, steps :| Run(files, steps, s);
    InvRun(files, steps, s);
    ReachableStep(s, a);
    LoadedIsStable(files, steps, s, a);
  }

  lemma ConnectedFacts(s: State)
    requires Reachable(s) && s.connected
    ensures IsLoaded(s) <==> !s.bad && forall j :: 0 <= j < |s.jobs| ==> s.jobs[j] in {Emitting, Over}
    ensures s.abort == s.bad && (false in s.delivered ==> s.abort)
    ensures AllOver(s) ==> (s.delivered != [] <==> s.openAtConnect)
  {
    var files, steps :| Run(files, steps, s);
    InvRun(files, steps, s);
    IsLoadedIsExact(files, steps, s);
    if AllOver(s) {
      OutcomeIsAnnounced(files, steps, s);
    }
  }

  /** In every interleaving, once the constructor has returned the segment reads as loaded exactly when all its jobs are
      done with their work and none has failed. */
  lemma IsLoadedIsExact(files: nat, steps: seq<Step>, s: State)
    requires Run(files, steps, s) && Constructed(s)
    ensures IsLoaded(s) <==> !s.bad && forall j :: 0 <= j < |s.jobs| ==> s.jobs[j] in {Emitting, Over}
  {
    InvRun(files, steps, s);
    ActiveZero(s.jobs);
    forall j | 0 <= j < |s.jobs|
      ensures s.jobs[j] != Unstarted
    {
      assert s.jobs[j] in s.jobs;
    }
  }

  /** A constructed segment which reads as loaded stays loaded whatever the workers do, and a segment for which a failure was
      announced is not loaded and never will be. */
  lemma LoadedIsStable(files: nat, steps: seq<Step>, s: State, a: Step)
    requires Run(files, steps, s) && Constructed(s) && Enabled(s, a)
    ensures IsLoaded(s) ==> IsLoaded(Next(s, a))
    ensures s.abort ==> Next(s, a).abort
    ensures false in s.delivered ==> !IsLoaded(s)
  {
    InvRun(files, steps, s);
    ActiveZero(s.jobs);
  }

  /** The replay is told the outcome of a load, and told it right, exactly when some job was not over yet at the moment
      the signal got connected. */
  lemma OutcomeIsAnnounced(files: nat, steps: seq<Step>, s: State)
    requires Run(files, steps, s) && s.connected && AllOver(s)
    ensures s.delivered != [] <==> s.openAtConnect
    ensures s.delivered != [] ==> s.delivered[|s.delivered| - 1] == !s.bad
  {
    InvRun(files, steps, s);
    ActiveZero(s.jobs);
    assert Emitting !in s.jobs;
  }

  /** The signal can be lost: a segment with one file whose job is over before the connection is made is loaded, and
      nobody is told. */
  lemma OutcomeCanBeLost() returns (steps: seq<Step>, s: State)
    ensures Run(1, steps, s) && s.connected && AllOver(s) && IsLoaded(s) && s.delivered == []
  {
    var s0 := Init(1);
    var s1 := Next(s0, Start(0));
    var s2 := Next(s1, Decrement(0));
    var s3 := Next(s2, Emit(0));
    s := Next(s3, Connect);
    steps := [Start(0), Decrement(0), Emit(0), Connect];
    assert steps[..3] == [Start(0), Decrement(0), Emit(0)];
    assert [Start(0), Decrement(0), Emit(0)][..2] == [Start(0), Decrement(0)];
    assert [Start(0), Decrement(0)][..1] == [Start(0)];
    assert [Start(0)][..0] == [];
    assert Run(1, [], s0);
    assert Run(1, [Start(0)], s1);
    assert Run(1, [Start(0), Decrement(0)], s2);
    assert Run(1, [Start(0), Decrement(0), Emit(0)], s3);
  }
}
