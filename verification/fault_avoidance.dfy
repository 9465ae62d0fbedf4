/** Cutting a request before the steering computer faults (`common_fault_avoidance`, selfdrive/car/__init__.py). */
module FaultAvoidance {
  import opened Helpers

  /** One control frame: whether the request is wanted, and whether the fault condition holds. */
  datatype Frame = Frame(request: bool, fault: bool)

  predicate Faulting(f: Frame) { f.request && f.fault }

  /** `common_fault_avoidance`: the new count, and whether the request is sent. */
  function Avoid(f: Frame, aboveLimit: int, maxAboveLimit: int, maxMismatching: int): (int, bool) {
    var counted := if f.request && f.fault then aboveLimit + 1 else 0;
    var sent := f.request && counted <= maxAboveLimit;
    (if counted >= maxAboveLimit + maxMismatching then 0 else counted, sent)
  }

  /** The count after a run that starts at zero. */
  function Count(frames: seq<Frame>, m: int, x: int): int {
    if frames == [] then 0
    else Avoid(frames[|frames| - 1], Count(frames[..|frames| - 1], m, x), m, x).0
  }

  /** Whether the request is sent in frame k. */
  predicate Sent(frames: seq<Frame>, k: nat, m: int, x: int)
    requires k < |frames|
  {
    Avoid(frames[k], Count(frames[..k], m, x), m, x).1
  }

  /** The number of faulting frames at the end of a run. */
  function Streak(frames: seq<Frame>): nat {
    if frames == [] || !Faulting(frames[|frames| - 1]) then 0 else Streak(frames[..|frames| - 1]) + 1
  }

  /** The count is the length of the current streak of faulting frames, modulo the length of one period: `m` frames with the
      request and `x` without. */
  lemma {:induction false} CountIsStreak(frames: seq<Frame>, m: nat, x: nat)
    requires m + x > 0
    ensures Count(frames, m, x) == Rem(Streak(frames), m + x)
  {
    if frames != [] {
      var before := frames[..|frames| - 1];
      CountIsStreak(before, m, x);
      if Faulting(frames[|frames| - 1]) {
        RemPlus(Streak(before), 1, m + x);
      }
    }
  }

  /** In the k-th frame of a streak the request is sent exactly when (k - 1) mod (m + x) < m; outside a streak it is sent
      exactly when it is wanted. */
  lemma SentExactlyWhen(frames: seq<Frame>, k: nat, m: nat, x: nat)
    requires k < |frames| && m + x > 0
    ensures Faulting(frames[k]) ==>
      Streak(frames[..k + 1]) > 0 && (Sent(frames, k, m, x) <==> Rem(Streak(frames[..k + 1]) - 1, m + x) < m)
    ensures !Faulting(frames[k]) ==> (Sent(frames, k, m, x) <==> frames[k].request)
  {
    CountIsStreak(frames[..k], m, x);
    assert frames[..k + 1][..k] == frames[..k];
  }

  ghost predicate AllFaulting(frames: seq<Frame>, from: nat, to: nat)
    requires from <= to <= |frames|
  {
    forall k :: from <= k < to ==> Faulting(frames[k])
  }

  lemma {:induction false} StreakGrows(frames: seq<Frame>, from: nat, n: nat)
    requires from + n <= |frames| && AllFaulting(frames, from, from + n)
    ensures Streak(frames[..from + n]) == Streak(frames[..from]) + n
  {
    if n > 0 {
      StreakGrows(frames, from, n - 1);
      var f := frames[..from + n];
      assert f[|f| - 1] == frames[from + n - 1] && f[..|f| - 1] == frames[..from + (n - 1)];
    }
  }

  /** Among any m + 1 consecutive faulting frames there is one in which the request is cut. */
  lemma NeverTooLong(frames: seq<Frame>, from: nat, m: nat, x: nat) returns (k: nat)
    requires x >= 1 && from + m < |frames| && AllFaulting(frames, from, from + m + 1)
    ensures from <= k <= from + m && !Sent(frames, k, m, x)
  {
    // the count before the first of these frames says how far off the cut is
    var r := Rem(Streak(frames[..from]), m + x);
    var d := if r <= m then m - r else 0;
    k := from + d;
    StreakGrows(frames, from, d);
    RemAdds(Streak(frames[..from]), d, m + x);
    CountIsStreak(frames[..k], m, x);
  }

  /** While the fault persists, a cut lasts x frames: if the request is sent in one frame and cut in the next, it is cut in
      x frames and then sent again if m is not zero. */
  lemma CutLasts(frames: seq<Frame>, k: nat, m: nat, x: nat)
    requires x >= 1 && k + x + 1 < |frames| && AllFaulting(frames, k, k + x + 2)
    requires Sent(frames, k, m, x) && !Sent(frames, k + 1, m, x)
    ensures forall i :: k + 1 <= i <= k + x ==> !Sent(frames, i, m, x)
    ensures Sent(frames, k + 1 + x, m, x)
  {
    CountIsStreak(frames[..k], m, x);
    CountAt(frames, k, 1, m, x);
    assert Count(frames[..k + 1], m, x) == m;
    forall i | k + 1 <= i <= k + x
      ensures !Sent(frames, i, m, x)
    {
      CountAt(frames, k + 1, i - (k + 1), m, x);
      assert Faulting(frames[i]);
    }
    CountAt(frames, k + 1, x, m, x);
  }

  lemma CountAt(frames: seq<Frame>, k: nat, d: nat, m: nat, x: nat)
    requires m + x > 0 && d <= m + x && k + d <= |frames| && AllFaulting(frames, k, k + d)
    ensures 0 <= Count(frames[..k], m, x) < m + x
    ensures var c := Count(frames[..k], m, x) + d;
      Count(frames[..k + d], m, x) == if c < m + x then c else c - (m + x)
  {
    StreakGrows(frames, k, d);
    RemAdds(Streak(frames[..k]), d, m + x);
    CountIsStreak(frames[..k], m, x);
    CountIsStreak(frames[..k + d], m, x);
  }

  /** A limit on mismatching frames of zero turns the mechanism off: the request is then never cut. */
  lemma NothingCutWithoutMismatch(frames: seq<Frame>, k: nat, m: nat)
    requires m >= 1 && k < |frames|
    ensures Sent(frames, k, m, 0) <==> frames[k].request
  {
    CountIsStreak(frames[..k], m, 0);
  }

  /** With both limits zero every faulting frame is cut. */
  lemma {:induction false} NothingCounted(frames: seq<Frame>)
    ensures Count(frames, 0, 0) == 0
  {
    if frames != [] {
      NothingCounted(frames[..|frames| - 1]);
    }
  }

  lemma BothZero(frames: seq<Frame>, k: nat)
    requires k < |frames|
    ensures Sent(frames, k, 0, 0) <==> frames[k].request && !Faulting(frames[k])
  {
    NothingCounted(frames[..k]);
  }

  /** The request is cut in every long enough streak exactly when at least one mismatching frame is allowed or no frame above
      the limit is. */
  lemma CutsExactlyWhen(frames: seq<Frame>, from: nat, m: nat, x: nat)
    requires from + m < |frames| && AllFaulting(frames, from, from + m + 1)
    ensures (exists k :: from <= k <= from + m && !Sent(frames, k, m, x)) <==> x >= 1 || m == 0
  {
    if x >= 1 {
      var k := NeverTooLong(frames, from, m, x);
    } else if m == 0 {
      BothZero(frames, from);
      assert Faulting(frames[from]);
    } else {
      forall k | from <= k <= from + m
        ensures Sent(frames, k, m, x)
      {
        NothingCutWithoutMismatch(frames, k, m);
      }
    }
  }
}
