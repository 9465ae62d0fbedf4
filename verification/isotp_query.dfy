/** Parallel requests to many control units (`IsoTpParallelQuery.get_data`, selfdrive/car/isotp_parallel_query.py). */
module IsoTpQuery {
  import opened Helpers

  type Bytes = seq<int>

  // ---------------------------------------------------------------------------------------------
  // One address

  /** The requests, the prefixes of the responses to them, and the timeouts. */
  datatype Config = Config(requests: nat, response: seq<Bytes>, timeout: real, pendingTimeout: real, start: real)
  {
    ghost predicate Valid() { 1 <= requests <= |response| }
  }

  /** What `recv` gives for one address in one round, and the clock when it is read after progress and after a payload. */
  datatype Recv = Raised | Received(dat: Option<Bytes>, inProgress: bool, progressTime: real, payloadTime: real)

  /** One round as one address sees it; `now` is the clock when the timeouts are looked at. */
  datatype Turn = Turn(recv: Recv, now: real)

  /** The entries of one address in the dictionaries, and the numbers of the requests sent to it. */
  datatype Query = Query(counter: nat, done: bool, deadline: real, result: Option<Bytes>, sent: seq<nat>)

  const RESPONSE_PENDING := 0x78

  predicate IsPending(dat: Bytes) { |dat| > 2 && dat[2] == RESPONSE_PENDING }

  function Started(c: Config): Query {
    Query(0, false, c.start + c.timeout, None, [0])
  }

  /** The answer to a payload that is not empty. */
  function OnPayload(c: Config, q: Query, dat: Bytes, time: real): Query
    requires c.Valid() && q.counter < c.requests
  {
    var expected := c.response[q.counter];
    if expected <= dat then
      if q.counter + 1 < c.requests
      then q.(deadline := time + c.timeout, sent := q.sent + [q.counter + 1], counter := q.counter + 1)
      else q.(result := Some(dat[|expected|..]), done := true)
    else if IsPending(dat) then q.(deadline := time + c.pendingTimeout)
    else q.(done := true)
  }

  function OnRecv(c: Config, q: Query, r: Recv): Query
    requires c.Valid() && q.counter < c.requests
  {
    if r.Raised? then q.(done := true)
    else
      var p := if r.inProgress then q.(deadline := r.progressTime + c.timeout) else q;
      if r.dat.None? then p
      else if r.dat.value == [] then p.(done := true)
      else OnPayload(c, p, r.dat.value, r.payloadTime)
  }

  function OnClock(q: Query, now: real): Query {
    if now - q.deadline > 0.0 then q.(done := true) else q
  }

  /** The entries of an address after some rounds. */
  function After(c: Config, turns: seq<Turn>): (q: Query)
    requires c.Valid()
    ensures q.counter < c.requests
  {
    if turns == [] then Started(c)
    else
      var t := turns[|turns| - 1];
      OnClock(OnRecv(c, After(c, turns[..|turns| - 1]), t.recv), t.now)
  }

  // ---------------------------------------------------------------------------------------------
  // What is sent

  function Numbers(n: nat): (s: seq<nat>) { seq(n, i requires 0 <= i < n => i) }

  /** Each address gets the requests in order, each at most once, and the next one only after a response to the last. */
  lemma {:induction false} RequestsAreSentInOrder(c: Config, turns: seq<Turn>)
    requires c.Valid()
    ensures var q := After(c, turns); q.sent == Numbers(q.counter + 1) && q.counter < c.requests
  {
    if turns != [] {
      RequestsAreSentInOrder(c, turns[..|turns| - 1]);
    }
  }

  /** What is done stays done, and a result is never lost. */
  lemma {:induction false} DoneStaysDone(c: Config, turns: seq<Turn>, k: nat)
    requires c.Valid() && k <= |turns|
    ensures After(c, turns[..k]).done ==> After(c, turns).done
    ensures After(c, turns[..k]).result.Some? ==> After(c, turns).result.Some?
    ensures After(c, turns[..k]).counter <= After(c, turns).counter
    decreases |turns|
  {
    if k < |turns| {
      var before := turns[..|turns| - 1];
      DoneStaysDone(c, before, k);
      assert before[..k] == turns[..k];
    } else {
      assert turns[..k] == turns;
    }
  }

  // ---------------------------------------------------------------------------------------------
  // What is recorded

  /** The payloads of a turn that are looked at. */
  function Payload(t: Turn): seq<Bytes> {
    if t.recv.Raised? || t.recv.dat.None? || t.recv.dat.value == [] then [] else [t.recv.dat.value]
  }

  function Payloads(turns: seq<Turn>): seq<Bytes> {
    if turns == [] then []
    else Payloads(turns[..|turns| - 1]) + Payload(turns[|turns| - 1])
  }

  predicate Increasing(idx: seq<nat>) {
    forall i, j :: 0 <= i < j < |idx| ==> idx[i] < idx[j]
  }

  /** The payloads at the given places match the first |idx| expected prefixes, in order. */
  ghost predicate Matches(c: Config, payloads: seq<Bytes>, idx: seq<nat>) {
    && |idx| <= |c.response| && Increasing(idx)
    && forall i :: 0 <= i < |idx| ==> idx[i] < |payloads| && c.response[i] <= payloads[idx[i]]
  }

  lemma MatchesMore(c: Config, payloads: seq<Bytes>, idx: seq<nat>, more: seq<Bytes>)
    requires Matches(c, payloads, idx)
    ensures Matches(c, payloads + more, idx)
  {
  }

  lemma MatchesNext(c: Config, payloads: seq<Bytes>, idx: seq<nat>, dat: Bytes)
    requires Matches(c, payloads, idx) && |idx| < |c.response| && c.response[|idx|] <= dat
    ensures Matches(c, payloads + [dat], idx + [|payloads|])
  {
  }

  /** One round, as far as the counter and the result go: a payload counts, whether or not the address is already done. */
  lemma Progress(c: Config, turns: seq<Turn>)
    requires c.Valid() && turns != []
    ensures var before := After(c, turns[..|turns| - 1]);
      var q := After(c, turns);
      var p := Payload(turns[|turns| - 1]);
      if p != [] && c.response[before.counter] <= p[0] then
        if before.counter + 1 < c.requests then q.counter == before.counter + 1 && q.result == before.result
        else q.counter == before.counter && q.result == Some(p[0][|c.response[before.counter]|..])
      else q.counter == before.counter && q.result == before.result
  {
  }

  /** The counter says how many expected prefixes were met, in order. */
  lemma {:induction false} CounterIsEarned(c: Config, turns: seq<Turn>) returns (idx: seq<nat>)
    requires c.Valid()
    ensures |idx| == After(c, turns).counter && Matches(c, Payloads(turns), idx)
  {
    if turns == [] {
      idx := [];
    } else {
      var before := turns[..|turns| - 1];
      var p := Payload(turns[|turns| - 1]);
      Progress(c, turns);
      idx := CounterIsEarned(c, before);
      if |idx| + 1 == After(c, turns).counter {
        MatchesNext(c, Payloads(before), idx, p[0]);
        idx := idx + [|Payloads(before)|];
      } else {
        MatchesMore(c, Payloads(before), idx, p);
      }
    }
  }

  lemma CounterNext(c: Config, turns: seq<Turn>) returns (before: nat, counter: nat)
    requires c.Valid() && turns != []
    ensures before == After(c, turns[..|turns| - 1]).counter && before < c.requests && counter == After(c, turns).counter
    ensures before <= counter
    ensures var p := Payload(turns[|turns| - 1]);
      p != [] && c.response[before] <= p[0] && before + 1 < c.requests ==> counter == before + 1
  {
    before, counter := After(c, turns[..|turns| - 1]).counter, After(c, turns).counter;
    Progress(c, turns);
  }

  /** No match of the first prefixes in the payloads is missed. */
  lemma {:induction false} CounterMissesNothing(c: Config, turns: seq<Turn>, idx: seq<nat>)
    requires c.Valid() && Matches(c, Payloads(turns), idx) && |idx| < c.requests
    ensures |idx| <= After(c, turns).counter
  {
    assert idx != [] ==> idx[0] < |Payloads(turns)|;
    if turns != [] && idx != [] {
      var payloads, more := Payloads(turns[..|turns| - 1]), Payload(turns[|turns| - 1]);
      var before, counter := CounterNext(c, turns);
      var n := |idx| - 1;
      if idx[n] < |payloads| {
        MatchesShorter(c, payloads, more, idx);
        CounterMissesNothing(c, turns[..|turns| - 1], idx);
      } else {
        MatchesLast(c, payloads, more, idx);
        CounterMissesNothing(c, turns[..|turns| - 1], idx[..n]);
      }
    }
  }

  lemma MatchesShorter(c: Config, payloads: seq<Bytes>, more: seq<Bytes>, idx: seq<nat>)
    requires Matches(c, payloads + more, idx) && idx != [] && idx[|idx| - 1] < |payloads|
    ensures Matches(c, payloads, idx)
  {
    forall i | 0 <= i < |idx|
      ensures idx[i] < |payloads| && c.response[i] <= payloads[idx[i]]
    {
      assert i < |idx| - 1 ==> idx[i] < idx[|idx| - 1];
      assert (payloads + more)[idx[i]] == payloads[idx[i]];
    }
  }

  lemma MatchesLast(c: Config, payloads: seq<Bytes>, more: seq<Bytes>, idx: seq<nat>)
    requires Matches(c, payloads + more, idx) && idx != [] && idx[|idx| - 1] >= |payloads| && |more| <= 1
    ensures Matches(c, payloads, idx[..|idx| - 1]) && |more| == 1 && c.response[|idx| - 1] <= more[0]
  {
    var n := |idx| - 1;
    assert idx[n] == |payloads|;
    forall i | 0 <= i < n
      ensures idx[i] < |payloads| && c.response[i] <= payloads[idx[i]]
    {
      assert idx[i] < idx[n];
      assert (payloads + more)[idx[i]] == payloads[idx[i]];
    }
  }

  /** A payload completes the query: all prefixes are met in order, the last one by this payload. */
  ghost predicate Completes(c: Config, payloads: seq<Bytes>, i: nat) {
    exists idx :: |idx| == c.requests > 0 && Matches(c, payloads, idx) && idx[c.requests - 1] == i
  }

  /** The result is that of payload i: the last payload that completes the query, without the prefix. */
  ghost predicate IsResult(c: Config, payloads: seq<Bytes>, i: nat, v: Bytes)
    requires c.Valid()
  {
    && Completes(c, payloads, i) && i < |payloads| && v == payloads[i][|c.response[c.requests - 1]|..]
    && c.response[c.requests - 1] <= payloads[i]
    && forall j: nat :: Completes(c, payloads, j) ==> j <= i
  }

  lemma CompletesIsInside(c: Config, payloads: seq<Bytes>, i: nat)
    requires c.Valid() && Completes(c, payloads, i)
    ensures i < |payloads| && c.response[c.requests - 1] <= payloads[i]
  {
  }

  lemma CompletesMore(c: Config, payloads: seq<Bytes>, more: seq<Bytes>, i: nat)
    requires c.Valid() && |c.response| >= c.requests && i < |payloads|
    ensures Completes(c, payloads + more, i) <==> Completes(c, payloads, i)
  {
    if Completes(c, payloads + more, i) {
      var idx :| |idx| == c.requests > 0 && Matches(c, payloads + more, idx) && idx[c.requests - 1] == i;
      MatchesShorter(c, payloads, more, idx);
    }
    if Completes(c, payloads, i) {
      var idx :| |idx| == c.requests > 0 && Matches(c, payloads, idx) && idx[c.requests - 1] == i;
      MatchesMore(c, payloads, idx, more);
    }
  }

  lemma MatchesBefore(c: Config, payloads: seq<Bytes>, more: seq<Bytes>) returns (idx: seq<nat>)
    requires c.Valid() && |more| <= 1 && Completes(c, payloads + more, |payloads|)
    ensures |idx| + 1 == c.requests && Matches(c, payloads, idx)
    ensures |more| == 1 && c.response[c.requests - 1] <= more[0]
  {
    idx :| |idx| == c.requests > 0 && Matches(c, payloads + more, idx) && idx[c.requests - 1] == |payloads|;
    MatchesLast(c, payloads, more, idx);
    idx := idx[..c.requests - 1];
  }

  lemma CompletedNow(c: Config, turns: seq<Turn>)
    requires c.Valid() && turns != []
    requires Completes(c, Payloads(turns), |Payloads(turns[..|turns| - 1])|)
    ensures var p := Payload(turns[|turns| - 1]);
      && p != [] && c.response[c.requests - 1] <= p[0]
      && After(c, turns[..|turns| - 1]).counter + 1 == c.requests
  {
    var before := turns[..|turns| - 1];
    var idx := MatchesBefore(c, Payloads(before), Payload(turns[|turns| - 1]));
    CounterMissesNothing(c, before, idx);
  }

  lemma LastMatchCompletes(c: Config, payloads: seq<Bytes>, idx: seq<nat>, dat: Bytes)
    requires c.Valid() && Matches(c, payloads, idx) && |idx| + 1 == c.requests && c.response[c.requests - 1] <= dat
    ensures Completes(c, payloads + [dat], |payloads|)
  {
    MatchesNext(c, payloads, idx, dat);
    var all := idx + [|payloads|];
    assert |all| == c.requests && all[c.requests - 1] == |payloads|;
  }

  /** The new payload completes the query exactly when the counter has reached the last request and the payload matches. */
  lemma CompletesNow(c: Config, turns: seq<Turn>)
    requires c.Valid() && turns != [] && Payload(turns[|turns| - 1]) != []
    ensures var before := turns[..|turns| - 1];
      Completes(c, Payloads(turns), |Payloads(before)|) <==>
        After(c, before).counter + 1 == c.requests && c.response[c.requests - 1] <= Payload(turns[|turns| - 1])[0]
  {
    var before := turns[..|turns| - 1];
    var p := Payload(turns[|turns| - 1]);
    assert p == [p[0]];
    if Completes(c, Payloads(turns), |Payloads(before)|) {
      CompletedNow(c, turns);
    } else if After(c, before).counter + 1 == c.requests && c.response[c.requests - 1] <= p[0] {
      var idx := CounterIsEarned(c, before);
      LastMatchCompletes(c, Payloads(before), idx, p[0]);
    }
  }

  lemma KeepsResult(c: Config, payloads: seq<Bytes>, more: seq<Bytes>, i: nat, v: Bytes)
    requires c.Valid() && IsResult(c, payloads, i, v) && |more| <= 1
    requires !Completes(c, payloads + more, |payloads|)
    ensures IsResult(c, payloads + more, i, v)
  {
    CompletesMore(c, payloads, more, i);
    forall j: nat | Completes(c, payloads + more, j)
      ensures j <= i
    {
      CompletesIsInside(c, payloads + more, j);
      if j < |payloads| { CompletesMore(c, payloads, more, j); }
    }
  }

  lemma NewResult(c: Config, payloads: seq<Bytes>, dat: Bytes)
    requires c.Valid() && Completes(c, payloads + [dat], |payloads|)
    ensures c.response[c.requests - 1] <= dat
    ensures IsResult(c, payloads + [dat], |payloads|, dat[|c.response[c.requests - 1]|..])
  {
    CompletesIsInside(c, payloads + [dat], |payloads|);
    forall j: nat | Completes(c, payloads + [dat], j)
      ensures j <= |payloads|
    {
      CompletesIsInside(c, payloads + [dat], j);
    }
  }

  lemma NothingCompletes(c: Config, payloads: seq<Bytes>, more: seq<Bytes>)
    requires c.Valid() && |more| <= 1 && (forall j: nat :: !Completes(c, payloads, j))
    requires !Completes(c, payloads + more, |payloads|)
    ensures forall j: nat :: !Completes(c, payloads + more, j)
  {
    forall j: nat | Completes(c, payloads + more, j)
      ensures false
    {
      CompletesIsInside(c, payloads + more, j);
      if j < |payloads| { CompletesMore(c, payloads, more, j); }
    }
  }

  ghost predicate Recorded(c: Config, payloads: seq<Bytes>, result: Option<Bytes>)
    requires c.Valid()
  {
    match result
    case None => forall i: nat :: !Completes(c, payloads, i)
    case Some(v) => exists i: nat :: IsResult(c, payloads, i, v)
  }

  /** A result is recorded exactly when the expected prefixes occur among the payloads in order, and it is the last payload
      that completes them, without its prefix. Timeouts, errors and bad responses in between make no difference. */
  lemma {:induction false} ResultIsLastCompletion(c: Config, turns: seq<Turn>)
    requires c.Valid()
    ensures Recorded(c, Payloads(turns), After(c, turns).result)
  {
    if turns != [] {
      var before := turns[..|turns| - 1];
      ResultIsLastCompletion(c, before);
      RecordedNext(c, turns);
    }
  }

  lemma RecordedNext(c: Config, turns: seq<Turn>)
    requires c.Valid() && turns != []
    requires var before := turns[..|turns| - 1]; Recorded(c, Payloads(before), After(c, before).result)
    ensures Recorded(c, Payloads(turns), After(c, turns).result)
  {
    var before := turns[..|turns| - 1];
    var payloads, more := Payloads(before), Payload(turns[|turns| - 1]);
    Progress(c, turns);
    if more == [] {
      assert Payloads(turns) == payloads;
    } else {
      CompletesNow(c, turns);
      var result := After(c, before).result;
      if Completes(c, Payloads(turns), |payloads|) {
        NewResult(c, payloads, more[0]);
      } else if result.None? {
        NothingCompletes(c, payloads, more);
      } else {
        var i :| IsResult(c, payloads, i, result.value);
        KeepsResult(c, payloads, more, i, result.value);
      }
    }
  }

  // ---------------------------------------------------------------------------------------------
  // When an address is done

  /** Whether the payload of a round is the response to the request that is waited for. */
  predicate IsAnswer(c: Config, counter: nat, t: Turn)
    requires c.Valid() && counter < c.requests
  {
    Payload(t) != [] && c.response[counter] <= Payload(t)[0]
  }

  /** Whether what is received in a round ends the query: an error, an empty response, the last response, or a bad one that
      does not ask for patience. */
  predicate IsEnd(c: Config, counter: nat, t: Turn)
    requires c.Valid() && counter < c.requests
  {
    || t.recv.Raised? || t.recv.dat == Some([])
    || (Payload(t) != [] &&
        if IsAnswer(c, counter, t) then counter + 1 == c.requests else !AsksForPatience(Payload(t)[0]))
  }

  /** The third byte of the payload is the code for a pending response. */
  predicate AsksForPatience(dat: Bytes) { |dat| >= 3 && dat[2] == 0x78 }

  /** The deadline that a round sets, if any: the clock at an answer to any but the last request plus the timeout, at a request
      for patience plus the longer timeout, or at some progress plus the timeout; what comes later in the round counts. */
  function NewDeadline(c: Config, counter: nat, t: Turn): Option<real>
    requires c.Valid() && counter < c.requests
  {
    if IsAnswer(c, counter, t) && counter + 1 < c.requests then Some(t.recv.payloadTime + c.timeout)
    else if Payload(t) != [] && !IsAnswer(c, counter, t) && AsksForPatience(Payload(t)[0])
    then Some(t.recv.payloadTime + c.pendingTimeout)
    else if t.recv.Received? && t.recv.inProgress then Some(t.recv.progressTime + c.timeout)
    else None
  }

  lemma RecvMeans(c: Config, q: Query, t: Turn)
    requires c.Valid() && q.counter < c.requests
    ensures OnRecv(c, q, t.recv).done <==> q.done || IsEnd(c, q.counter, t)
    ensures OnRecv(c, q, t.recv).deadline ==
      match NewDeadline(c, q.counter, t) case Some(d) => d case None => q.deadline
  {
  }

  /** How far the query was before round k: the number of the request that is waited for. */
  function CounterBefore(c: Config, turns: seq<Turn>, k: nat): (n: nat)
    requires c.Valid() && k <= |turns|
    ensures n < c.requests
  {
    After(c, turns[..k]).counter
  }

  function SetsDeadline(c: Config, turns: seq<Turn>, k: nat): Option<real>
    requires c.Valid() && k < |turns|
  {
    NewDeadline(c, CounterBefore(c, turns, k), turns[k])
  }

  /** The deadline after all rounds: the one set last, or the start plus the timeout. */
  ghost predicate IsDeadline(c: Config, turns: seq<Turn>, d: real)
    requires c.Valid()
  {
    || (d == c.start + c.timeout && forall k :: 0 <= k < |turns| ==> SetsDeadline(c, turns, k) == None)
    || exists k :: 0 <= k < |turns| && IsLastDeadline(c, turns, k, d)
  }

  ghost predicate IsLastDeadline(c: Config, turns: seq<Turn>, k: nat, d: real)
    requires c.Valid() && k < |turns|
  {
    SetsDeadline(c, turns, k) == Some(d) && forall j :: k < j < |turns| ==> SetsDeadline(c, turns, j) == None
  }

  lemma SetsSame(c: Config, turns: seq<Turn>, n: nat, k: nat)
    requires c.Valid() && k < n <= |turns|
    ensures SetsDeadline(c, turns[..n], k) == SetsDeadline(c, turns, k)
  {
    assert turns[..n][..k] == turns[..k];
  }

  lemma DeadlineNext(c: Config, turns: seq<Turn>)
    requires c.Valid() && turns != []
    ensures var n := |turns| - 1;
      After(c, turns).deadline ==
      match SetsDeadline(c, turns, n) case Some(d) => d case None => After(c, turns[..n]).deadline
  {
    var n := |turns| - 1;
    RecvMeans(c, After(c, turns[..n]), turns[n]);
  }

  /** The deadline is never anything else. */
  lemma {:induction false} DeadlineIsLastSet(c: Config, turns: seq<Turn>)
    requires c.Valid()
    ensures IsDeadline(c, turns, After(c, turns).deadline)
  {
    if turns != [] {
      var n := |turns| - 1;
      DeadlineIsLastSet(c, turns[..n]);
      DeadlineNext(c, turns);
      if SetsDeadline(c, turns, n) == None {
        DeadlineStays(c, turns, After(c, turns[..n]).deadline);
      } else {
        assert IsLastDeadline(c, turns, n, After(c, turns).deadline);
      }
    }
  }

  lemma DeadlineStays(c: Config, turns: seq<Turn>, d: real)
    requires c.Valid() && turns != [] && SetsDeadline(c, turns, |turns| - 1) == None
    requires IsDeadline(c, turns[..|turns| - 1], d)
    ensures IsDeadline(c, turns, d)
  {
    var n := |turns| - 1;
    forall k | 0 <= k < n
      ensures SetsDeadline(c, turns[..n], k) == SetsDeadline(c, turns, k)
    {
      SetsSame(c, turns, n, k);
    }
    if k :| 0 <= k < n && IsLastDeadline(c, turns[..n], k, d) {
      assert IsLastDeadline(c, turns, k, d);
    }
  }

  /** There is only one such deadline. */
  lemma DeadlineIsUnique(c: Config, turns: seq<Turn>, d: real, e: real)
    requires c.Valid() && IsDeadline(c, turns, d) && IsDeadline(c, turns, e)
    ensures d == e
  {
    if i :| 0 <= i < |turns| && IsLastDeadline(c, turns, i, d) {
      var j :| 0 <= j < |turns| && IsLastDeadline(c, turns, j, e);
      assert i == j;
    }
  }

  ghost predicate IsPast(c: Config, turns: seq<Turn>, d: real)
    requires c.Valid() && turns != []
  {
    IsDeadline(c, turns, d) && turns[|turns| - 1].now > d
  }

  /** At the end of the last of some rounds the clock is past the deadline. */
  ghost predicate Overdue(c: Config, turns: seq<Turn>)
    requires c.Valid() && turns != []
  {
    exists d :: IsPast(c, turns, d)
  }

  /** A round ends the query of an address. */
  ghost predicate EndsAt(c: Config, turns: seq<Turn>, k: nat)
    requires c.Valid() && k < |turns|
  {
    IsEnd(c, CounterBefore(c, turns, k), turns[k]) || Overdue(c, turns[..k + 1])
  }

  lemma OverdueExactlyWhen(c: Config, turns: seq<Turn>, d: real)
    requires c.Valid() && turns != [] && d == After(c, turns).deadline
    ensures Overdue(c, turns) <==> turns[|turns| - 1].now > d
  {
    var now := turns[|turns| - 1].now;
    DeadlineIsLastSet(c, turns);
    if Overdue(c, turns) {
      var e :| IsPast(c, turns, e);
      DeadlineIsUnique(c, turns, d, e);
    } else if now > d {
      assert IsPast(c, turns, d);
    }
  }

  /** The last step of a run. */
  lemma LastRound(c: Config, turns: seq<Turn>) returns (before: Query, received: Query)
    requires c.Valid() && turns != []
    ensures before == After(c, turns[..|turns| - 1]) && before.counter < c.requests
    ensures received == OnRecv(c, before, turns[|turns| - 1].recv)
    ensures After(c, turns) == OnClock(received, turns[|turns| - 1].now)
  {
    before := After(c, turns[..|turns| - 1]);
    received := OnRecv(c, before, turns[|turns| - 1].recv);
  }

  lemma EndsOrNot(c: Config, turns: seq<Turn>)
    requires c.Valid() && turns != []
    ensures var n := |turns| - 1;
      After(c, turns).done <==> After(c, turns[..n]).done || EndsAt(c, turns, n)
  {
    var n := |turns| - 1;
    var before, received := LastRound(c, turns);
    RecvMeans(c, before, turns[n]);
    assert turns[..n + 1] == turns;
    OverdueExactlyWhen(c, turns, received.deadline);
  }

  lemma EndsSame(c: Config, turns: seq<Turn>, n: nat, k: nat)
    requires c.Valid() && k < n <= |turns|
    ensures EndsAt(c, turns[..n], k) <==> EndsAt(c, turns, k)
  {
    assert turns[..n][..k] == turns[..k];
    assert turns[..n][..k + 1] == turns[..k + 1];
  }

  /** An address is done exactly when some round ended its query: an error, an empty or a bad response that does not ask for
      patience, the last response, or a clock past the deadline set last. */
  lemma {:induction false} DoneExactlyWhen(c: Config, turns: seq<Turn>)
    requires c.Valid()
    ensures After(c, turns).done <==> exists k :: 0 <= k < |turns| && EndsAt(c, turns, k)
  {
    if turns != [] {
      var n := |turns| - 1;
      DoneExactlyWhen(c, turns[..n]);
      EndsOrNot(c, turns);
      forall k | 0 <= k < n
        ensures EndsAt(c, turns[..n], k) <==> EndsAt(c, turns, k)
      {
        EndsSame(c, turns, n, k);
      }
    }
  }

  /** An address that has timed out is still listened to: one round of silence past the deadline, then the response. */
  lemma ResultAfterTimeout() returns (c: Config, turns: seq<Turn>)
    ensures c.Valid() && |turns| == 2 && After(c, turns[..1]).done && After(c, turns[..1]).result == None
    ensures After(c, turns).done && After(c, turns).result == Some([7])
  {
    c := Config(1, [[98]], 1.0, 10.0, 0.0);
    var silence := Turn(Received(None, false, 2.0, 2.0), 2.0);
    var answer := Turn(Received(Some([98, 7]), false, 3.0, 3.0), 3.0);
    turns := [silence, answer];
    assert turns[..1] == [silence] && [silence][..0] == [];
    assert After(c, []) == Started(c);
    assert After(c, [silence]) == OnClock(OnRecv(c, Started(c), silence.recv), 2.0);
    assert [98, 7][1..] == [7];
  }

  // ---------------------------------------------------------------------------------------------
  // The loop

  /** What is received by each address in each round, and the clock at the end of each round. */
  datatype Schedule = Schedule(recv: (nat, nat) -> Recv, now: nat -> real)

  /** The first rounds, as one address sees them. */
  function Turns(s: Schedule, address: nat, rounds: nat): seq<Turn> {
    seq(rounds, k requires 0 <= k < rounds => Turn(s.recv(k, address), s.now(k)))
  }

  function QueryAt(c: Config, s: Schedule, address: nat, rounds: nat): Query
    requires c.Valid()
  {
    After(c, Turns(s, address, rounds))
  }

  ghost predicate AllDone(c: Config, addresses: nat, s: Schedule, rounds: nat)
    requires c.Valid()
  {
    forall a :: 0 <= a < addresses ==> QueryAt(c, s, a, rounds).done
  }

  /** The loop is left at the end of round k. */
  ghost predicate Leaves(c: Config, addresses: nat, totalTimeout: real, s: Schedule, k: nat)
    requires c.Valid()
  {
    AllDone(c, addresses, s, k + 1) || s.now(k) - c.start > totalTimeout
  }

  lemma NextRound(c: Config, s: Schedule, address: nat, k: nat)
    requires c.Valid()
    ensures QueryAt(c, s, address, k + 1)
         == OnClock(OnRecv(c, QueryAt(c, s, address, k), s.recv(k, address)), s.now(k))
  {
    assert Turns(s, address, k + 1)[..k] == Turns(s, address, k);
  }

  ghost predicate AreResults(results: map<nat, Bytes>, queries: seq<Query>) {
    && (forall a :: a in results ==> a < |queries| && queries[a].result == Some(results[a]))
    && (forall a :: 0 <= a < |queries| && queries[a].result.Some? ==> a in results)
  }

  /** The inner loop of a round: each address receives. */
  method ReceiveAll(c: Config, s: Schedule, k: nat, before: seq<Query>) returns (queries: seq<Query>)
    requires c.Valid() && forall a :: 0 <= a < |before| ==> before[a].counter < c.requests
    ensures |queries| == |before|
    ensures forall a :: 0 <= a < |before| ==> queries[a] == OnRecv(c, before[a], s.recv(k, a))
  {
    queries := before;
    for a := 0 to |before|
      invariant |queries| == |before|
      invariant forall b :: 0 <= b < a ==> queries[b] == OnRecv(c, before[b], s.recv(k, b))
      invariant forall b :: a <= b < |before| ==> queries[b] == before[b]
    {
      queries := queries[a := OnRecv(c, queries[a], s.recv(k, a))];
    }
  }

  method CheckTimeouts(before: seq<Query>, now: real) returns (queries: seq<Query>, allDone: bool)
    ensures |queries| == |before|
    ensures forall a :: 0 <= a < |before| ==> queries[a] == OnClock(before[a], now)
    ensures allDone <==> forall a :: 0 <= a < |before| ==> queries[a].done
  {
    queries, allDone := before, true;
    for a := 0 to |before|
      invariant |queries| == |before|
      invariant forall b :: 0 <= b < a ==> queries[b] == OnClock(before[b], now)
      invariant forall b :: a <= b < |before| ==> queries[b] == before[b]
      invariant allDone <==> forall b :: 0 <= b < a ==> queries[b].done
    {
      if now - queries[a].deadline > 0.0 {
        queries := queries[a := queries[a].(done := true)];
      }
      allDone := allDone && queries[a].done;
    }
  }

  ghost predicate AreAt(c: Config, s: Schedule, rounds: nat, queries: seq<Query>)
    requires c.Valid()
  {
    forall a :: 0 <= a < |queries| ==> queries[a] == QueryAt(c, s, a, rounds)
  }

  method DoRound(c: Config, s: Schedule, k: nat, before: seq<Query>) returns (queries: seq<Query>, allDone: bool)
    requires c.Valid() && AreAt(c, s, k, before)
    ensures |queries| == |before| && AreAt(c, s, k + 1, queries)
    ensures allDone <==> forall a :: 0 <= a < |before| ==> queries[a].done
  {
    queries := ReceiveAll(c, s, k, before);
    queries, allDone := CheckTimeouts(queries, s.now(k));
    forall a | 0 <= a < |before|
      ensures queries[a] == QueryAt(c, s, a, k + 1)
    {
      NextRound(c, s, a, k);
    }
  }

  method Collect(queries: seq<Query>) returns (results: map<nat, Bytes>)
    ensures AreResults(results, queries)
  {
    results := map[];
    for a := 0 to |queries|
      invariant forall b :: b in results ==> b < a && queries[b].result == Some(results[b])
      invariant forall b :: 0 <= b < a && queries[b].result.Some? ==> b in results
    {
      if queries[a].result.Some? {
        results := results[a := queries[a].result.value];
      }
    }
  }

  method Rounds(c: Config, addresses: nat, totalTimeout: real, s: Schedule, ghost late: nat)
    returns (queries: seq<Query>, rounds: nat)
    requires c.Valid() && s.now(late) - c.start > totalTimeout
    ensures 1 <= rounds <= late + 1 && |queries| == addresses && AreAt(c, s, rounds, queries)
    ensures Leaves(c, addresses, totalTimeout, s, rounds - 1)
    ensures forall k :: 0 <= k < rounds - 1 ==> !Leaves(c, addresses, totalTimeout, s, k)
  {
    queries := seq(addresses, a => Started(c));
    rounds := 0;
    while true
      invariant |queries| == addresses && rounds <= late && AreAt(c, s, rounds, queries)
      invariant forall k :: 0 <= k < rounds ==> !Leaves(c, addresses, totalTimeout, s, k)
      decreases late - rounds
    {
      var allDone;
      queries, allDone := DoRound(c, s, rounds, queries);
      assert Leaves(c, addresses, totalTimeout, s, rounds) <==> allDone || s.now(rounds) - c.start > totalTimeout;
      rounds := rounds + 1;
      if allDone || s.now(rounds - 1) - c.start > totalTimeout {
        break;
      }
    }
  }

  /** `get_data`. The loop is left in the first round in which all addresses are done or the total timeout has passed, and it
      is always left once the clock passes the total timeout (in round `late` at the latest). `sent` are the numbers of the
      requests sent to each address. */
  method GetData(c: Config, addresses: nat, totalTimeout: real, s: Schedule, ghost late: nat)
    returns (results: map<nat, Bytes>, sent: seq<seq<nat>>, rounds: nat)
    requires c.Valid() && s.now(late) - c.start > totalTimeout
    ensures 1 <= rounds <= late + 1
    ensures Leaves(c, addresses, totalTimeout, s, rounds - 1)
    ensures forall k :: 0 <= k < rounds - 1 ==> !Leaves(c, addresses, totalTimeout, s, k)
    ensures |sent| == addresses
    ensures forall a :: 0 <= a < addresses ==> sent[a] == Numbers(QueryAt(c, s, a, rounds).counter + 1)
    ensures forall a :: a in results ==> a < addresses
    ensures forall a :: 0 <= a < addresses ==>
      Recorded(c, Payloads(Turns(s, a, rounds)), if a in results then Some(results[a]) else None)
  {
    var queries;
    queries, rounds := Rounds(c, addresses, totalTimeout, s, late);
    results := Collect(queries);
    sent := seq(addresses, a requires 0 <= a < |queries| => queries[a].sent);
    forall a | 0 <= a < addresses
      ensures sent[a] == Numbers(QueryAt(c, s, a, rounds).counter + 1)
    {
      RequestsAreSentInOrder(c, Turns(s, a, rounds));
    }
    forall a | 0 <= a < addresses
      ensures Recorded(c, Payloads(Turns(s, a, rounds)), if a in results then Some(results[a]) else None)
    {
      ResultIsLastCompletion(c, Turns(s, a, rounds));
      assert queries[a].result == if a in results then Some(results[a]) else None;
    }
  }
}
