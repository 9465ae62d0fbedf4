/** Log events of the replay tool: their order, the load of one log, and the merge of several logs
    (tools/replay/logreader.h, tools/replay/logreader.cc, the event part of tools/replay/replay.cc). */
module ReplayEvents {

  /** One entry of a log. `data` is the block of log memory the entry points to and `owner` the segment
      object which owns that memory. `eidxSegnum` is -1 for a message and a segment number for a video frame. */
  datatype Event = Event(which: nat, monoTime: nat, data: nat, eidxSegnum: int, owner: nat)

  /** The order `operator<` of the source: time first, then the kind of event. */
  predicate Less(a: Event, b: Event) {
    a.monoTime < b.monoTime || (a.monoTime == b.monoTime && a.which < b.which)
  }

  ghost predicate Sorted(s: seq<Event>) {
    forall i, j :: 0 <= i < j < |s| ==> !Less(s[j], s[i])
  }

  // ---------------------------------------------------------------------------------------------
  // Loading one log

  /** Which of the three camera index kinds an event is, if any. */
  datatype EncodeIdx = NoIdx | Idx(fullHevc: bool, sof: nat, segmentNum: int)

  /** One message of a raw log. */
  datatype Packet = Packet(which: nat, monoTime: nat, data: nat, idx: EncodeIdx)

  predicate Kept(filters: seq<bool>, which: nat) {
    filters == [] || (which < |filters| && filters[which])
  }

  /** The entries one packet contributes: the message itself and, for a full HEVC index, a second entry
      which stands for the video frame and carries the frame's own timestamp when it has one. */
  function Entries(p: Packet, owner: nat): seq<Event> {
    [Event(p.which, p.monoTime, p.data, -1, owner)] +
    if p.idx.Idx? && p.idx.fullHevc
    then [Event(p.which, if p.idx.sof != 0 then p.idx.sof else p.monoTime, p.data, p.idx.segmentNum, owner)]
    else []
  }

  function Unsorted(packets: seq<Packet>, filters: seq<bool>, owner: nat): seq<Event> {
    if packets == [] then []
    else
      var last := packets[|packets| - 1];
      Unsorted(packets[..|packets| - 1], filters, owner) + if Kept(filters, last.which) then Entries(last, owner) else []
  }

  /** Stands for `std::sort`: what is used of it is that the result is sorted and a permutation. */
  function Sort(s: seq<Event>): (r: seq<Event>)
    ensures Sorted(r) && multiset(r) == multiset(s)
  {
    if s == [] then []
    else
      var n := |s| - 1;
      assert s == s[..n] + [s[n]];
      MergeKeepsAll(Sort(s[..n]), [s[n]]);
      MergeIsSorted(Sort(s[..n]), [s[n]]);
      Merge(Sort(s[..n]), [s[n]])
  }

  predicate Passes(filters: seq<bool>, p: Packet) {
    filters != [] ==> p.which < |filters| && filters[p.which]
  }

  /** `e` is the message of a packet that passes the filters. */
  predicate IsMessageOf(e: Event, p: Packet, filters: seq<bool>, owner: nat) {
    && Passes(filters, p)
    && e.which == p.which && e.monoTime == p.monoTime && e.data == p.data && e.owner == owner && e.eidxSegnum == -1
  }

  /** `e` is the video frame of a packet that passes the filters and is a full index: at the time of the frame, or of the
      message if the frame has none. */
  predicate IsFrameOf(e: Event, p: Packet, filters: seq<bool>, owner: nat) {
    && Passes(filters, p) && p.idx.Idx? && p.idx.fullHevc
    && e.which == p.which && e.data == p.data && e.owner == owner && e.eidxSegnum == p.idx.segmentNum
    && (p.idx.sof != 0 ==> e.monoTime == p.idx.sof) && (p.idx.sof == 0 ==> e.monoTime == p.monoTime)
  }

  ghost function Places(packets: seq<Packet>, of: Packet -> bool): set<nat> {
    set k: nat | k < |packets| && of(packets[k])
  }

  lemma NextPlace(packets: seq<Packet>, of: Packet -> bool)
    requires packets != []
    ensures |Places(packets, of)|
         == |Places(packets[..|packets| - 1], of)| + (if of(packets[|packets| - 1]) then 1 else 0)
  {
    var n := |packets| - 1;
    var before := Places(packets[..n], of);
    assert Places(packets, of) == before + if of(packets[n]) then {n} else {};
  }

  /** The entries that come out, by packets: each event as often as it is the message or the frame of a packet. */
  ghost predicate AreEntries(packets: seq<Packet>, filters: seq<bool>, owner: nat, events: multiset<Event>) {
    forall e :: events[e] == |Places(packets, p => IsMessageOf(e, p, filters, owner))|
                           + |Places(packets, p => IsFrameOf(e, p, filters, owner))|
  }

  lemma EntriesOf(p: Packet, filters: seq<bool>, owner: nat, e: Event)
    ensures multiset(if Kept(filters, p.which) then Entries(p, owner) else [])[e]
         == (if IsMessageOf(e, p, filters, owner) then 1 else 0) + (if IsFrameOf(e, p, filters, owner) then 1 else 0)
  {
  }

  lemma {:induction false} UnsortedCount(packets: seq<Packet>, filters: seq<bool>, owner: nat, e: Event,
                                         message: Packet -> bool, frame: Packet -> bool)
    requires forall p :: message(p) <==> IsMessageOf(e, p, filters, owner)
    requires forall p :: frame(p) <==> IsFrameOf(e, p, filters, owner)
    ensures multiset(Unsorted(packets, filters, owner))[e] == |Places(packets, message)| + |Places(packets, frame)|
  {
    if packets == [] {
      assert Places(packets, message) == {} && Places(packets, frame) == {};
    } else {
      var n := |packets| - 1;
      UnsortedCount(packets[..n], filters, owner, e, message, frame);
      EntriesOf(packets[n], filters, owner, e);
      NextPlace(packets, message);
      NextPlace(packets, frame);
    }
  }

  lemma UnsortedHasEntries(packets: seq<Packet>, filters: seq<bool>, owner: nat)
    ensures AreEntries(packets, filters, owner, multiset(Unsorted(packets, filters, owner)))
    ensures Unsorted(packets, filters, owner) != [] <==> exists k :: 0 <= k < |packets| && Passes(filters, packets[k])
  {
    forall e
      ensures multiset(Unsorted(packets, filters, owner))[e]
           == |Places(packets, p => IsMessageOf(e, p, filters, owner))| + |Places(packets, p => IsFrameOf(e, p, filters, owner))|
    {
      UnsortedCount(packets, filters, owner, e, p => IsMessageOf(e, p, filters, owner),
        p => IsFrameOf(e, p, filters, owner));
    }
    UnsortedIsEmpty(packets, filters, owner);
  }

  lemma {:induction false} UnsortedIsEmpty(packets: seq<Packet>, filters: seq<bool>, owner: nat)
    ensures Unsorted(packets, filters, owner) == [] <==> forall k :: 0 <= k < |packets| ==> !Passes(filters, packets[k])
  {
    if packets != [] {
      var n := |packets| - 1;
      UnsortedIsEmpty(packets[..n], filters, owner);
      assert forall k :: 0 <= k < n ==> packets[..n][k] == packets[k];
    }
  }

  lemma SortKeepsOwner(raw: seq<Event>, owner: nat)
    requires forall e :: e in raw ==> e.owner == owner
    ensures forall e :: e in Sort(raw) ==> e.owner == owner
  {
    forall e | e in Sort(raw)
      ensures e.owner == owner
    {
      assert e in multiset(raw);
    }
  }

  /** `LogReader::load`: reads packets until the input ends or the load is aborted (which is seen before
      packet `abortAt`), then sorts. */
  method Load(packets: seq<Packet>, filters: seq<bool>, owner: nat, abortAt: nat) returns (ok: bool, events: seq<Event>)
    ensures ok <==> abortAt > |packets| && exists k :: 0 <= k < |packets| && Passes(filters, packets[k])
    ensures ok ==> Sorted(events) && AreEntries(packets, filters, owner, multiset(events))
    ensures forall e :: e in events ==> e.owner == owner
  {
    events := [];
    var k := 0;
    while k < |packets| && k < abortAt
      invariant 0 <= k <= |packets|
      invariant k <= abortAt
      invariant events == Unsorted(packets[..k], filters, owner)
      invariant forall e :: e in events ==> e.owner == owner
    {
      var p := packets[k];
      assert packets[..k + 1][..k] == packets[..k];
      k := k + 1;
      if !Kept(filters, p.which) {
        continue;
      }
      events := events + [Event(p.which, p.monoTime, p.data, -1, owner)];
      if p.idx.Idx? && p.idx.fullHevc {
        events := events + [Event(p.which, if p.idx.sof != 0 then p.idx.sof else p.monoTime, p.data, p.idx.segmentNum, owner)];
      }
    }
    assert k == |packets| ==> packets[..k] == packets;
    UnsortedHasEntries(packets, filters, owner);
    if events != [] && abortAt > |packets| {
      SortKeepsOwner(events, owner);
      events := Sort(events);
      ok := true;
    } else {
      ok := false;
    }
  }

  // ---------------------------------------------------------------------------------------------
  // Merging logs

  /** The events of a log whose kind has a socket (`std::copy_if` in `mergeSegments`). */
  function WithSocket(log: seq<Event>, sockets: set<nat>): seq<Event> {
    if log == [] then []
    else (if log[0].which in sockets then [log[0]] else []) + WithSocket(log[1..], sockets)
  }

  /** `std::inplace_merge` of two sorted ranges: stable, the left range first on ties. */
  function Merge(a: seq<Event>, b: seq<Event>): seq<Event> {
    if a == [] then b
    else if b == [] then a
    else if Less(b[0], a[0]) then [b[0]] + Merge(a, b[1..])
    else [a[0]] + Merge(a[1..], b)
  }

  /** The loop of `mergeSegments` over the logs in ascending segment order. */
  function MergeAll(logs: seq<seq<Event>>, sockets: set<nat>): seq<Event> {
    if logs == [] then []
    else Merge(MergeAll(logs[..|logs| - 1], sockets), WithSocket(logs[|logs| - 1], sockets))
  }

  /** How often event `e` is to be replayed: its occurrences in all logs, if its kind has a socket. */
  function Occurrences(logs: seq<seq<Event>>, sockets: set<nat>, e: Event): nat {
    if logs == [] then 0
    else Occurrences(logs[..|logs| - 1], sockets, e) +
         if e.which in sockets then multiset(logs[|logs| - 1])[e] else 0
  }

  lemma HeadCounts(h: Event, rest: seq<Event>)
    ensures multiset([h] + rest) == multiset{h} + multiset(rest)
  {
  }

  lemma {:induction false} WithSocketCounts(log: seq<Event>, sockets: set<nat>, e: Event)
    ensures multiset(WithSocket(log, sockets))[e] == if e.which in sockets then multiset(log)[e] else 0
  {
    if log != [] {
      WithSocketCounts(log[1..], sockets, e);
      assert log == [log[0]] + log[1..];
      HeadCounts(log[0], log[1..]);
      HeadCounts(log[0], WithSocket(log[1..], sockets));
    }
  }

  lemma {:induction false} WithSocketProperties(log: seq<Event>, sockets: set<nat>)
    ensures forall e :: multiset(WithSocket(log, sockets))[e] == if e.which in sockets then multiset(log)[e] else 0
    ensures Sorted(log) ==> Sorted(WithSocket(log, sockets))
  {
    forall e
      ensures multiset(WithSocket(log, sockets))[e] == if e.which in sockets then multiset(log)[e] else 0
    {
      WithSocketCounts(log, sockets, e);
    }
    if log != [] {
      WithSocketProperties(log[1..], sockets);
      WithSocketStaysSorted(log, sockets, WithSocket(log[1..], sockets));
    }
  }

  lemma WithSocketStaysSorted(log: seq<Event>, sockets: set<nat>, rest: seq<Event>)
    requires log != [] && (Sorted(log[1..]) ==> Sorted(rest))
    requires forall e :: multiset(rest)[e] == if e.which in sockets then multiset(log[1..])[e] else 0
    ensures Sorted(log) ==> Sorted([log[0]] + rest) && Sorted(rest)
  {
    if Sorted(log) {
      forall k | 0 <= k < |rest|
        ensures !Less(rest[k], log[0])
      {
        assert multiset(rest)[rest[k]] > 0;
        assert rest[k] in log[1..];
      }
    }
  }

  lemma {:induction false} MergeKeepsAll(a: seq<Event>, b: seq<Event>)
    ensures multiset(Merge(a, b)) == multiset(a) + multiset(b)
    decreases |a| + |b|
  {
    if a != [] && b != [] {
      if Less(b[0], a[0]) {
        MergeKeepsAll(a, b[1..]);
        HeadCounts(b[0], Merge(a, b[1..]));
        HeadCounts(b[0], b[1..]);
        assert b == [b[0]] + b[1..];
      } else {
        MergeKeepsAll(a[1..], b);
        HeadCounts(a[0], Merge(a[1..], b));
        HeadCounts(a[0], a[1..]);
        assert a == [a[0]] + a[1..];
      }
    }
  }

  lemma {:induction false} MergeIsSorted(a: seq<Event>, b: seq<Event>)
    requires Sorted(a) && Sorted(b)
    ensures Sorted(Merge(a, b))
    decreases |a| + |b|
  {
    if a != [] && b != [] {
      if Less(b[0], a[0]) {
        MergeIsSorted(a, b[1..]);
        MergeKeepsAll(a, b[1..]);
        HeadIsLeast(b[0], Merge(a, b[1..]), a, b[1..]);
      } else {
        MergeIsSorted(a[1..], b);
        MergeKeepsAll(a[1..], b);
        HeadIsLeast(a[0], Merge(a[1..], b), a[1..], b);
      }
    }
  }

  lemma HeadIsLeast(h: Event, rest: seq<Event>, a: seq<Event>, b: seq<Event>)
    requires multiset(rest) == multiset(a) + multiset(b) && Sorted(rest)
    requires forall i :: 0 <= i < |a| ==> !Less(a[i], h)
    requires forall i :: 0 <= i < |b| ==> !Less(b[i], h)
    ensures Sorted([h] + rest)
  {
    forall k | 0 <= k < |rest|
      ensures !Less(rest[k], h)
    {
      assert rest[k] in multiset(rest);
      assert rest[k] in a || rest[k] in b;
    }
  }

  /** After a merge the events are sorted, and each event occurs exactly as often as in the merged logs
      if its kind has a socket, and not at all otherwise. */
  lemma {:induction false} MergeAllIsExact(logs: seq<seq<Event>>, sockets: set<nat>)
    requires forall i :: 0 <= i < |logs| ==> Sorted(logs[i])
    ensures Sorted(MergeAll(logs, sockets))
    ensures forall e :: multiset(MergeAll(logs, sockets))[e] == Occurrences(logs, sockets, e)
  {
    if logs != [] {
      var n := |logs| - 1;
      MergeAllIsExact(logs[..n], sockets);
      WithSocketProperties(logs[n], sockets);
      MergeKeepsAll(MergeAll(logs[..n], sockets), WithSocket(logs[n], sockets));
      MergeIsSorted(MergeAll(logs[..n], sockets), WithSocket(logs[n], sockets));
    }
  }

  /** The events of a sequence with one time and one kind, in order. */
  function At(s: seq<Event>, monoTime: nat, which: nat): seq<Event> {
    if s == [] then []
    else if s[0].monoTime == monoTime && s[0].which == which then [s[0]] + At(s[1..], monoTime, which)
    else At(s[1..], monoTime, which)
  }

  function AtAll(logs: seq<seq<Event>>, monoTime: nat, which: nat): seq<Event> {
    if logs == [] then []
    else AtAll(logs[..|logs| - 1], monoTime, which) + At(logs[|logs| - 1], monoTime, which)
  }

  lemma {:induction false} AtNone(s: seq<Event>, monoTime: nat, which: nat)
    requires forall i :: 0 <= i < |s| ==> s[i].monoTime != monoTime || s[i].which != which
    ensures At(s, monoTime, which) == []
  {
    if s != [] {
      AtNone(s[1..], monoTime, which);
    }
  }

  lemma AtHead(h: Event, rest: seq<Event>, monoTime: nat, which: nat)
    ensures At([h] + rest, monoTime, which) ==
            (if h.monoTime == monoTime && h.which == which then [h] else []) + At(rest, monoTime, which)
  {
    assert ([h] + rest)[1..] == rest;
  }

  lemma {:induction false} MergeIsStable(a: seq<Event>, b: seq<Event>, monoTime: nat, which: nat)
    requires Sorted(a) && Sorted(b)
    ensures At(Merge(a, b), monoTime, which) == At(a, monoTime, which) + At(b, monoTime, which)
    decreases |a| + |b|
  {
    if a != [] && b != [] {
      if Less(b[0], a[0]) {
        MergeIsStable(a, b[1..], monoTime, which);
        AtHead(b[0], Merge(a, b[1..]), monoTime, which);
        if b[0].monoTime == monoTime && b[0].which == which {
          forall i | 0 <= i < |a|
            ensures a[i].monoTime != monoTime || a[i].which != which
          {
            assert i > 0 ==> !Less(a[i], a[0]);
          }
          AtNone(a, monoTime, which);
        }
      } else {
        MergeIsStable(a[1..], b, monoTime, which);
        AtHead(a[0], Merge(a[1..], b), monoTime, which);
      }
    }
  }

  lemma {:induction false} AtWithSocket(log: seq<Event>, sockets: set<nat>, monoTime: nat, which: nat)
    ensures At(WithSocket(log, sockets), monoTime, which) == if which in sockets then At(log, monoTime, which) else []
  {
    if log != [] {
      AtWithSocket(log[1..], sockets, monoTime, which);
      assert log[0].which in sockets ==> WithSocket(log, sockets)[1..] == WithSocket(log[1..], sockets);
      assert log[0].which !in sockets ==> WithSocket(log, sockets) == WithSocket(log[1..], sockets);
    }
  }

  /** Events which tie in time and kind come out in the order of their segments and, inside a segment, in the order of
      its log. Together with sortedness this leaves only one possible result of the merge. */
  lemma {:induction false} MergeAllIsStable(logs: seq<seq<Event>>, sockets: set<nat>, monoTime: nat, which: nat)
    requires forall i :: 0 <= i < |logs| ==> Sorted(logs[i])
    requires which in sockets
    ensures At(MergeAll(logs, sockets), monoTime, which) == AtAll(logs, monoTime, which)
  {
    if logs != [] {
      var n := |logs| - 1;
      MergeAllIsStable(logs[..n], sockets, monoTime, which);
      MergeAllIsExact(logs[..n], sockets);
      WithSocketProperties(logs[n], sockets);
      AtWithSocket(logs[n], sockets, monoTime, which);
      MergeIsStable(MergeAll(logs[..n], sockets), WithSocket(logs[n], sockets), monoTime, which);
    }
  }

  lemma {:induction false} OccurrencesPositive(logs: seq<seq<Event>>, sockets: set<nat>, e: Event)
    ensures Occurrences(logs, sockets, e) > 0 <==> e.which in sockets && exists i :: 0 <= i < |logs| && e in logs[i]
  {
    if logs != [] {
      var n := |logs| - 1;
      OccurrencesPositive(logs[..n], sockets, e);
      if exists i :: 0 <= i < |logs[..n]| && e in logs[..n][i] {
        var i :| 0 <= i < n && e in logs[..n][i];
        assert e in logs[i];
      }
      if e.which in sockets && exists i :: 0 <= i < |logs| && e in logs[i] {
        var i :| 0 <= i < |logs| && e in logs[i];
        assert i < n ==> e in logs[..n][i];
      }
    }
  }

  /** The merge loop of `mergeSegments`. */
  method MergeSegments(logs: seq<seq<Event>>, sockets: set<nat>) returns (events: seq<Event>)
    requires forall i :: 0 <= i < |logs| ==> Sorted(logs[i])
    ensures events == MergeAll(logs, sockets)
    ensures Sorted(events)
    ensures forall e :: multiset(events)[e] == Occurrences(logs, sockets, e)
  {
    events := [];
    for n := 0 to |logs|
      invariant events == MergeAll(logs[..n], sockets)
    {
      var withSocket := [];
      var log := logs[n];
      for i := 0 to |log|
        invariant withSocket + WithSocket(log[i..], sockets) == WithSocket(log, sockets)
      {
        assert log[i..][1..] == log[i + 1..];
        if log[i].which in sockets {
          withSocket := withSocket + [log[i]];
        }
      }
      assert log[|log|..] == [] && withSocket == WithSocket(log, sockets);
      assert logs[..n + 1][..n] == logs[..n] && logs[..n + 1][n] == log;
      events := Merge(events, withSocket);
    }
    assert logs[..|logs|] == logs;
    MergeAllIsExact(logs, sockets);
  }

  /** `std::upper_bound` on the events: the first index whose event is greater than the given position. */
  function UpperBound(events: seq<Event>, which: nat, monoTime: nat): (i: nat)
    ensures i <= |events|
    ensures i < |events| ==> Less(Event(which, monoTime, 0, -1, 0), events[i])
    ensures forall k :: 0 <= k < i ==> !Less(Event(which, monoTime, 0, -1, 0), events[k])
  {
    UpperBoundFrom(events, which, monoTime, 0)
  }

  function UpperBoundFrom(events: seq<Event>, which: nat, monoTime: nat, from: nat): (i: nat)
    requires from <= |events|
    ensures from <= i <= |events|
    ensures i < |events| ==> Less(Event(which, monoTime, 0, -1, 0), events[i])
    ensures forall k :: from <= k < i ==> !Less(Event(which, monoTime, 0, -1, 0), events[k])
    decreases |events| - from
  {
    if from == |events| || Less(Event(which, monoTime, 0, -1, 0), events[from]) then from
    else UpperBoundFrom(events, which, monoTime, from + 1)
  }
}
