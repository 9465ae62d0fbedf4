/** The paged, filtered, newest-first view of a message's events (`HistoryLogModel`, tools/cabana/historylog.cc). */
module HistoryLog {

  datatype Event = Event(time: nat, data: seq<int>)

  type Filter = Event -> bool

  /** `batch_size` */
  const BATCH_SIZE := 50

  // ---------------------------------------------------------------------------------------------
  // The plain filtered list

  /** The events that pass the filter, oldest first. */
  function Matching(f: Filter, events: seq<Event>): (m: seq<Event>) {
    if events == [] then []
    else
      var n := |events| - 1;
      Matching(f, events[..n]) + if f(events[n]) then [events[n]] else []
  }

  /** Events come in the order of their times, which are not zero. */
  ghost predicate Ordered(events: seq<Event>) {
    && (forall i, j :: 0 <= i < j < |events| ==> events[i].time < events[j].time)
    && (forall i :: 0 <= i < |events| ==> events[i].time > 0)
  }

  /** The number of events of an ordered list before a time. */
  function Before(events: seq<Event>, time: nat): (b: nat)
    ensures b <= |events|
  {
    if events == [] then 0
    else if events[|events| - 1].time < time then |events|
    else Before(events[..|events| - 1], time)
  }

  lemma {:induction false} BeforeSplits(events: seq<Event>, time: nat, k: nat)
    requires Ordered(events) && k < |events|
    ensures k < Before(events, time) <==> events[k].time < time
  {
    var n := |events| - 1;
    if events[n].time >= time && k < n {
      BeforeSplits(events[..n], time, k);
    }
  }

  function Newest(s: seq<Event>): (r: seq<Event>) {
    if s == [] then [] else Newest(s[1..]) + [s[0]]
  }

  lemma {:induction false} NewestAt(s: seq<Event>, k: nat)
    requires k < |s|
    ensures |Newest(s)| == |s| && Newest(s)[k] == s[|s| - 1 - k]
  {
    if |s| > 1 { NewestAt(s[1..], if k < |s| - 1 then k else 0); }
  }

  lemma {:induction false} NewestLength(s: seq<Event>)
    ensures |Newest(s)| == |s|
  {
    if s != [] { NewestLength(s[1..]); }
  }

  /** The newest events come first. */
  lemma {:induction false} NewestAppend(s: seq<Event>, t: seq<Event>)
    ensures Newest(s + t) == Newest(t) + Newest(s)
  {
    if s == [] {
      assert s + t == t;
    } else {
      NewestAppend(s[1..], t);
      assert (s + t)[1..] == s[1..] + t;
    }
  }

  lemma {:induction false} MatchingAppend(f: Filter, s: seq<Event>, t: seq<Event>)
    ensures Matching(f, s + t) == Matching(f, s) + Matching(f, t)
  {
    if t == [] {
      assert s + t == s;
    } else {
      var n := |t| - 1;
      MatchingAppend(f, s, t[..n]);
      assert (s + t)[..|s| + n] == s + t[..n];
    }
  }

  /** Each match is an event, and matches stay in order. */
  lemma {:induction false} MatchIsEvent(f: Filter, events: seq<Event>, k: nat) returns (i: nat)
    requires k < |Matching(f, events)|
    ensures i < |events| && events[i] == Matching(f, events)[k] && f(events[i]) && |Matching(f, events[..i])| == k
  {
    var n := |events| - 1;
    if k < |Matching(f, events[..n])| {
      i := MatchIsEvent(f, events[..n], k);
      assert events[..n][..i] == events[..i];
    } else {
      i := n;
    }
  }

  lemma MatchesAreOrdered(f: Filter, events: seq<Event>)
    requires Ordered(events)
    ensures Ordered(Matching(f, events))
  {
    var m := Matching(f, events);
    forall j, k | 0 <= j < k < |m|
      ensures m[j].time < m[k].time
    {
      var a := MatchIsEvent(f, events, j);
      var b := MatchIsEvent(f, events, k);
      MatchingIsMonotone(f, events, b, a);
    }
    forall k | 0 <= k < |m|
      ensures m[k].time > 0
    {
      var a := MatchIsEvent(f, events, k);
    }
  }

  lemma MatchingIsMonotone(f: Filter, events: seq<Event>, i: nat, j: nat)
    requires i <= |events| && j <= |events|
    ensures i <= j ==> |Matching(f, events[..i])| <= |Matching(f, events[..j])|
    ensures |Matching(f, events[..i])| <= |Matching(f, events)|
  {
    if i <= j {
      MatchingAppend(f, events[..i], events[i..j]);
      assert events[..i] + events[i..j] == events[..j];
    }
    MatchingAppend(f, events[..i], events[i..]);
    assert events[..i] + events[i..] == events;
  }

  // ---------------------------------------------------------------------------------------------
  // Positions among the events and among the matches

  /** The number of matches among the first i events. */
  function Rank(f: Filter, events: seq<Event>, i: nat): nat
    requires i <= |events|
  {
    |Matching(f, events[..i])|
  }

  lemma RankNext(f: Filter, events: seq<Event>, i: nat)
    requires i < |events|
    ensures Rank(f, events, i) <= Rank(f, events, i + 1) <= |Matching(f, events)|
    ensures if f(events[i])
      then Rank(f, events, i + 1) == Rank(f, events, i) + 1 && Matching(f, events)[Rank(f, events, i)] == events[i]
      else Rank(f, events, i + 1) == Rank(f, events, i)
  {
    assert events[..i + 1][..i] == events[..i];
    MatchingAppend(f, events[..i + 1], events[i + 1..]);
    assert events[..i + 1] + events[i + 1..] == events;
  }

  /** The matches before a time are those among the events before that time. */
  lemma RankOfBefore(f: Filter, events: seq<Event>, time: nat)
    requires Ordered(events)
    ensures Rank(f, events, Before(events, time)) == Before(Matching(f, events), time)
  {
    var m := Matching(f, events);
    var u := Before(events, time);
    var b := Before(m, time);
    MatchesAreOrdered(f, events);
    MatchingIsMonotone(f, events, u, u);
    if b < Rank(f, events, u) {
      var i := MatchIsEvent(f, events, b);
      BeforeSplits(m, time, b);
      BeforeSplits(events, time, i);
      MatchingIsMonotone(f, events, u, i);
    } else if Rank(f, events, u) < b {
      var r := Rank(f, events, u);
      var i := MatchIsEvent(f, events, r);
      BeforeSplits(m, time, r);
      BeforeSplits(events, time, i);
      RankNext(f, events, i);
      MatchingIsMonotone(f, events, i + 1, u);
    }
  }

  /** Growing the events at their end grows the matches at their end. */
  lemma MatchesGrow(f: Filter, events: seq<Event>, more: seq<Event>)
    ensures Matching(f, events) <= Matching(f, events + more)
  {
    MatchingAppend(f, events, more);
  }

  // ---------------------------------------------------------------------------------------------
  // Fetching

  /** The part [lo, hi) of the matches that is shown. */
  datatype View = View(lo: nat, hi: nat)

  /** The first match that is fetched, when those before `from` and after `min` are asked for: a page if `min` is zero. */
  function FetchedFrom(m: seq<Event>, from: nat, min: nat): (lo: nat)
    ensures lo <= Before(m, from)
  {
    var b := Before(m, from);
    if min == 0 then (if b > BATCH_SIZE then b - BATCH_SIZE else 0)
    else if Before(m, min + 1) < b then Before(m, min + 1) else b
  }

  /** What `updateState` makes of a view. */
  function Updated(m: seq<Event>, v: View, now: nat, clear: bool): View {
    var b := Before(m, now);
    if clear || v.lo == v.hi then View(FetchedFrom(m, now, 0), b)
    else View(v.lo, if b > v.hi then b else v.hi)
  }

  /** Of the matches before a time, the last 50, or all if there are fewer. */
  ghost predicate IsNewestPage(m: seq<Event>, now: nat, v: View) {
    && v.lo <= v.hi <= |m|
    && (forall k :: 0 <= k < |m| ==> (k < v.hi <==> m[k].time < now))
    && v.hi - v.lo == if v.hi < 50 then v.hi else 50
  }

  /** The matches of `v` and all newer ones before a time. */
  ghost predicate IsCaughtUp(m: seq<Event>, now: nat, v: View, v': View) {
    && v'.lo == v.lo && v'.hi <= |m|
    && forall k :: 0 <= k < |m| ==> (k < v'.hi <==> k < v.hi || m[k].time < now)
  }

  lemma NewestPage(m: seq<Event>, now: nat)
    requires Ordered(m)
    ensures IsNewestPage(m, now, View(FetchedFrom(m, now, 0), Before(m, now)))
  {
    forall k | 0 <= k < |m|
      ensures k < Before(m, now) <==> m[k].time < now
    {
      BeforeSplits(m, now, k);
    }
  }

  lemma CaughtUp(m: seq<Event>, now: nat, v: View)
    requires Ordered(m) && v.lo < v.hi <= |m|
    ensures IsCaughtUp(m, now, v, Updated(m, v, now, false))
  {
    forall k | 0 <= k < |m|
      ensures k < Updated(m, v, now, false).hi <==> k < v.hi || m[k].time < now
    {
      BeforeSplits(m, now, k);
    }
  }

  /** What `fetchData` is asked for: the matches before `from` and after `min`, or the last 50 before `from`. */
  lemma FetchedExactly(m: seq<Event>, from: nat, min: nat) returns (v: View)
    requires Ordered(m)
    ensures v == View(FetchedFrom(m, from, min), Before(m, from))
    ensures min == 0 ==> IsNewestPage(m, from, v)
    ensures v.lo <= v.hi <= |m|
    ensures min > 0 ==> forall k :: 0 <= k < |m| ==> (v.lo <= k < v.hi <==> min < m[k].time < from)
  {
    v := View(FetchedFrom(m, from, min), Before(m, from));
    NewestPage(m, from);
    forall k | 0 <= k < |m| && min > 0
      ensures v.lo <= k < v.hi <==> min < m[k].time < from
    {
      BeforeSplits(m, from, k);
      BeforeSplits(m, min + 1, k);
    }
  }

  /** What `fetchMore` makes of a view. */
  function Extended(v: View): View {
    if v.lo == v.hi then v
    else View(if v.lo > BATCH_SIZE then v.lo - BATCH_SIZE else 0, v.hi)
  }

  /** The rows of a view. */
  function Rows(m: seq<Event>, v: View): seq<Event>
    requires v.lo <= v.hi <= |m|
  {
    Newest(m[v.lo..v.hi])
  }

  lemma RowsEnds(m: seq<Event>, v: View)
    requires v.lo < v.hi <= |m|
    ensures |Rows(m, v)| == v.hi - v.lo
    ensures Rows(m, v)[0] == m[v.hi - 1] && Rows(m, v)[v.hi - v.lo - 1] == m[v.lo]
  {
    NewestAt(m[v.lo..v.hi], 0);
    NewestAt(m[v.lo..v.hi], v.hi - v.lo - 1);
  }

  lemma RowsJoin(m: seq<Event>, lo: nat, mid: nat, hi: nat)
    requires lo <= mid <= hi <= |m|
    ensures Rows(m, View(lo, hi)) == Rows(m, View(mid, hi)) + Rows(m, View(lo, mid))
  {
    NewestAppend(m[lo..mid], m[mid..hi]);
    assert m[lo..mid] + m[mid..hi] == m[lo..hi];
  }

  lemma RowsOlder(m: seq<Event>, lo: nat, hi: nat)
    requires 0 < lo <= hi <= |m|
    ensures Rows(m, View(lo - 1, hi)) == Rows(m, View(lo, hi)) + [m[lo - 1]]
  {
    RowsJoin(m, lo - 1, lo, hi);
    assert m[lo - 1..lo] == [m[lo - 1]];
    assert Newest([m[lo - 1]]) == [m[lo - 1]];
  }

  /** Asking for what is after (or before) a match is asking from that match on. */
  lemma BeforeMatch(m: seq<Event>, k: nat)
    requires Ordered(m) && k < |m|
    ensures Before(m, m[k].time) == k && Before(m, m[k].time + 1) == k + 1
  {
    BeforeSplits(m, m[k].time, k);
    BeforeSplits(m, m[k].time + 1, k);
    if k > 0 { BeforeSplits(m, m[k].time, k - 1); }
    if k + 1 < |m| { BeforeSplits(m, m[k].time + 1, k + 1); }
  }

  method UpperBound(events: seq<Event>, from: nat) returns (i: nat)
    requires Ordered(events)
    ensures i == Before(events, from)
  {
    i := |events|;
    assert events[..i] == events;
    while i > 0 && !(from > events[i - 1].time)
      invariant i <= |events|
      invariant Before(events, from) == Before(events[..i], from)
    {
      assert events[..i][..i - 1] == events[..i - 1];
      i := i - 1;
    }
  }

  /** Where the loop of `fetchData` ends when it is not broken off. */
  lemma LoopEnd(f: Filter, events: seq<Event>, from: nat, min: nat, i: nat)
    requires Ordered(events) && i <= Before(events, from)
    requires i == 0 || events[i - 1].time <= min
    requires i < Before(events, from) ==> events[i].time > min
    requires min == 0 ==> Before(Matching(f, events), from) - Rank(f, events, i) < BATCH_SIZE
    ensures Rank(f, events, i) == FetchedFrom(Matching(f, events), from, min)
  {
    RankOfBefore(f, events, from);
    MatchingIsMonotone(f, events, i, Before(events, from));
    if min > 0 {
      RankOfBefore(f, events, min + 1);
      CutAt(events, min, i, Before(events, from));
      MatchingIsMonotone(f, events, i, Before(events, min + 1));
    } else {
      assert i == 0;
    }
  }

  lemma CutAt(events: seq<Event>, min: nat, i: nat, u: nat)
    requires Ordered(events) && i <= u <= |events|
    requires i == 0 || events[i - 1].time <= min
    requires i < u ==> events[i].time > min
    ensures i <= Before(events, min + 1) && (i < u ==> i == Before(events, min + 1))
  {
    if i > 0 { BeforeSplits(events, min + 1, i - 1); }
    if i < u { BeforeSplits(events, min + 1, i); }
  }

  /** One step of the loop of `fetchData`. */
  lemma LoopStep(f: Filter, events: seq<Event>, i: nat, b: nat)
    requires i < |events| && Rank(f, events, i + 1) <= b <= |Matching(f, events)|
    ensures var m := Matching(f, events);
      var (r, r') := (Rank(f, events, i + 1), Rank(f, events, i));
      && r' <= b && r' == (if f(events[i]) then r - 1 else r)
      && Rows(m, View(r', b)) == Rows(m, View(r, b)) + (if f(events[i]) then [events[i]] else [])
  {
    RankNext(f, events, i);
    if f(events[i]) {
      RowsOlder(Matching(f, events), Rank(f, events, i + 1), b);
    }
  }

  /** `fetchData`: the matches before `from` and after `min`, newest first; at most a page of them if `min` is zero. */
  method FetchData(f: Filter, events: seq<Event>, from: nat, min: nat) returns (msgs: seq<Event>)
    requires Ordered(events)
    ensures var m := Matching(f, events);
      Before(m, from) <= |m| && msgs == Rows(m, View(FetchedFrom(m, from, min), Before(m, from)))
  {
    ghost var m := Matching(f, events);
    ghost var b := Before(m, from);
    var first := UpperBound(events, from);
    var i := first;
    RankOfBefore(f, events, from);
    msgs := [];
    while i > 0 && events[i - 1].time > min
      invariant 0 <= i <= first && Rank(f, events, i) <= b
      invariant msgs == Rows(m, View(Rank(f, events, i), b)) && |msgs| == b - Rank(f, events, i)
      invariant i < first ==> events[i].time > min
      invariant min == 0 ==> |msgs| < BATCH_SIZE
    {
      i := i - 1;
      LoopStep(f, events, i, b);
      if f(events[i]) {
        msgs := msgs + [events[i]];
        if |msgs| >= BATCH_SIZE && min == 0 {
          return;
        }
      }
    }
    LoopEnd(f, events, from, min, i);
  }

  // ---------------------------------------------------------------------------------------------
  // The model

  class HistoryLogModel {
    var messages: seq<Event>
    var filter: Filter
    // which matches are shown
    ghost var view: View

    /** What is shown is a part of the filtered list without a gap, newest first. */
    ghost predicate Valid(events: seq<Event>)
      reads this
    {
      && Ordered(events)
      && view.lo <= view.hi <= |Matching(filter, events)|
      && messages == Rows(Matching(filter, events), view)
    }

    constructor ()
      ensures Valid([])
    {
      messages, filter, view := [], e => true, View(0, 0);
    }

    /** `updateState`; `now` is the time of the last event plus one. */
    method UpdateState(events: seq<Event>, now: nat, clear: bool)
      requires Valid(events)
      modifies this
      ensures Valid(events) && filter == old(filter)
      ensures view == Updated(Matching(filter, events), old(view), now, clear)
      ensures if clear || old(messages) == [] then IsNewestPage(Matching(filter, events), now, view)
        else IsCaughtUp(Matching(filter, events), now, old(view), view)
    {
      ghost var m := Matching(filter, events);
      MatchesAreOrdered(filter, events);
      NewestLength(m[view.lo..view.hi]);
      if clear {
        messages := [];
      }
      if messages == [] {
        NewestPage(m, now);
        var msgs := FetchData(filter, events, now, 0);
        messages := msgs + messages;
      } else {
        CaughtUp(m, now, view);
        ghost var fetched, all := AddNewer(m, view, now);
        var msgs := FetchData(filter, events, now, messages[0].time);
        messages := msgs + messages;
      }
      view := Updated(m, view, now, clear);
    }

    /** `fetchMore` */
    method FetchMore(events: seq<Event>)
      requires Valid(events)
      modifies this
      ensures Valid(events) && filter == old(filter) && view == Extended(old(view))
      ensures old(messages) == [] ==> view == old(view)
      ensures view.hi == old(view.hi)
      ensures old(messages) != [] ==> view.lo == if old(view.lo) < 50 then 0 else old(view.lo) - 50
    {
      ghost var m := Matching(filter, events);
      MatchesAreOrdered(filter, events);
      NewestLength(m[view.lo..view.hi]);
      if messages != [] {
        ghost var fetched := AddOlder(m, view);
        var msgs := FetchData(filter, events, messages[|messages| - 1].time, 0);
        messages := messages + msgs;
      }
      view := Extended(view);
    }

    /** `canFetchMore`: there is an event older than the last row. */
    method CanFetchMore(events: seq<Event>) returns (more: bool)
      requires Valid(events)
      ensures more <==> view.lo < view.hi && events != [] && Matching(filter, events)[view.lo] != events[0]
      ensures view.lo < view.hi && !more ==> messages == Newest(Matching(filter, events)[..view.hi])
      ensures view.lo < view.hi ==> events != []
      ensures view.lo < view.hi ==> ((more <==> view.lo > 0) <==> view.lo > 0 || filter(events[0]))
    {
      ghost var m := Matching(filter, events);
      NewestLength(m[view.lo..view.hi]);
      more := events != [] && messages != [] && messages[|messages| - 1].time > events[0].time;
      if messages != [] {
        RowsEnds(m, view);
        FirstEvent(filter, events, view.lo);
        FirstMatch(filter, events);
      }
    }

    /** `setFilter` */
    method SetFilter(f: Filter, events: seq<Event>, now: nat)
      requires Ordered(events)
      modifies this
      ensures Valid(events) && filter == f
      ensures IsNewestPage(Matching(f, events), now, view)
    {
      filter := f;
      messages := [];
      view := View(0, 0);
      UpdateState(events, now, true);
    }
  }

  lemma FetchedAfter(m: seq<Event>, k: nat, now: nat)
    requires Ordered(m) && k < |m|
    ensures FetchedFrom(m, now, m[k].time) == if k + 1 < Before(m, now) then k + 1 else Before(m, now)
  {
    BeforeMatch(m, k);
  }

  lemma JoinNewer(m: seq<Event>, v: View, b: nat)
    requires v.lo < v.hi <= |m| && b <= |m|
    ensures Rows(m, View(v.lo, if b > v.hi then b else v.hi)) == Rows(m, View(if v.hi < b then v.hi else b, b)) + Rows(m, v)
  {
    if b > v.hi {
      RowsJoin(m, v.lo, v.hi, b);
    } else {
      assert m[b..b] == [];
    }
  }

  /** What is fetched for newer rows goes in front of those there are. */
  lemma AddNewer(m: seq<Event>, v: View, now: nat) returns (fetched: View, all: View)
    requires Ordered(m) && v.lo < v.hi <= |m|
    ensures fetched == View(FetchedFrom(m, now, Rows(m, v)[0].time), Before(m, now)) && fetched.hi <= |m|
    ensures all == Updated(m, v, now, false) && all.lo <= all.hi <= |m|
    ensures Rows(m, all) == Rows(m, fetched) + Rows(m, v)
  {
    RowsEnds(m, v);
    FetchedAfter(m, v.hi - 1, now);
    JoinNewer(m, v, Before(m, now));
    fetched := View(FetchedFrom(m, now, m[v.hi - 1].time), Before(m, now));
    all := Updated(m, v, now, false);
  }

  /** What is fetched for older rows goes behind those there are. */
  lemma AddOlder(m: seq<Event>, v: View) returns (fetched: View)
    requires Ordered(m) && v.lo < v.hi <= |m|
    ensures |Rows(m, v)| == v.hi - v.lo
    ensures var last := Rows(m, v)[v.hi - v.lo - 1].time;
      fetched == View(FetchedFrom(m, last, 0), Before(m, last)) && fetched.hi <= |m|
    ensures Rows(m, Extended(v)) == Rows(m, v) + Rows(m, fetched)
  {
    RowsEnds(m, v);
    BeforeMatch(m, v.lo);
    RowsJoin(m, Extended(v).lo, v.lo, v.hi);
    fetched := View(Extended(v).lo, v.lo);
  }

  lemma FirstEvent(f: Filter, events: seq<Event>, k: nat)
    requires Ordered(events) && k < |Matching(f, events)|
    ensures events != [] && events[0].time <= Matching(f, events)[k].time
    ensures Matching(f, events)[k] == events[0] <==> Matching(f, events)[k].time == events[0].time
    ensures Matching(f, events)[k] == events[0] ==> k == 0
  {
    var i := MatchIsEvent(f, events, k);
    if i > 0 {
      assert events[0].time < events[i].time;
    }
  }

  /** The first match is the first event exactly if that event passes the filter. */
  lemma FirstMatch(f: Filter, events: seq<Event>)
    requires Ordered(events) && Matching(f, events) != []
    ensures events != [] && (Matching(f, events)[0] == events[0] <==> f(events[0]))
  {
    var i := MatchIsEvent(f, events, 0);
    RankNext(f, events, 0);
  }

  /** `canFetchMore` promises older rows where there are none: the first event fails the filter, the second one is shown. */
  lemma MoreInVain() returns (f: Filter, events: seq<Event>, v: View)
    ensures Ordered(events) && v.lo == 0 < v.hi <= |Matching(f, events)|
    ensures Matching(f, events)[v.lo] != events[0]
  {
    f := (e: Event) => e.time == 2;
    events := [Event(1, []), Event(2, [])];
    v := View(0, 1);
    assert events[..1] == [Event(1, [])] && events[..1][..0] == [];
    assert Matching(f, events[..1]) == Matching(f, []) + [];
    assert Matching(f, events) == [Event(2, [])];
  }

  /** New events at the end of the list leave the view as it is. */
  lemma ViewSurvivesGrowth(log: HistoryLogModel, events: seq<Event>, more: seq<Event>)
    requires log.Valid(events) && Ordered(events + more)
    ensures log.Valid(events + more)
  {
    MatchesGrow(log.filter, events, more);
    var m, grown := Matching(log.filter, events), Matching(log.filter, events + more);
    assert grown[log.view.lo..log.view.hi] == m[log.view.lo..log.view.hi];
  }

  /** The view after n pages more. */
  function Paged(v: View, n: nat): View {
    if n == 0 then v else Extended(Paged(v, n - 1))
  }

  /** Each page adds the next older matches; after enough pages the whole filtered list up to the newest row is shown. */
  lemma {:induction false} PagesReachTheOldest(v: View, n: nat)
    requires v.lo < v.hi
    ensures Paged(v, n) == View(if v.lo > n * BATCH_SIZE then v.lo - n * BATCH_SIZE else 0, v.hi)
  {
    if n > 0 {
      PagesReachTheOldest(v, n - 1);
    }
  }

  lemma RowIsMatch(f: Filter, events: seq<Event>, v: View, k: nat)
    requires Ordered(events) && v.lo <= v.hi <= |Matching(f, events)| && k < v.hi - v.lo
    ensures var rows := Rows(Matching(f, events), v);
      |rows| == v.hi - v.lo && rows[k] in events && f(rows[k])
  {
    NewestAt(Matching(f, events)[v.lo..v.hi], k);
    var i := MatchIsEvent(f, events, v.hi - 1 - k);
  }

  lemma RowsAreBetween(m: seq<Event>, v: View, k: nat)
    requires Ordered(m) && v.lo <= v.hi <= |m| && k < v.hi - v.lo
    ensures var rows := Rows(m, v);
      |rows| == v.hi - v.lo && rows[|rows| - 1].time <= rows[k].time <= rows[0].time
  {
    RowsEnds(m, v);
    NewestAt(m[v.lo..v.hi], k);
    assert m[v.lo].time <= m[v.hi - 1 - k].time <= m[v.hi - 1].time;
  }

  lemma MatchIsRow(f: Filter, events: seq<Event>, v: View, i: nat) returns (k: nat)
    requires Ordered(events) && v.lo < v.hi <= |Matching(f, events)| && i < |events| && f(events[i])
    requires var m := Matching(f, events); m[v.lo].time <= events[i].time <= m[v.hi - 1].time
    ensures k < v.hi - v.lo == |Rows(Matching(f, events), v)| && Rows(Matching(f, events), v)[k] == events[i]
  {
    var m := Matching(f, events);
    MatchesAreOrdered(f, events);
    RankNext(f, events, i);
    var r := Rank(f, events, i);
    assert m[r] == events[i];
    k := v.hi - 1 - r;
    NewestAt(m[v.lo..v.hi], k);
  }

  /** Within a view the rows are exactly the matching events from its oldest to its newest row. */
  lemma RowsAreTheMatches(f: Filter, events: seq<Event>, v: View, e: Event)
    requires Ordered(events) && v.lo < v.hi <= |Matching(f, events)|
    ensures var rows := Rows(Matching(f, events), v);
      && |rows| == v.hi - v.lo
      && (e in rows <==> e in events && f(e) && rows[|rows| - 1].time <= e.time <= rows[0].time)
  {
    var rows := Rows(Matching(f, events), v);
    RowsEnds(Matching(f, events), v);
    if e in rows {
      var k :| 0 <= k < |rows| && rows[k] == e;
      MatchesAreOrdered(f, events);
      RowIsMatch(f, events, v, k);
      RowsAreBetween(Matching(f, events), v, k);
    } else if e in events && f(e) && rows[|rows| - 1].time <= e.time <= rows[0].time {
      var i :| 0 <= i < |events| && events[i] == e;
      var k := MatchIsRow(f, events, v, i);
      assert false;
    }
  }

  /** The rows come newest first, and none twice. */
  lemma RowsAreNewestFirst(f: Filter, events: seq<Event>, v: View, j: nat, k: nat)
    requires Ordered(events) && v.lo <= v.hi <= |Matching(f, events)| && j < k < v.hi - v.lo
    ensures var rows := Rows(Matching(f, events), v); k < |rows| && rows[k].time < rows[j].time
  {
    var m := Matching(f, events);
    MatchesAreOrdered(f, events);
    NewestAt(m[v.lo..v.hi], j);
    NewestAt(m[v.lo..v.hi], k);
  }
}
