/** The window of segments which the replay keeps in memory (`Replay::updateSegmentsCache`, tools/replay/replay.cc). */
module CacheWindow {

  ghost predicate Increasing(keys: seq<int>) {
    forall i, j :: 0 <= i < j < |keys| ==> keys[i] < keys[j]
  }

  ghost function Elements(keys: seq<int>): set<int> {
    set i | 0 <= i < |keys| :: keys[i]
  }

  /** `keys` is the iteration order of an ordered map with key set `s`. */
  ghost predicate IsOrderOf(keys: seq<int>, s: set<int>) {
    && Increasing(keys)
    && |keys| == |s|
    && forall x :: x in keys <==> x in s
  }

  lemma NonEmpty(s: set<int>)
    ensures s == {} || exists x :: x in s
  {
    if forall x :: x !in s {
      assert s == {};
    }
  }

  lemma {:induction false} LeastExists(s: set<int>, a: int) returns (m: int)
    requires a in s
    ensures m in s && forall x :: x in s ==> m <= x
    decreases |s|
  {
    if exists b :: b in s && b < a {
      var b :| b in s && b < a;
      m := LeastExists(s - {a}, b);
      assert forall x :: x in s ==> x == a || x in s - {a};
    } else {
      m := a;
    }
  }

  lemma {:induction false} OrderExists(s: set<int>) returns (keys: seq<int>)
    ensures IsOrderOf(keys, s)
  {
    if s == {} {
      keys := [];
    } else {
      NonEmpty(s);
      var a :| a in s;
      var m := LeastExists(s, a);
      var rest := OrderExists(s - {m});
      forall i | 0 <= i < |rest|
        ensures m < rest[i]
      {
        assert rest[i] in rest;
        assert rest[i] in s - {m};
      }
      keys := [m] + rest;
    }
  }

  /** The keys of an ordered map in iteration order. */
  ghost function Ordered(s: set<int>): (keys: seq<int>)
    ensures IsOrderOf(keys, s)
  {
    assert exists keys :: IsOrderOf(keys, s) by {
      var keys := OrderExists(s);
    }
    var keys :| IsOrderOf(keys, s);
    keys
  }

  /** `std::map::lower_bound`: the first key which is not less than `x`. */
  function LowerBound(keys: seq<int>, x: int): (i: nat)
    ensures i <= |keys|
    ensures forall k :: 0 <= k < i ==> keys[k] < x
    ensures i < |keys| ==> x <= keys[i]
  {
    if keys == [] || x <= keys[0] then 0 else 1 + LowerBound(keys[1..], x)
  }

  function Min(a: int, b: int): int { if a <= b then a else b }

  /** Positions [begin, end) of the window and the position `cur` of the current segment. */
  datatype Window = Window(begin: nat, cur: nat, end: nat)

  /** The window of lines 275-281 for `n` segments whose current one has position `cur`. */
  function WindowOf(n: nat, cur: nat, limit: nat): (w: Window)
    requires cur < n && limit > 0
    ensures w.cur == cur && w.begin <= cur < w.end <= n
    ensures w.end - w.begin == Min(limit, n)
  {
    var begin := cur - Min(limit / 2, cur);
    var end := begin + Min(limit, n - begin);
    Window(end - Min(limit, end), cur, end)
  }

  /** The window starts `limit / 2` segments before the current one unless it touches an end of the route, and then it
      touches that end because it cannot be placed any further. */
  lemma WindowIsCentred(n: nat, cur: nat, limit: nat)
    requires cur < n && limit > 0
    ensures var w := WindowOf(n, cur, limit);
      var wanted := cur - limit / 2;
      w.begin as int == if n <= limit || wanted < 0 then 0 else if wanted + limit > n then n - limit else wanted
  {
  }

  ghost function Inside(keys: seq<int>, w: Window): set<int>
    requires w.begin <= w.end <= |keys|
  {
    Elements(keys[w.begin..w.end])
  }

  lemma {:induction false} ElementsCount(keys: seq<int>)
    requires Increasing(keys)
    ensures |Elements(keys)| == |keys|
  {
    if keys == [] {
      assert Elements(keys) == {};
    } else {
      var n := |keys| - 1;
      ElementsCount(keys[..n]);
      assert Elements(keys) == Elements(keys[..n]) + {keys[n]} by {
        forall x | x in Elements(keys)
          ensures x in Elements(keys[..n]) + {keys[n]}
        {
          var i :| 0 <= i < |keys| && keys[i] == x;
          assert i < n ==> keys[..n][i] == x;
        }
        forall x | x in Elements(keys[..n]) + {keys[n]}
          ensures x in Elements(keys)
        {
          if x in Elements(keys[..n]) {
            var i :| 0 <= i < n && keys[..n][i] == x;
            assert keys[i] == x;
          }
        }
      }
      assert keys[n] !in Elements(keys[..n]);
    }
  }

  /** No key between two keys of a window is outside. */
  lemma WindowIsContiguous(keys: seq<int>, w: Window, a: int, b: int, x: int)
    requires Increasing(keys) && w.begin <= w.end <= |keys|
    requires a in Inside(keys, w) && b in Inside(keys, w) && x in keys && a <= x <= b
    ensures x in Inside(keys, w)
  {
    var slice := keys[w.begin..w.end];
    var i :| 0 <= i < |slice| && slice[i] == a;
    var j :| 0 <= j < |slice| && slice[j] == b;
    var k :| 0 <= k < |keys| && keys[k] == x;
    assert keys[w.begin + i] == a && keys[w.begin + j] == b;
    assert slice[k - w.begin] == x;
  }

  lemma InsideIsSubset(keys: seq<int>, w: Window, x: int)
    requires w.begin <= w.end <= |keys|
    requires x in Inside(keys, w)
    ensures x in keys
  {
    var slice := keys[w.begin..w.end];
    var i :| 0 <= i < |slice| && slice[i] == x;
    assert keys[w.begin + i] in keys;
  }

  lemma LowerBoundFinds(keys: seq<int>, target: int)
    requires Increasing(keys) && target in keys
    ensures LowerBound(keys, target) < |keys| && keys[LowerBound(keys, target)] == target
  {
    var k :| 0 <= k < |keys| && keys[k] == target;
    assert LowerBound(keys, target) <= k;
  }

  /** The window of a route holds exactly min(limit, n) of its segments, among them the current one, which is the
      wanted segment whenever the route has it. */
  lemma WindowHolds(s: set<int>, target: int, limit: nat, keys: seq<int>, cur: nat, w: Window)
    requires limit > 0 && IsOrderOf(keys, s)
    requires cur == LowerBound(keys, target) && cur < |keys|
    requires w == WindowOf(|keys|, cur, limit)
    ensures Inside(keys, w) <= s
    ensures |Inside(keys, w)| == Min(limit, |s|)
    ensures keys[cur] in Inside(keys, w)
    ensures target in s ==> keys[cur] == target
  {
    var slice := keys[w.begin..w.end];
    assert |Inside(keys, w)| == Min(limit, |s|) by {
      ElementsCount(slice);
    }
    assert keys[cur] in Inside(keys, w) by {
      assert slice[cur - w.begin] == keys[cur];
    }
    forall x | x in Inside(keys, w)
      ensures x in s
    {
      InsideIsSubset(keys, w, x);
    }
    if target in s {
      LowerBoundFinds(keys, target);
    }
  }
}
