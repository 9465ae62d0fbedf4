/** Frames of an HEVC stream, decoded one group of pictures at a time and kept in a bounded cache (`StreamGOPReader`,
    `GOPFrameReader`, tools/lib/framereader.py). */
module GopReader {
  import opened Helpers
  import ExpGolomb
  import HevcIndex

  type byte = ExpGolomb.byte

  const HEVC_SLICE_I: nat := 2
  const CACHE_SIZE := 64

  /** Slice type and byte offset of every frame, then an entry with the length of the stream. */
  type Index = seq<(nat, nat)>

  function FrameCount(index: Index): nat { if index == [] then 0 else |index| - 1 }

  /** What the constructor of `StreamGOPReader` insists on: the first frame is an I slice. */
  predicate StartsWithI(index: Index) { |index| >= 2 && index[0].0 == HEVC_SLICE_I }

  // ---------------------------------------------------------------------------------------------
  // Groups of pictures

  /** The last I slice at or before a frame. */
  function GopBegin(index: Index, num: nat): (b: nat)
    requires num < |index|
    ensures b <= num
  {
    if num == 0 || index[num].0 == HEVC_SLICE_I then num else GopBegin(index, num - 1)
  }

  /** The first I slice at or after a position, or the number of frames. */
  function GopEndFrom(index: Index, k: nat): (e: nat)
    requires k <= FrameCount(index)
    ensures k <= e <= FrameCount(index)
    decreases FrameCount(index) - k
  {
    if k == FrameCount(index) || index[k].0 == HEVC_SLICE_I then k else GopEndFrom(index, k + 1)
  }

  function GopEnd(index: Index, num: nat): (e: nat)
    requires num < FrameCount(index)
    ensures num < e <= FrameCount(index)
  {
    GopEndFrom(index, num + 1)
  }

  lemma {:induction false} GopBeginFacts(index: Index, num: nat)
    requires num < |index|
    ensures GopBegin(index, num) == 0 || index[GopBegin(index, num)].0 == HEVC_SLICE_I
    ensures forall k :: GopBegin(index, num) < k <= num ==> index[k].0 != HEVC_SLICE_I
  {
    if num > 0 && index[num].0 != HEVC_SLICE_I {
      GopBeginFacts(index, num - 1);
    }
  }

  lemma {:induction false} GopEndFacts(index: Index, k: nat)
    requires k <= FrameCount(index)
    ensures GopEndFrom(index, k) == FrameCount(index) || index[GopEndFrom(index, k)].0 == HEVC_SLICE_I
    ensures forall j :: k <= j < GopEndFrom(index, k) ==> index[j].0 != HEVC_SLICE_I
    decreases FrameCount(index) - k
  {
    if k < FrameCount(index) && index[k].0 != HEVC_SLICE_I {
      GopEndFacts(index, k + 1);
    }
  }

  /** Groups of pictures partition the frames: all frames of a group have the same group. */
  lemma SameGop(index: Index, num: nat, k: nat)
    requires num < FrameCount(index) && GopBegin(index, num) <= k < GopEnd(index, num)
    ensures GopBegin(index, k) == GopBegin(index, num) && GopEnd(index, k) == GopEnd(index, num)
  {
    GopBeginFacts(index, num);
    GopBeginFacts(index, k);
    GopEndFacts(index, num + 1);
    GopEndFacts(index, k + 1);
    var b, e := GopBegin(index, num), GopEnd(index, num);
    var b', e' := GopBegin(index, k), GopEnd(index, k);
    assert b' >= b && b' <= b;
    assert e' >= e && e' <= e;
  }

  /** A group that does not end the stream is followed by one that begins where it ends. */
  lemma NextGop(index: Index, num: nat)
    requires num < FrameCount(index) && GopEnd(index, num) < FrameCount(index)
    ensures GopBegin(index, GopEnd(index, num)) == GopEnd(index, num)
  {
    GopEndFacts(index, num + 1);
  }

  /** Offsets are increasing and end inside the stream. */
  ghost predicate Ordered(index: Index, stream: seq<byte>) {
    && (forall i, j :: 0 <= i < j < |index| ==> index[i].1 <= index[j].1)
    && (index != [] ==> index[|index| - 1].1 <= |stream|)
  }

  function Bytes(stream: seq<byte>, a: nat, b: nat): seq<byte> {
    if a <= b <= |stream| then stream[a..b] else []
  }

  /** The bytes of the groups from a group's beginning on, put together. */
  function GopBytesFrom(index: Index, stream: seq<byte>, b: nat): seq<byte>
    requires b <= FrameCount(index)
    decreases FrameCount(index) - b
  {
    if b == FrameCount(index) then []
    else
      var e := GopEnd(index, b);
      Bytes(stream, index[b].1, index[e].1) + GopBytesFrom(index, stream, e)
  }

  /** Groups of pictures tile the bytes of the stream, from the first frame to the end. */
  lemma {:induction false} GopsTile(index: Index, stream: seq<byte>, b: nat)
    requires index != [] && b <= FrameCount(index) && Ordered(index, stream)
    ensures GopBytesFrom(index, stream, b) == stream[index[b].1..index[|index| - 1].1]
    decreases FrameCount(index) - b
  {
    if b < FrameCount(index) {
      var e := GopEnd(index, b);
      var x, y, z := index[b].1, index[e].1, index[|index| - 1].1;
      assert x <= y <= z <= |stream|;
      GopsTile(index, stream, e);
      assert stream[x..z] == stream[x..y] + stream[y..z];
    }
  }

  /** The frames [b, e) are the group of pictures around a frame: an I slice at the beginning (or the first frame of all), none
      behind it, and another one, or the end, behind the group. */
  ghost predicate IsGop(index: Index, num: nat, b: nat, e: nat) {
    && b <= num < e <= FrameCount(index)
    && (b == 0 || index[b].0 == HEVC_SLICE_I) && (e == FrameCount(index) || index[e].0 == HEVC_SLICE_I)
    && forall k :: b < k < e ==> index[k].0 != HEVC_SLICE_I
  }

  lemma GopIsGop(index: Index, num: nat)
    requires num < FrameCount(index)
    ensures IsGop(index, num, GopBegin(index, num), GopEnd(index, num))
  {
    GopBeginFacts(index, num);
    GopEndFacts(index, num + 1);
  }

  lemma GopIsUnique(index: Index, num: nat, b: nat, e: nat, b': nat, e': nat)
    requires IsGop(index, num, b, e) && IsGop(index, num, b', e')
    ensures b == b' && e == e'
  {
  }

  /** The prefix, and behind it the bytes of the stream from offset x to offset y. */
  ghost predicate IsPrefixed(prefix: seq<byte>, stream: seq<byte>, x: nat, y: nat, data: seq<byte>) {
    && x <= y <= |stream| && prefix <= data && |data| == |prefix| + (y - x)
    && forall k :: |prefix| <= k < |data| ==> data[k] == stream[x + (k - |prefix|)]
  }

  lemma OffsetsInside(index: Index, stream: seq<byte>, b: nat, e: nat)
    requires Ordered(index, stream) && b <= e <= FrameCount(index) && index != []
    ensures index[b].1 <= index[e].1 <= |stream|
  {
  }

  lemma BytesArePrefixed(prefix: seq<byte>, stream: seq<byte>, x: nat, y: nat)
    requires x <= y <= |stream|
    ensures IsPrefixed(prefix, stream, x, y, prefix + Bytes(stream, x, y))
  {
  }

  // ---------------------------------------------------------------------------------------------
  // The cache

  datatype Format = Nv12 | Yuv420p | Rgb24 | Yuv444p

  type Key = (nat, Format)

  /** Entries of an LRU cache, the most recently used first. */
  type Entries<F> = seq<(Key, F)>

  function Find<F>(entries: Entries<F>, key: Key): Option<F> {
    if entries == [] then None
    else if entries[0].0 == key then Some(entries[0].1)
    else Find(entries[1..], key)
  }

  function Without<F>(entries: Entries<F>, key: Key): (r: Entries<F>)
    ensures |r| <= |entries|
  {
    if entries == [] then []
    else if entries[0].0 == key then Without(entries[1..], key)
    else [entries[0]] + Without(entries[1..], key)
  }

  /** A read moves the entry to the front. */
  function Touch<F>(entries: Entries<F>, key: Key): Entries<F> {
    match Find(entries, key)
    case None => entries
    case Some(f) => [(key, f)] + Without(entries, key)
  }

  function AtMost<F>(entries: Entries<F>, n: nat): Entries<F> {
    if |entries| <= n then entries else entries[..n]
  }

  /** A write puts the entry to the front and drops what no longer fits. */
  function Put<F>(entries: Entries<F>, key: Key, f: F): Entries<F> {
    AtMost([(key, f)] + Without(entries, key), CACHE_SIZE)
  }

  lemma {:induction false} FindIsEntry<F>(entries: Entries<F>, key: Key)
    ensures Find(entries, key).Some? ==> (key, Find(entries, key).value) in entries
    ensures Find(entries, key).None? ==> forall e :: e in entries ==> e.0 != key
  {
    if entries != [] {
      FindIsEntry(entries[1..], key);
    }
  }

  lemma {:induction false} WithoutIsPart<F>(entries: Entries<F>, key: Key, e: (Key, F))
    ensures e in Without(entries, key) <==> e in entries && e.0 != key
  {
    if entries != [] {
      WithoutIsPart(entries[1..], key, e);
    }
  }

  lemma {:induction false} WithoutNothing<F>(entries: Entries<F>, key: Key)
    requires forall e :: e in entries ==> e.0 != key
    ensures Without(entries, key) == entries
  {
    if entries != [] {
      assert entries[0] in entries;
      WithoutNothing(entries[1..], key);
    }
  }

  lemma WithoutFirst<F>(e: (Key, F), rest: Entries<F>, key: Key)
    ensures Without([e] + rest, key) == (if e.0 == key then [] else [e]) + Without(rest, key)
  {
    assert ([e] + rest)[1..] == rest;
  }

  lemma {:induction false} WithoutSplit<F>(a: Entries<F>, b: Entries<F>, key: Key)
    ensures Without(a + b, key) == Without(a, key) + Without(b, key)
  {
    if a == [] {
      assert a + b == b;
    } else {
      WithoutSplit(a[1..], b, key);
      WithoutFirst(a[0], a[1..], key);
      WithoutFirst(a[0], a[1..] + b, key);
      assert a + b == [a[0]] + (a[1..] + b);
      assert a == [a[0]] + a[1..];
    }
  }

  // ---------------------------------------------------------------------------------------------
  // The frame reader

  /** The frame, or a read of a frame that was evicted while its group was inserted, or a group that decodes into the wrong
      number of frames, or arguments that are refused. */
  datatype Got<F> = Picture(frame: F) | KeyError | DecodeMismatch

  datatype GotAll<F> = Pictures(frames: seq<F>) | ValueError | Failed

  /** The bytes `get_gop` hands to the decoder. */
  function GopData(index: Index, stream: seq<byte>, prefix: seq<byte>, num: nat): seq<byte>
    requires num < FrameCount(index)
  {
    prefix + Bytes(stream, index[GopBegin(index, num)].1, index[GopEnd(index, num)].1)
  }

  /** A stream with a decoder: `decode` stands for the external decoder. */
  datatype Source<!F> = Source(index: Index, stream: seq<byte>, prefix: seq<byte>, decode: (seq<byte>, Format) -> seq<F>)

  function Decoded<F>(src: Source<F>, num: nat, fmt: Format): seq<F>
    requires num < FrameCount(src.index)
  {
    src.decode(GopData(src.index, src.stream, src.prefix, num), fmt)
  }

  predicate DecodesExactly<F>(src: Source<F>, num: nat, fmt: Format)
    requires num < FrameCount(src.index)
  {
    |Decoded(src, num, fmt)| == GopEnd(src.index, num) - GopBegin(src.index, num)
  }

  /** The frame as its group decodes. */
  function TrueFrame<F>(src: Source<F>, num: nat, fmt: Format): F
    requires num < FrameCount(src.index) && DecodesExactly(src, num, fmt)
  {
    Decoded(src, num, fmt)[num - GopBegin(src.index, num)]
  }

  /** At most `CACHE_SIZE - 1` frames of the group come after the frame. */
  predicate NearEnd(index: Index, num: nat)
    requires num < FrameCount(index)
  {
    GopEnd(index, num) - num <= CACHE_SIZE
  }

  /** What a read of one frame yields. It does not depend on the cache. */
  function Expected<F>(src: Source<F>, num: nat, fmt: Format): Got<F> {
    if num >= FrameCount(src.index) then KeyError
    else if !DecodesExactly(src, num, fmt) then DecodeMismatch
    else if NearEnd(src.index, num) then Picture(TrueFrame(src, num, fmt))
    else KeyError
  }

  /** The outcome of a read, for each frame and format. */
  type Outcome<!F> = (nat, Format) -> Got<F>

  function Outcomes<F>(src: Source<F>): Outcome<F> {
    (num: nat, fmt: Format) => Expected(src, num, fmt)
  }

  ghost predicate GoodEntry<F>(want: Outcome<F>, e: (Key, F)) {
    want(e.0.0, e.0.1) == Picture(e.1)
  }

  ghost predicate CacheOk<F>(want: Outcome<F>, entries: Entries<F>) {
    |entries| <= CACHE_SIZE && forall e :: e in entries ==> GoodEntry(want, e)
  }

  /** The entries of the frames `b`, ..., `b + i - 1`, the latest first, as far as they fit. */
  function Inserted<F>(b: nat, fmt: Format, frames: seq<F>, i: nat): (r: Entries<F>)
    requires i <= |frames|
    ensures |r| == if i <= CACHE_SIZE then i else CACHE_SIZE
  {
    var n := if i <= CACHE_SIZE then i else CACHE_SIZE;
    seq(n, j requires 0 <= j < n => (((b + i - 1 - j, fmt), frames[i - 1 - j])))
  }

  /** The cache while a group is being inserted: the frames inserted so far, then some of what was there before. */
  ghost predicate Inserting<F>(before: Entries<F>, b: nat, fmt: Format, frames: seq<F>, i: nat, entries: Entries<F>) {
    && i <= |frames| && |entries| <= CACHE_SIZE
    && Inserted(b, fmt, frames, i) <= entries
    && forall e :: e in entries[|Inserted(b, fmt, frames, i)|..] ==> e in before
  }

  lemma InsertedGrows<F>(b: nat, fmt: Format, frames: seq<F>, i: nat)
    requires i < |frames|
    ensures Inserted(b, fmt, frames, i + 1) == AtMost([((b + i, fmt), frames[i])] + Inserted(b, fmt, frames, i), CACHE_SIZE)
    ensures forall e :: e in Inserted(b, fmt, frames, i) ==> e.0 != (b + i, fmt)
  {
  }

  lemma InsertOne<F>(before: Entries<F>, b: nat, fmt: Format, frames: seq<F>, i: nat, entries: Entries<F>)
    requires i < |frames| && Inserting(before, b, fmt, frames, i, entries)
    ensures Inserting(before, b, fmt, frames, i + 1, Put(entries, (b + i, fmt), frames[i]))
  {
    var front := Inserted(b, fmt, frames, i);
    var tail := entries[|front|..];
    var key := (b + i, fmt);
    InsertedGrows(b, fmt, frames, i);
    assert entries == front + tail;
    WithoutSplit(front, tail, key);
    WithoutNothing(front, key);
    forall x | x in Without(tail, key)
      ensures x in before
    {
      WithoutIsPart(tail, key, x);
    }
    PutBehind(before, front, Without(tail, key), (key, frames[i]));
  }

  lemma PutBehind<F>(before: Entries<F>, front: Entries<F>, kept: Entries<F>, e: (Key, F))
    requires forall x :: x in kept ==> x in before
    ensures var after := AtMost([e] + (front + kept), CACHE_SIZE);
      var front' := AtMost([e] + front, CACHE_SIZE);
      && |after| <= CACHE_SIZE && front' <= after && forall x :: x in after[|front'|..] ==> x in before
  {
    var after := AtMost([e] + (front + kept), CACHE_SIZE);
    var front' := AtMost([e] + front, CACHE_SIZE);
    forall x | x in after[|front'|..]
      ensures x in before
    {
      var k :| 0 <= k < |after| - |front'| && after[|front'|..][k] == x;
      assert after[|front'| + k] == kept[|front'| + k - 1 - |front|];
    }
  }

  lemma FindInFront<F>(b: nat, fmt: Format, frames: seq<F>, i: nat, entries: Entries<F>, num: nat)
    requires i <= |frames| && Inserted(b, fmt, frames, i) <= entries
    requires b <= num < b + i && b + i - num <= CACHE_SIZE
    ensures Find(entries, (num, fmt)) == Some(frames[num - b])
  {
    FindAt(entries, (num, fmt), b + i - 1 - num);
  }

  lemma {:induction false} FindAt<F>(entries: Entries<F>, key: Key, j: nat)
    requires j < |entries| && entries[j].0 == key
    requires forall k :: 0 <= k < j ==> entries[k].0 != key
    ensures Find(entries, key) == Some(entries[j].1)
  {
    if j > 0 {
      FindAt(entries[1..], key, j - 1);
    }
  }

  lemma SameDecoded<F>(src: Source<F>, num: nat, k: nat, fmt: Format)
    requires num < FrameCount(src.index) && GopBegin(src.index, num) <= k < GopEnd(src.index, num)
    ensures Decoded(src, k, fmt) == Decoded(src, num, fmt)
  {
    SameGop(src.index, num, k);
  }

  lemma InsertedAt<F>(b: nat, fmt: Format, frames: seq<F>, j: nat)
    requires j < |Inserted(b, fmt, frames, |frames|)|
    ensures j < |frames| && j < CACHE_SIZE
    ensures Inserted(b, fmt, frames, |frames|)[j] == (((b + |frames| - 1 - j) as nat, fmt), frames[|frames| - 1 - j])
  {
  }

  /** `frames` are the frames of the group [b, e), and reads should yield those among the last 64 of them. */
  ghost predicate IsGroup<F>(want: Outcome<F>, b: nat, e: nat, fmt: Format, frames: seq<F>) {
    && b < e && |frames| == e - b
    && forall k :: b <= k < e ==> want(k, fmt) == if e - k <= CACHE_SIZE then Picture(frames[k - b]) else KeyError
  }

  lemma DecodedIsGroup<F>(src: Source<F>, num: nat, fmt: Format)
    requires num < FrameCount(src.index) && DecodesExactly(src, num, fmt)
    ensures IsGroup(Outcomes(src), GopBegin(src.index, num), GopEnd(src.index, num), fmt, Decoded(src, num, fmt))
  {
    forall k | GopBegin(src.index, num) <= k < GopEnd(src.index, num)
      ensures Expected(src, k, fmt) == if GopEnd(src.index, num) - k <= CACHE_SIZE
                then Picture(Decoded(src, num, fmt)[k - GopBegin(src.index, num)]) else KeyError
    {
      SameGop(src.index, num, k);
      SameDecoded(src, num, k, fmt);
    }
  }

  lemma InsertedGroupIsGood<F>(want: Outcome<F>, b: nat, e: nat, fmt: Format, frames: seq<F>, before: Entries<F>,
                               entries: Entries<F>)
    requires IsGroup(want, b, e, fmt, frames) && CacheOk(want, before)
    requires Inserting(before, b, fmt, frames, |frames|, entries)
    ensures CacheOk(want, entries)
  {
    var front := Inserted(b, fmt, frames, |frames|);
    forall x | x in entries
      ensures GoodEntry(want, x)
    {
      var j :| 0 <= j < |entries| && entries[j] == x;
      if j < |front| {
        InsertedAt(b, fmt, frames, j);
      } else {
        assert entries[|front|..][j - |front|] == x;
      }
    }
  }

  /** What is found in a good cache is what a read should yield. */
  lemma FoundIsGood<F>(want: Outcome<F>, num: nat, fmt: Format, entries: Entries<F>)
    requires CacheOk(want, entries)
    ensures Find(entries, (num, fmt)).Some? ==> want(num, fmt) == Picture(Find(entries, (num, fmt)).value)
  {
    FindIsEntry(entries, (num, fmt));
    if Find(entries, (num, fmt)).Some? {
      assert GoodEntry(want, ((num, fmt), Find(entries, (num, fmt)).value));
    }
  }

  /** After a group is inserted, the cache is good again, and a frame of the group is found exactly if a read should
      yield it. */
  lemma InsertedGroup<F>(want: Outcome<F>, b: nat, e: nat, fmt: Format, frames: seq<F>, before: Entries<F>,
                         entries: Entries<F>, num: nat)
    requires IsGroup(want, b, e, fmt, frames) && CacheOk(want, before) && b <= num < e
    requires Inserting(before, b, fmt, frames, |frames|, entries)
    ensures CacheOk(want, entries)
    ensures want(num, fmt) == match Find(entries, (num, fmt)) case Some(f) => Picture(f) case None => KeyError
  {
    InsertedGroupIsGood(want, b, e, fmt, frames, before, entries);
    FoundIsGood(want, num, fmt, entries);
    if e - num <= CACHE_SIZE {
      FindInFront(b, fmt, frames, |frames|, entries, num);
    }
  }

  /** `StreamFrameReader` without readahead. */
  class FrameReader<F> {
    const src: Source<F>
    var cache: Entries<F>

    ghost predicate Valid()
      reads this
    {
      StartsWithI(src.index) && CacheOk(Outcomes(src), cache)
    }

    constructor (src: Source<F>)
      requires StartsWithI(src.index)
      ensures Valid() && this.src == src && cache == []
    {
      this.src := src;
      this.cache := [];
    }

    /** `_lookup_gop`. */
    method LookupGop(num: nat) returns (b: nat, e: nat)
      requires Valid() && num < FrameCount(src.index)
      ensures b == GopBegin(src.index, num) && e == GopEnd(src.index, num)
      ensures src.index[b].0 == HEVC_SLICE_I && IsGop(src.index, num, b, e)
    {
      GopIsGop(src.index, num);
      GopBeginFacts(src.index, num);
      b := num;
      while b > 0 && src.index[b].0 != HEVC_SLICE_I
        invariant b <= num && GopBegin(src.index, b) == GopBegin(src.index, num)
      {
        b := b - 1;
      }
      e := num + 1;
      while e < |src.index| - 1 && src.index[e].0 != HEVC_SLICE_I
        invariant num < e <= FrameCount(src.index) && GopEndFrom(src.index, e) == GopEnd(src.index, num)
      {
        e := e + 1;
      }
    }

    /** `get_gop`: the parameter sets and then the bytes of the group; as the first frame is an I slice, there are no frames to
        skip. */
    method GetGop(num: nat) returns (b: nat, numFrames: nat, data: seq<byte>)
      requires Valid() && num < FrameCount(src.index)
      ensures b == GopBegin(src.index, num) && numFrames == GopEnd(src.index, num) - b
      ensures data == GopData(src.index, src.stream, src.prefix, num)
      ensures IsGop(src.index, num, b, b + numFrames)
      ensures Ordered(src.index, src.stream) ==>
        IsPrefixed(src.prefix, src.stream, src.index[b].1, src.index[b + numFrames].1, data)
    {
      var e;
      b, e := LookupGop(num);
      if Ordered(src.index, src.stream) {
        OffsetsInside(src.index, src.stream, b, e);
        BytesArePrefixed(src.prefix, src.stream, src.index[b].1, src.index[e].1);
      }
      data := src.prefix + Bytes(src.stream, src.index[b].1, src.index[e].1);
      numFrames := e - b;
    }

    /** What the decoder gets for the successive groups, without the prefixes, is the stream from the first frame on. */
    method JoinGroups() returns (bytes: seq<byte>)
      requires Valid() && Ordered(src.index, src.stream)
      ensures src.index[0].1 <= src.index[|src.index| - 1].1 <= |src.stream|
      ensures bytes == src.stream[src.index[0].1..src.index[|src.index| - 1].1]
    {
      bytes := [];
      var next := 0;
      while next < FrameCount(src.index)
        invariant next <= FrameCount(src.index) && GroupStart(src.index, next)
        invariant src.index[0].1 <= src.index[next].1 <= |src.stream|
        invariant bytes == src.stream[src.index[0].1..src.index[next].1]
        decreases FrameCount(src.index) - next
      {
        var b, numFrames, data := GetGop(next);
        JoinNext(src.stream, src.prefix, src.index[0].1, src.index[b].1, src.index[b + numFrames].1, data);
        bytes := bytes + data[|src.prefix|..];
        next := b + numFrames;
      }
    }

    /** `_get_one`: whatever was read before, the outcome is the same. */
    method GetOne(num: nat, fmt: Format) returns (r: Got<F>)
      requires Valid() && num < FrameCount(src.index)
      modifies this
      ensures Valid() && r == Outcomes(src)(num, fmt)
    {
      FoundIsGood(Outcomes(src), num, fmt, cache);
      var hit := Find(cache, (num, fmt));
      if hit.Some? {
        TouchIsGood(Outcomes(src), cache, (num, fmt));
        cache := Touch(cache, (num, fmt));
        return Picture(hit.value);
      }
      var b, numFrames, data := GetGop(num);
      var frames := src.decode(data, fmt);
      if |frames| != numFrames {
        return DecodeMismatch;
      }
      cache := InsertAll(cache, b, fmt, frames);
      DecodedIsGroup(src, num, fmt);
      InsertedGroup(Outcomes(src), b, b + numFrames, fmt, frames, old(cache), cache, num);
      r := Take(num, fmt);
    }

    /** `self.frame_cache[(num, pix_fmt)]`. */
    method Take(num: nat, fmt: Format) returns (r: Got<F>)
      requires Valid()
      modifies this
      ensures Valid()
      ensures r == match Find(old(cache), (num, fmt)) case Some(f) => Picture(f) case None => KeyError
    {
      var hit := Find(cache, (num, fmt));
      if hit.None? {
        return KeyError;
      }
      TouchIsGood(Outcomes(src), cache, (num, fmt));
      cache := Touch(cache, (num, fmt));
      return Picture(hit.value);
    }

    /** `get`: the frames in order, or the first failure. */
    method Get(num: nat, count: nat, fmt: Format) returns (r: GotAll<F>)
      requires Valid()
      modifies this
      ensures Valid()
      ensures r == ValueError <==> num + count > FrameCount(src.index)
      ensures num + count <= FrameCount(src.index) ==> (r.Pictures? <==> Readable(Outcomes(src), num, count, fmt))
      ensures r.Pictures? ==> AreExpected(Outcomes(src), num, fmt, r.frames) && |r.frames| == count
      ensures r.Pictures? && Ordered(src.index, src.stream) ==>
        forall i :: 0 <= i < count ==> IsDecodedFrame(src, num + i, fmt, r.frames[i])
    {
      if num + count > FrameCount(src.index) {
        return ValueError;
      }
      r := GetRange(num, count, fmt);
      if r.Pictures? && Ordered(src.index, src.stream) {
        ExpectedAreDecoded(src, Outcomes(src), num, fmt, r.frames);
      }
    }

    method GetRange(num: nat, count: nat, fmt: Format) returns (r: GotAll<F>)
      requires Valid() && num + count <= FrameCount(src.index)
      modifies this
      ensures Valid() && r != ValueError
      ensures r.Pictures? <==> Readable(Outcomes(src), num, count, fmt)
      ensures r.Pictures? ==> AreExpected(Outcomes(src), num, fmt, r.frames) && |r.frames| == count
    {
      ghost var want := Outcomes(src);
      var frames, ok := [], true;
      while ok && |frames| < count
        invariant Valid() && |frames| <= count && AreExpected(want, num, fmt, frames)
        invariant !ok ==> !Readable(want, num, count, fmt)
        decreases count - |frames|, ok
      {
        ok, frames := GetNext(num, count, fmt, frames, want);
      }
      if !ok {
        return Failed;
      }
      AllRead(want, num, fmt, frames);
      return Pictures(frames);
    }

    /** One round of `get`: the next frame, or a failure. */
    method GetNext(num: nat, count: nat, fmt: Format, frames: seq<F>, ghost want: Outcome<F>)
      returns (ok: bool, more: seq<F>)
      requires Valid() && num + count <= FrameCount(src.index) && |frames| < count && want == Outcomes(src)
      requires AreExpected(want, num, fmt, frames)
      modifies this
      ensures Valid()
      ensures ok ==> |more| == |frames| + 1 && AreExpected(want, num, fmt, more)
      ensures !ok ==> more == frames && !Readable(want, num, count, fmt)
    {
      var one := GetOne(num + |frames|, fmt);
      ok, more := Append(want, num, count, fmt, frames, one);
    }
  }

  method Append<F>(ghost want: Outcome<F>, num: nat, ghost count: nat, fmt: Format, frames: seq<F>, one: Got<F>)
    returns (ok: bool, more: seq<F>)
    requires AreExpected(want, num, fmt, frames) && |frames| < count && want(num + |frames|, fmt) == one
    ensures ok ==> |more| == |frames| + 1 && AreExpected(want, num, fmt, more)
    ensures !ok ==> more == frames && !Readable(want, num, count, fmt)
  {
    if !one.Picture? {
      return false, frames;
    }
    more := frames + [one.frame];
    forall k | num <= k < num + |more|
      ensures want(k, fmt) == Picture(more[k - num])
    {
    }
    return true, more;
  }

  predicate GroupStart(index: Index, k: nat) {
    k == 0 || k >= FrameCount(index) || index[k].0 == HEVC_SLICE_I
  }

  lemma JoinNext(stream: seq<byte>, prefix: seq<byte>, x: nat, y: nat, z: nat, data: seq<byte>)
    requires x <= y && IsPrefixed(prefix, stream, y, z, data)
    ensures stream[x..y] + data[|prefix|..] == stream[x..z]
  {
    var tail := data[|prefix|..];
    assert |tail| == z - y;
    forall i | 0 <= i < z - y
      ensures tail[i] == stream[y..z][i]
    {
      assert tail[i] == data[|prefix| + i];
    }
    assert tail == stream[y..z];
  }

  /** The frame as the decoder shows it: of the group around it, with the parameter sets in front, the one at its place. */
  ghost predicate IsDecodedFrame<F>(src: Source<F>, num: nat, fmt: Format, f: F) {
    exists b: nat, e: nat, data: seq<byte> :: ShowsFrame(src, num, fmt, f, b, e, data)
  }

  ghost predicate ShowsFrame<F>(src: Source<F>, num: nat, fmt: Format, f: F, b: nat, e: nat, data: seq<byte>) {
    && IsGop(src.index, num, b, e) && IsPrefixed(src.prefix, src.stream, src.index[b].1, src.index[e].1, data)
    && |src.decode(data, fmt)| == e - b && src.decode(data, fmt)[num - b] == f
  }

  lemma ExpectedIsDecoded<F>(src: Source<F>, num: nat, fmt: Format, f: F)
    requires num < FrameCount(src.index) && Ordered(src.index, src.stream) && Expected(src, num, fmt) == Picture(f)
    ensures IsDecodedFrame(src, num, fmt, f)
  {
    var b, e := GopBegin(src.index, num), GopEnd(src.index, num);
    GopIsGop(src.index, num);
    OffsetsInside(src.index, src.stream, b, e);
    BytesArePrefixed(src.prefix, src.stream, src.index[b].1, src.index[e].1);
    ExpectedIsTrue(src, num, fmt, f);
    assert ShowsFrame(src, num, fmt, f, b, e, GopData(src.index, src.stream, src.prefix, num));
  }

  lemma WantedAt<F>(want: Outcome<F>, num: nat, fmt: Format, frames: seq<F>, i: nat)
    requires AreExpected(want, num, fmt, frames) && i < |frames|
    ensures want(num + i, fmt) == Picture(frames[i])
  {
    assert frames[num + i - num] == frames[i];
  }

  lemma WantedIsDecoded<F>(src: Source<F>, want: Outcome<F>, num: nat, fmt: Format, f: F)
    requires want == Outcomes(src) && want(num, fmt) == Picture(f)
    requires num < FrameCount(src.index) && Ordered(src.index, src.stream)
    ensures IsDecodedFrame(src, num, fmt, f)
  {
    ExpectedIsDecoded(src, num, fmt, f);
  }

  lemma ExpectedAreDecoded<F>(src: Source<F>, want: Outcome<F>, num: nat, fmt: Format, frames: seq<F>)
    requires want == Outcomes(src) && AreExpected(want, num, fmt, frames) && num + |frames| <= FrameCount(src.index)
    requires Ordered(src.index, src.stream)
    ensures forall i :: 0 <= i < |frames| ==> IsDecodedFrame(src, num + i, fmt, frames[i])
  {
    forall i | 0 <= i < |frames|
      ensures IsDecodedFrame(src, num + i, fmt, frames[i])
    {
      WantedAt(want, num, fmt, frames, i);
      WantedIsDecoded(src, want, num + i, fmt, frames[i]);
    }
  }

  lemma AllRead<F>(want: Outcome<F>, num: nat, fmt: Format, frames: seq<F>)
    requires AreExpected(want, num, fmt, frames)
    ensures Readable(want, num, |frames|, fmt)
  {
  }

  ghost predicate Readable<F>(want: Outcome<F>, num: nat, count: nat, fmt: Format) {
    forall k :: num <= k < num + count ==> want(k, fmt).Picture?
  }

  /** The frames are what reads of `num`, `num + 1`, ... should yield. */
  ghost predicate AreExpected<F>(want: Outcome<F>, num: nat, fmt: Format, frames: seq<F>) {
    forall k :: num <= k < num + |frames| ==> want(k, fmt) == Picture(frames[k - num])
  }

  /** The loop that puts a decoded group into the cache. */
  method InsertAll<F>(before: Entries<F>, b: nat, fmt: Format, frames: seq<F>) returns (entries: Entries<F>)
    requires |before| <= CACHE_SIZE
    ensures Inserting(before, b, fmt, frames, |frames|, entries)
  {
    entries := before;
    for i := 0 to |frames|
      invariant Inserting(before, b, fmt, frames, i, entries)
    {
      InsertOne(before, b, fmt, frames, i, entries);
      entries := Put(entries, (b + i, fmt), frames[i]);
    }
  }

  lemma {:induction false} WithoutIsShorter<F>(entries: Entries<F>, key: Key)
    requires Find(entries, key).Some?
    ensures |Without(entries, key)| < |entries|
  {
    if entries[0].0 != key {
      WithoutIsShorter(entries[1..], key);
    }
  }

  lemma TouchIsGood<F>(want: Outcome<F>, entries: Entries<F>, key: Key)
    requires CacheOk(want, entries) && Find(entries, key).Some?
    ensures CacheOk(want, Touch(entries, key))
  {
    WithoutIsShorter(entries, key);
    FindIsEntry(entries, key);
    forall e | e in Touch(entries, key)
      ensures GoodEntry(want, e)
    {
      WithoutIsPart(entries, key, e);
    }
  }

  // ---------------------------------------------------------------------------------------------
  // The whole stream

  ghost predicate AllDecode<F>(src: Source<F>, fmt: Format) {
    forall num :: 0 <= num < FrameCount(src.index) ==> DecodesExactly(src, num, fmt)
  }

  /** The frames of the stream decoded group by group, from the beginning of a group on. */
  function DecodeFrom<F>(src: Source<F>, b: nat, fmt: Format): seq<F>
    requires b <= FrameCount(src.index)
    decreases FrameCount(src.index) - b
  {
    if b == FrameCount(src.index) then [] else Decoded(src, b, fmt) + DecodeFrom(src, GopEnd(src.index, b), fmt)
  }

  lemma TrueFrameOfGop<F>(src: Source<F>, b: nat, fmt: Format, num: nat)
    requires b < FrameCount(src.index) && GopBegin(src.index, b) == b <= num < GopEnd(src.index, b)
    requires DecodesExactly(src, b, fmt)
    ensures DecodesExactly(src, num, fmt) && TrueFrame(src, num, fmt) == Decoded(src, b, fmt)[num - b]
  {
    SameGop(src.index, b, num);
    SameDecoded(src, b, num, fmt);
  }

  lemma {:induction false} DecodeFromLength<F>(src: Source<F>, b: nat, fmt: Format)
    requires b < FrameCount(src.index) && AllDecode(src, fmt) && GopBegin(src.index, b) == b
    ensures |DecodeFrom(src, b, fmt)| == FrameCount(src.index) - b
    decreases FrameCount(src.index) - b
  {
    var e := GopEnd(src.index, b);
    assert DecodesExactly(src, b, fmt);
    if e < FrameCount(src.index) {
      NextGop(src.index, b);
      DecodeFromLength(src, e, fmt);
    } else {
      assert DecodeFrom(src, e, fmt) == [];
    }
  }

  lemma {:induction false} DecodeFromAt<F>(src: Source<F>, b: nat, fmt: Format, num: nat)
    requires b <= num < FrameCount(src.index) && AllDecode(src, fmt) && GopBegin(src.index, b) == b
    ensures |DecodeFrom(src, b, fmt)| == FrameCount(src.index) - b
    ensures DecodesExactly(src, num, fmt) && DecodeFrom(src, b, fmt)[num - b] == TrueFrame(src, num, fmt)
    decreases FrameCount(src.index) - b
  {
    var e := GopEnd(src.index, b);
    DecodeFromLength(src, b, fmt);
    assert DecodesExactly(src, b, fmt);
    var group, rest := Decoded(src, b, fmt), DecodeFrom(src, e, fmt);
    assert DecodeFrom(src, b, fmt) == group + rest;
    if num < e {
      TrueFrameOfGop(src, b, fmt, num);
    } else {
      NextGop(src.index, b);
      DecodeFromAt(src, e, fmt, num);
      assert (group + rest)[num - b] == rest[num - e];
    }
  }

  /** Every successful read of a range is that range of the whole stream decoded group by group. */
  lemma ReadIsRangeOfStream<F>(src: Source<F>, num: nat, fmt: Format, frames: seq<F>)
    requires StartsWithI(src.index) && AllDecode(src, fmt) && num + |frames| <= FrameCount(src.index)
    requires AreExpected(Outcomes(src), num, fmt, frames)
    ensures |DecodeFrom(src, 0, fmt)| == FrameCount(src.index)
    ensures frames == DecodeFrom(src, 0, fmt)[num..num + |frames|]
  {
    DecodeFromLength(src, 0, fmt);
    RangeOfStream(src, Outcomes(src), DecodeFrom(src, 0, fmt), num, fmt, frames);
  }

  lemma RangeOfStream<F>(src: Source<F>, want: Outcome<F>, all: seq<F>, num: nat, fmt: Format, frames: seq<F>)
    requires AllDecode(src, fmt) && num + |frames| <= FrameCount(src.index) == |all|
    requires want == Outcomes(src) && all == DecodeFrom(src, 0, fmt) && AreExpected(want, num, fmt, frames)
    ensures frames == all[num..num + |frames|]
  {
    forall i | 0 <= i < |frames|
      ensures frames[i] == all[num + i]
    {
      WantedAt(want, num, fmt, frames, i);
      FrameOfStream(src, want, all, num + i, fmt, frames[i]);
    }
  }

  lemma FrameOfStream<F>(src: Source<F>, want: Outcome<F>, all: seq<F>, num: nat, fmt: Format, f: F)
    requires AllDecode(src, fmt) && num < FrameCount(src.index) == |all|
    requires want == Outcomes(src) && all == DecodeFrom(src, 0, fmt) && want(num, fmt) == Picture(f)
    ensures f == all[num]
  {
    DecodeFromAt(src, 0, fmt, num);
    ExpectedIsTrue(src, num, fmt, f);
  }

  lemma ExpectedIsTrue<F>(src: Source<F>, num: nat, fmt: Format, f: F)
    requires num < FrameCount(src.index) && Expected(src, num, fmt) == Picture(f)
    ensures DecodesExactly(src, num, fmt) && f == TrueFrame(src, num, fmt)
  {
  }

  /** Where every group decodes, a frame can be read if and only if fewer than 64 frames of its group follow it; so all
      frames can be read if and only if no group is longer than the cache. */
  lemma ReadableFrames<F>(src: Source<F>, fmt: Format)
    requires AllDecode(src, fmt)
    ensures (forall num :: 0 <= num < FrameCount(src.index) ==> Expected(src, num, fmt).Picture?) <==>
            (forall num :: 0 <= num < FrameCount(src.index) ==>
               GopEnd(src.index, num) - GopBegin(src.index, num) <= CACHE_SIZE)
  {
    if forall num :: 0 <= num < FrameCount(src.index) ==> Expected(src, num, fmt).Picture? {
      forall num | 0 <= num < FrameCount(src.index)
        ensures GopEnd(src.index, num) - GopBegin(src.index, num) <= CACHE_SIZE
      {
        var b := GopBegin(src.index, num);
        SameGop(src.index, num, b);
        assert Expected(src, b, fmt).Picture?;
      }
    }
    if forall num :: 0 <= num < FrameCount(src.index) ==> GopEnd(src.index, num) - GopBegin(src.index, num) <= CACHE_SIZE {
      forall num | 0 <= num < FrameCount(src.index)
        ensures Expected(src, num, fmt).Picture?
      {
        assert DecodesExactly(src, num, fmt);
      }
    }
  }

  /** The first frame of a group of 65 cannot be read, while the second one can. */
  lemma GroupOf65() returns (src: Source<int>)
    ensures StartsWithI(src.index) && AllDecode(src, Nv12)
    ensures Expected(src, 0, Nv12) == KeyError && Expected(src, 1, Nv12).Picture?
  {
    var index := seq(66, k requires 0 <= k < 66 => (if k == 0 then HEVC_SLICE_I else 1, k));
    src := Source(index, [], [], (data: seq<byte>, fmt: Format) => seq(65, _ => 0));
    forall num | 0 <= num < 65
      ensures GopBegin(index, num) == 0 && GopEnd(index, num) == 65
    {
      GopBeginFacts(index, num);
      GopEndFacts(index, num + 1);
    }
    assert DecodesExactly(src, 0, Nv12) && DecodesExactly(src, 1, Nv12);
  }

  // ---------------------------------------------------------------------------------------------
  // The index of an HEVC file

  const END_OF_STREAM: nat := 0xFFFFFFFF

  /** `index_stream`: the frames that the scan finds, and the end of the stream. */
  function IndexOf(dat: seq<byte>): Index {
    HevcIndex.FramesOf(HevcIndex.KindsOf(dat), HevcIndex.Visited(dat)) + [(END_OF_STREAM, |dat|)]
  }

  lemma FrameOffsets(dat: seq<byte>, frames: seq<(nat, nat)>, i: nat, j: nat)
    requires HevcIndex.Clean(dat) && frames == HevcIndex.FramesOf(HevcIndex.KindsOf(dat), HevcIndex.Visited(dat))
    requires i < |frames|
    ensures frames[i].1 <= |dat|
    ensures i < j < |frames| ==> frames[i].1 <= frames[j].1
  {
    var (t, p) := frames[i];
    assert (t, p) in frames;
    HevcIndex.IndexOfCleanData(dat, t, p);
    if i < j < |frames| {
      HevcIndex.FramesAreIncreasing(dat, i, j);
    }
  }

  lemma IndexIsOrdered(dat: seq<byte>, frames: seq<(nat, nat)>)
    requires HevcIndex.Clean(dat) && frames == HevcIndex.FramesOf(HevcIndex.KindsOf(dat), HevcIndex.Visited(dat))
    ensures Ordered(frames + [(END_OF_STREAM, |dat|)], dat)
  {
    forall i, j | 0 <= i < j <= |frames|
      ensures (frames + [(END_OF_STREAM, |dat|)])[i].1 <= (frames + [(END_OF_STREAM, |dat|)])[j].1
    {
      FrameOffsets(dat, frames, i, j);
    }
  }

  /** The index of accepted data has increasing offsets inside the data, so its groups tile the data from the first frame
      to the end. */
  lemma IndexOfHevc(dat: seq<byte>)
    requires HevcIndex.Clean(dat)
    ensures Ordered(IndexOf(dat), dat)
    ensures IndexOf(dat)[0].1 <= |dat| && GopBytesFrom(IndexOf(dat), dat, 0) == dat[IndexOf(dat)[0].1..]
  {
    IndexIsOrdered(dat, HevcIndex.FramesOf(HevcIndex.KindsOf(dat), HevcIndex.Visited(dat)));
    GopsTileAll(IndexOf(dat), dat);
  }

  /** The index has exactly the units that are frames by their bits, with their types, in order, and then the end. */
  lemma IndexHasFrames(dat: seq<byte>, t: nat, p: nat)
    requires HevcIndex.Clean(dat)
    ensures var index := IndexOf(dat);
      && index != [] && index[|index| - 1] == (END_OF_STREAM, |dat|)
      && (forall i, j :: 0 <= i < j < FrameCount(index) ==> index[i].1 < index[j].1)
      && ((t, p) in index[..FrameCount(index)] <==>
            1 <= p && HevcIndex.StartCodeAt(dat, p) && HevcIndex.FrameAt(dat, p, t))
  {
    var frames := HevcIndex.FramesOf(HevcIndex.KindsOf(dat), HevcIndex.Visited(dat));
    FramesThenEnd(dat, frames);
    HevcIndex.IndexOfCleanData(dat, t, p);
    forall i, j | 0 <= i < j < |frames|
      ensures frames[i].1 < frames[j].1
    {
      HevcIndex.FramesAreIncreasing(dat, i, j);
    }
  }

  lemma FramesThenEnd(dat: seq<byte>, frames: seq<(nat, nat)>)
    requires frames == HevcIndex.FramesOf(HevcIndex.KindsOf(dat), HevcIndex.Visited(dat))
    ensures FrameCount(IndexOf(dat)) == |frames| && IndexOf(dat)[..|frames|] == frames
    ensures IndexOf(dat)[|frames|] == (END_OF_STREAM, |dat|)
  {
  }

  lemma GopsTileAll(index: Index, dat: seq<byte>)
    requires index != [] && Ordered(index, dat) && index[|index| - 1].1 == |dat|
    ensures index[0].1 <= |dat| && GopBytesFrom(index, dat, 0) == dat[index[0].1..]
  {
    GopsTile(index, dat, 0);
  }
}
