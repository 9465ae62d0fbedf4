/** A remote file read through a cache of aligned chunks (`URLFile`, tools/lib/url_file.py). */
module UrlFile {
  import opened Helpers

  type byte = b: int | 0 <= b < 256

  const CHUNK_SIZE: nat := 1000000

  function Min(a: int, b: int): int { if a <= b then a else b }
  function Max(a: int, b: int): int { if a >= b then a else b }

  /** `s[a:b]` of Python for a start that is not negative; a negative end counts from the end of `s`. */
  function PySlice(s: seq<byte>, a: nat, b: int): seq<byte> {
    var hi := if b < 0 then Max(0, |s| + b) else Min(b, |s|);
    if a <= hi then s[a..hi] else []
  }

  /** The bytes of `s` from `a` up to `b`, as far as there are any. */
  function Slice(s: seq<byte>, a: nat, b: nat): seq<byte> {
    if a <= Min(b, |s|) then s[a..Min(b, |s|)] else []
  }

  /** What a ranged request yields (`read_aux`). The comparison of the inclusive end with the position makes a range of one
      byte look empty. */
  function Ranged(remote: seq<byte>, pos: nat, ll: nat): seq<byte> {
    var end := Min(pos + ll, |remote|) - 1;
    if pos >= end then [] else remote[pos..end + 1]
  }

  /** What `read_aux` yields: without a limit, at the start of the file, no range is requested. */
  function Fetched(remote: seq<byte>, pos: nat, ll: Option<nat>): seq<byte> {
    match ll
    case Some(n) => Ranged(remote, pos, n)
    case None => if pos == 0 then remote else Ranged(remote, pos, |remote|)
  }

  /** Position just behind a read. */
  function ReadEnd(remote: seq<byte>, pos: nat, ll: Option<nat>): nat {
    match ll
    case Some(n) => pos + n
    case None => |remote|
  }

  /** The file as the cache can serve it: a last chunk of one byte is lost. */
  function Served(remote: seq<byte>): seq<byte> {
    if |remote| % CHUNK_SIZE == 1 then remote[..|remote| - 1] else remote
  }

  /** Reads and seeks as the caller orders them. */
  datatype Op = Seek(pos: nat) | Read(ll: Option<nat>)

  /** The reads of a run over a file `s` that is just a byte string. */
  function Outputs(remote: seq<byte>, s: seq<byte>, pos: nat, ops: seq<Op>): seq<seq<byte>>
    decreases ops
  {
    if ops == [] then []
    else
      match ops[0]
      case Seek(p) => Outputs(remote, s, p, ops[1..])
      case Read(ll) =>
        var end := ReadEnd(remote, pos, ll);
        [Slice(s, pos, end)] + Outputs(remote, s, end, ops[1..])
  }

  class URLFile {
    const remote: seq<byte>
    const forceDownload: bool
    var pos: nat
    var length: Option<int>
    // the cache directory
    var lengthFile: Option<int>
    var chunks: map<nat, seq<byte>>

    /** The known lengths are right and every cached chunk is what a download of the chunk yields. */
    ghost predicate Valid()
      reads this
    {
      && (length.Some? ==> length.value == |remote|)
      && (lengthFile.Some? ==> lengthFile.value == |remote|)
      && (forall k :: k in chunks ==> chunks[k] == Ranged(remote, k * CHUNK_SIZE, CHUNK_SIZE))
    }

    constructor (remote: seq<byte>, forceDownload: bool, lengthFile: Option<int>, chunks: map<nat, seq<byte>>)
      requires lengthFile.Some? ==> lengthFile.value == |remote|
      requires forall k :: k in chunks ==> chunks[k] == Ranged(remote, k * CHUNK_SIZE, CHUNK_SIZE)
      ensures Valid() && this.remote == remote && this.forceDownload == forceDownload && pos == 0
      ensures this.chunks == chunks && this.lengthFile == lengthFile
    {
      this.remote := remote;
      this.forceDownload := forceDownload;
      this.pos := 0;
      this.length := None;
      this.lengthFile := lengthFile;
      this.chunks := chunks;
    }

    method GetLength() returns (n: int)
      requires Valid()
      modifies `length, `lengthFile
      ensures Valid() && n == |remote|
    {
      if length.Some? {
        return length.value;
      }
      if !forceDownload && lengthFile.Some? {
        length := lengthFile;
        return length.value;
      }
      length := Some(|remote|);
      if !forceDownload && length.value != -1 {
        lengthFile := length;
      }
      n := length.value;
    }

    method ReadAux(ll: Option<nat>) returns (data: seq<byte>)
      requires Valid()
      modifies `pos, `length, `lengthFile
      ensures Valid() && data == Fetched(remote, old(pos), ll)
      ensures pos == old(pos) + |data|
    {
      if pos != 0 || ll.Some? {
        var n := GetLength();
        var end := match ll case None => n - 1 case Some(l) => Min(pos + l, n) - 1;
        if pos >= end {
          return [];
        }
        data := remote[pos..end + 1];
      } else {
        data := remote;
      }
      pos := pos + |data|;
    }

    /** A read through the cache: the requested part of the served file, whatever chunks were cached before. */
    method CachedRead(ll: Option<nat>) returns (response: seq<byte>)
      requires Valid() && !forceDownload
      modifies `pos, `length, `lengthFile, `chunks
      ensures Valid()
      ensures response == Slice(Served(remote), old(pos), ReadEnd(remote, old(pos), ll))
      ensures pos == ReadEnd(remote, old(pos), ll)
      ensures old(chunks).Keys <= chunks.Keys
    {
      var fileBegin := pos;
      var fileEnd: nat;
      match ll {
        case Some(l) => fileEnd := pos + l;
        case None =>
          var n := GetLength();
          fileEnd := n;
      }
      response := ReadChunks(fileBegin, fileEnd);
      SliceToEnd(Served(remote), fileBegin, fileEnd);
    }

    /** The loop over the aligned chunks that cover a range. */
    method ReadChunks(fileBegin: nat, fileEnd: nat) returns (response: seq<byte>)
      requires Valid() && (fileBegin <= fileEnd || |remote| <= fileEnd)
      modifies `pos, `length, `lengthFile, `chunks
      ensures Valid()
      ensures response == Slice(Served(remote), fileBegin, Max(fileBegin, fileEnd)) && pos == fileEnd
      ensures old(chunks).Keys <= chunks.Keys
    {
      var position := (fileBegin / CHUNK_SIZE) * CHUNK_SIZE;
      response := [];
      ghost var k: nat := fileBegin / CHUNK_SIZE;
      ChunkBelow(fileBegin);
      while true
        invariant Valid() && position == k * CHUNK_SIZE
        invariant position <= fileBegin < position + CHUNK_SIZE || fileBegin < position < fileEnd
        invariant response == Slice(Served(remote), fileBegin, Max(fileBegin, position))
        invariant old(chunks).Keys <= chunks.Keys
        decreases fileEnd + CHUNK_SIZE - position
      {
        pos := position;
        response := AddChunk(k, fileBegin, fileEnd, response);
        position := position + CHUNK_SIZE;
        k := k + 1;
        if position >= fileEnd {
          pos := fileEnd;
          return;
        }
      }
    }

    /** Appends what the chunk at the current position contributes. */
    method AddChunk(ghost k: nat, fileBegin: nat, fileEnd: nat, response: seq<byte>) returns (longer: seq<byte>)
      requires Valid() && pos == k * CHUNK_SIZE
      requires fileBegin < pos + CHUNK_SIZE && (fileBegin < pos ==> pos < fileEnd)
      requires fileBegin <= fileEnd || |remote| <= fileEnd
      requires response == Slice(Served(remote), fileBegin, Max(fileBegin, pos))
      modifies `pos, `length, `lengthFile, `chunks
      ensures Valid() && old(chunks).Keys <= chunks.Keys
      ensures longer == Slice(Served(remote), fileBegin, Max(fileBegin, Min(old(pos) + CHUNK_SIZE, fileEnd)))
    {
      var position := pos;
      ChunkNumber(k);
      var data := Chunk(position / CHUNK_SIZE);
      NextPiece(remote, k, fileBegin, fileEnd, response, data);
      longer := response + PySlice(data, Max(0, fileBegin - position), Min(CHUNK_SIZE, fileEnd - position));
    }

    /** The chunk at the current position, from the cache or else downloaded and then cached. */
    method Chunk(number: nat) returns (data: seq<byte>)
      requires Valid() && pos == number * CHUNK_SIZE
      modifies `pos, `length, `lengthFile, `chunks
      ensures Valid() && data == Ranged(remote, number * CHUNK_SIZE, CHUNK_SIZE)
      ensures chunks == old(chunks)[number := data]
    {
      if number !in chunks {
        data := ReadAux(Some(CHUNK_SIZE));
        chunks := chunks[number := data];
      } else {
        data := chunks[number];
      }
    }

    /** `read`, with and without a limit, through the cache and past it. */
    method Read(ll: Option<nat>) returns (response: seq<byte>)
      requires Valid()
      modifies `pos, `length, `lengthFile, `chunks
      ensures Valid()
      ensures !forceDownload && ll == None ==> IsRest(remote, old(pos), response) && pos == |remote|
      ensures !forceDownload && ll.Some? ==> IsPart(remote, old(pos), ll.value, response) && pos == old(pos) + ll.value
      ensures forceDownload && ll == None ==> IsDownloadedRest(remote, old(pos), response)
      ensures forceDownload && ll.Some? ==> IsDownloadedPart(remote, old(pos), ll.value, response)
      ensures forceDownload ==> response == Fetched(remote, old(pos), ll) && pos == old(pos) + |response|
      ensures !forceDownload ==> response == Slice(Served(remote), old(pos), ReadEnd(remote, old(pos), ll))
      ensures !forceDownload ==> pos == ReadEnd(remote, old(pos), ll)
    {
      ghost var from := pos;
      if forceDownload {
        response := ReadAux(ll);
        DownloadSpelledOut(remote, from, ll);
      } else {
        response := CachedRead(ll);
        CachedSpelledOut(remote, from, ll);
      }
    }

    method Seek(p: nat)
      requires Valid()
      modifies `pos
      ensures Valid() && pos == p
    {
      pos := p;
    }

    /** Any run of seeks and reads through any partially filled cache yields exactly what the served file, read as a plain
        byte string, would yield. */
    method RunAll(ops: seq<Op>) returns (outputs: seq<seq<byte>>)
      requires Valid() && !forceDownload
      modifies `pos, `length, `lengthFile, `chunks
      ensures Valid()
      ensures outputs == Outputs(remote, Served(remote), old(pos), ops)
    {
      outputs := [];
      for i := 0 to |ops|
        invariant Valid()
        invariant outputs + Outputs(remote, Served(remote), pos, ops[i..]) == Outputs(remote, Served(remote), old(pos), ops)
      {
        assert ops[i..][1..] == ops[i + 1..];
        match ops[i] {
          case Seek(p) => Seek(p);
          case Read(ll) =>
            var data := Read(ll);
            outputs := outputs + [data];
        }
      }
    }
  }

  // ---------------------------------------------------------------------------------------------
  // What reads yield, spelled out

  /** The last byte is the only one of its chunk. */
  predicate LastIsAlone(remote: seq<byte>) { |remote| % CHUNK_SIZE == 1 }

  /** All bytes from a position on, but a last byte that is alone in its chunk; nothing behind the end. */
  predicate IsRest(remote: seq<byte>, pos: nat, data: seq<byte>) {
    if pos >= |remote| then data == []
    else if LastIsAlone(remote) then data == remote[pos..|remote| - 1]
    else data == remote[pos..]
  }

  /** At most `ll` bytes from a position on, likewise. */
  predicate IsPart(remote: seq<byte>, pos: nat, ll: nat, data: seq<byte>) {
    if pos + ll >= |remote| then IsRest(remote, pos, data) else data == remote[pos..pos + ll]
  }

  /** Without the cache all bytes from a position on, but a single byte behind the beginning is not asked for. */
  predicate IsDownloadedRest(remote: seq<byte>, pos: nat, data: seq<byte>) {
    if pos == 0 then data == remote
    else if pos + 1 >= |remote| then data == []
    else data == remote[pos..]
  }

  /** Without the cache at most `ll` bytes, and none if there is only one. */
  predicate IsDownloadedPart(remote: seq<byte>, pos: nat, ll: nat, data: seq<byte>) {
    if ll <= 1 || pos + 1 >= |remote| then data == []
    else if pos + ll >= |remote| then data == remote[pos..]
    else data == remote[pos..pos + ll]
  }

  lemma CachedSpelledOut(remote: seq<byte>, pos: nat, ll: Option<nat>)
    ensures var data := Slice(Served(remote), pos, ReadEnd(remote, pos, ll));
      match ll case None => IsRest(remote, pos, data) case Some(n) => IsPart(remote, pos, n, data)
  {
  }

  lemma DownloadSpelledOut(remote: seq<byte>, pos: nat, ll: Option<nat>)
    ensures var data := Fetched(remote, pos, ll);
      match ll case None => IsDownloadedRest(remote, pos, data) case Some(n) => IsDownloadedPart(remote, pos, n, data)
  {
  }

  lemma ChunkBelow(pos: nat)
    ensures (pos / CHUNK_SIZE) * CHUNK_SIZE <= pos < (pos / CHUNK_SIZE) * CHUNK_SIZE + CHUNK_SIZE
  {
  }

  lemma ChunkNumber(k: nat)
    ensures k * CHUNK_SIZE / CHUNK_SIZE == k
  {
  }

  lemma SliceToEnd(s: seq<byte>, a: nat, b: nat)
    ensures Slice(s, a, Max(a, b)) == Slice(s, a, b)
  {
  }

  lemma SlicesJoin(s: seq<byte>, a: nat, b: nat, c: int)
    requires a <= b
    ensures Slice(s, a, b) + (if b <= c then Slice(s, b, c) else []) == Slice(s, a, Max(b, c))
  {
  }

  /** A downloaded chunk is the corresponding part of the served file. */
  lemma ChunkIsServed(remote: seq<byte>, k: nat)
    ensures Ranged(remote, k * CHUNK_SIZE, CHUNK_SIZE) == Slice(Served(remote), k * CHUNK_SIZE, k * CHUNK_SIZE + CHUNK_SIZE)
  {
    var p := k * CHUNK_SIZE;
    if p < |remote| <= p + CHUNK_SIZE {
      assert |remote| % CHUNK_SIZE == 1 <==> |remote| == p + 1;
    }
  }

  /** What one chunk contributes to a read. */
  lemma PieceOfChunk(remote: seq<byte>, k: nat, begin: nat, end: nat, data: seq<byte>)
    requires data == Ranged(remote, k * CHUNK_SIZE, CHUNK_SIZE)
    requires begin < k * CHUNK_SIZE + CHUNK_SIZE && (begin < k * CHUNK_SIZE ==> k * CHUNK_SIZE < end)
    requires k * CHUNK_SIZE <= end || |remote| <= end
    ensures var p := k * CHUNK_SIZE;
      var lo := Max(begin, p);
      var hi := Min(p + CHUNK_SIZE, end);
      PySlice(data, Max(0, begin - p), Min(CHUNK_SIZE, end - p)) == if lo <= hi then Slice(Served(remote), lo, hi) else []
  {
    ChunkIsServed(remote, k);
    PieceOfSlice(Served(remote), k * CHUNK_SIZE, begin, end);
  }

  lemma PieceOfSlice(s: seq<byte>, p: nat, begin: nat, end: nat)
    requires begin < p + CHUNK_SIZE && (p <= end || |s| <= p)
    ensures var lo := Max(begin, p);
      var hi := Min(p + CHUNK_SIZE, end);
      PySlice(Slice(s, p, p + CHUNK_SIZE), Max(0, begin - p), Min(CHUNK_SIZE, end - p)) ==
      if lo <= hi then Slice(s, lo, hi) else []
  {
    SliceOfSlice(s, p, Max(0, begin - p), end - p);
  }

  lemma SliceOfSlice(s: seq<byte>, p: nat, a: nat, b: int)
    requires a < CHUNK_SIZE && (b >= 0 || |s| <= p)
    ensures PySlice(Slice(s, p, p + CHUNK_SIZE), a, Min(CHUNK_SIZE, b)) ==
            if p + a <= p + Min(CHUNK_SIZE, b) then Slice(s, p + a, p + Min(CHUNK_SIZE, b)) else []
  {
    var c := Slice(s, p, p + CHUNK_SIZE);
    if b < 0 {
      assert c == [];
    } else if p <= |s| {
      var m := Min(p + CHUNK_SIZE, |s|);
      assert c == s[p..m];
      var hi := Min(Min(CHUNK_SIZE, b), |c|);
      if a <= hi {
        assert |c[a..hi]| == |s[p + a..p + hi]| == hi - a;
        assert forall i :: 0 <= i < hi - a ==> c[a..hi][i] == c[a + i] == s[p + a + i] == s[p + a..p + hi][i];
        assert c[a..hi] == s[p + a..p + hi];
      }
    }
  }

  lemma NextPiece(remote: seq<byte>, k: nat, begin: nat, end: nat, response: seq<byte>, data: seq<byte>)
    requires data == Ranged(remote, k * CHUNK_SIZE, CHUNK_SIZE)
    requires begin < k * CHUNK_SIZE + CHUNK_SIZE && (begin < k * CHUNK_SIZE ==> k * CHUNK_SIZE < end)
    requires begin <= end || |remote| <= end
    requires response == Slice(Served(remote), begin, Max(begin, k * CHUNK_SIZE))
    ensures var p := k * CHUNK_SIZE;
      response + PySlice(data, Max(0, begin - p), Min(CHUNK_SIZE, end - p)) ==
      Slice(Served(remote), begin, Max(begin, Min(p + CHUNK_SIZE, end)))
  {
    var p := k * CHUNK_SIZE;
    PieceOfChunk(remote, k, begin, end, data);
    SlicesJoin(Served(remote), begin, Max(begin, p), Min(p + CHUNK_SIZE, end));
  }

  // ---------------------------------------------------------------------------------------------
  // Laws

  /** A cached read is exact, that is, the bytes of the remote file, unless the file's length leaves a last chunk of one byte
      and the read covers that byte. */
  lemma CachedReadIsExact(remote: seq<byte>, pos: nat, end: nat)
    ensures Slice(Served(remote), pos, end) == Slice(remote, pos, end) <==>
            !(|remote| % CHUNK_SIZE == 1 && pos < |remote| <= end)
  {
    if |remote| % CHUNK_SIZE == 1 {
      if pos < |remote| <= end {
        assert |Slice(Served(remote), pos, end)| == |remote| - 1 - pos;
        assert |Slice(remote, pos, end)| == |remote| - pos;
      } else if pos <= Min(end, |remote| - 1) {
        assert Served(remote)[pos..Min(end, |remote| - 1)] == remote[pos..Min(end, |remote| - 1)];
      }
    }
  }

  /** A file of one byte reads as empty through the cache. */
  lemma LastByteIsLost()
    ensures Slice(Served([7]), 0, 1) == [] && Slice([7], 0, 1) == [7]
  {
    assert |Served([7])| == 0;
  }

  /** An uncached read with a limit is exact unless exactly one byte is there to be read. */
  lemma UncachedReadIsExact(remote: seq<byte>, pos: nat, ll: nat)
    ensures Fetched(remote, pos, Some(ll)) == Slice(remote, pos, pos + ll) <==> |Slice(remote, pos, pos + ll)| != 1
  {
  }

  /** An uncached read of one byte from a file of two yields nothing. */
  lemma OneByteIsLost()
    ensures Fetched([7, 8], 0, Some(1)) == [] && Slice([7, 8], 0, 1) == [7]
  {
  }

  /** Cached and uncached reads agree exactly when the range holds a single byte if and only if
      it covers a last byte which the cache has lost. */
  lemma CachedEqualsUncached(remote: seq<byte>, pos: nat, ll: nat)
    ensures Slice(Served(remote), pos, pos + ll) == Fetched(remote, pos, Some(ll)) <==>
            (|Slice(remote, pos, pos + ll)| == 1 <==> |remote| % CHUNK_SIZE == 1 && pos < |remote| <= pos + ll)
  {
    CachedReadIsExact(remote, pos, pos + ll);
    UncachedReadIsExact(remote, pos, ll);
    var lost := |remote| % CHUNK_SIZE == 1 && pos < |remote| <= pos + ll;
    if lost {
      assert |Slice(Served(remote), pos, pos + ll)| == |remote| - 1 - pos;
      if |remote| - pos == 1 {
        assert Slice(Served(remote), pos, pos + ll) == [];
      }
    }
  }

  /** Without a limit, from the start of the file, the uncached read is always exact. */
  lemma WholeFileUncached(remote: seq<byte>)
    ensures Fetched(remote, 0, None) == Slice(remote, 0, |remote|)
  {
  }

  /** Reading in two steps equals reading at once. */
  lemma ReadsJoin(s: seq<byte>, pos: nat, l1: nat, l2: nat)
    ensures Slice(s, pos, pos + l1) + Slice(s, pos + l1, pos + l1 + l2) == Slice(s, pos, pos + (l1 + l2))
  {
    SlicesJoin(s, pos, pos + l1, pos + l1 + l2);
  }

  function Flatten(parts: seq<seq<byte>>): seq<byte> {
    if parts == [] then [] else parts[0] + Flatten(parts[1..])
  }

  function Total(lls: seq<nat>): nat {
    if lls == [] then 0 else lls[0] + Total(lls[1..])
  }

  function ReadsOf(lls: seq<nat>): seq<Op> {
    if lls == [] then [] else [Read(Some(lls[0]))] + ReadsOf(lls[1..])
  }

  /** However a stretch of the file is cut into reads, the results put together are that stretch. */
  lemma {:induction false} SequentialReads(remote: seq<byte>, s: seq<byte>, pos: nat, lls: seq<nat>)
    ensures Flatten(Outputs(remote, s, pos, ReadsOf(lls))) == Slice(s, pos, pos + Total(lls))
    decreases lls
  {
    if lls != [] {
      var rest := ReadsOf(lls[1..]);
      assert ReadsOf(lls)[1..] == rest;
      SequentialReads(remote, s, pos + lls[0], lls[1..]);
      ReadsJoin(s, pos, lls[0], Total(lls[1..]));
      var outs := Outputs(remote, s, pos + lls[0], rest);
      assert Outputs(remote, s, pos, ReadsOf(lls)) == [Slice(s, pos, pos + lls[0])] + outs;
      assert ([Slice(s, pos, pos + lls[0])] + outs)[1..] == outs;
    }
  }
}
