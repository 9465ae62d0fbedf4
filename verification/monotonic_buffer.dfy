/** The arena behind filtered logs (`MonotonicBuffer`, tools/replay/util.h, tools/replay/util.cc). */
module MonotonicBuffer {
  import opened Helpers

  // ---------------------------------------------------------------------------------------------
  // Alignment

  predicate Aligned(addr: nat, alignment: nat)
    requires alignment > 0
  {
    Rem(addr, alignment) == 0
  }

  /** What `std::align` makes of an address. */
  function AlignUp(addr: nat, alignment: nat): (r: nat)
    requires alignment > 0
    ensures addr <= r < addr + alignment
  {
    if Aligned(addr, alignment) then addr else addr + (alignment - Rem(addr, alignment))
  }

  /** `AlignUp` is the first aligned address that is not below the given one. */
  lemma AlignUpIsFirst(addr: nat, alignment: nat)
    requires alignment > 0
    ensures Aligned(AlignUp(addr, alignment), alignment)
    ensures forall a :: addr <= a < AlignUp(addr, alignment) ==> !Aligned(a, alignment)
  {
    RemPlus(addr, AlignUp(addr, alignment) - addr, alignment);
    forall a | addr <= a < AlignUp(addr, alignment)
      ensures !Aligned(a, alignment)
    {
      RemPlus(addr, a - addr, alignment);
    }
  }

  // ---------------------------------------------------------------------------------------------
  // The arena as a value

  /** A stretch of memory. */
  datatype Block = Block(addr: nat, size: nat)

  predicate Inside(b: Block, c: Block) {
    c.addr <= b.addr && b.addr + b.size <= c.addr + c.size
  }

  predicate Disjoint(b: Block, c: Block) {
    b.addr + b.size <= c.addr || c.addr + c.size <= b.addr
  }

  /** The buffers owned, the free rest of the last one, and the size of the next one. */
  datatype Arena = Arena(buffers: seq<Block>, current: nat, available: nat, nextSize: nat)

  datatype Request = Request(bytes: nat, alignment: nat, newAt: nat)

  /** `next_buffer_size *= 1.5` without the rounding of the floating-point product. */
  function Grown(size: nat): nat { size * 3 / 2 }

  function Max(a: nat, b: nat): nat { if a >= b then a else b }

  predicate Fits(a: Arena, r: Request)
    requires r.alignment > 0
  {
    AlignUp(a.current, r.alignment) + r.bytes <= a.current + a.available
  }

  /** `allocate`: from the current buffer if the aligned block fits, else from a new buffer, which the system places at
      `r.newAt`. */
  function Allocate(a: Arena, r: Request): (Arena, Block)
    requires r.alignment > 0
  {
    if Fits(a, r) then
      var p := AlignUp(a.current, r.alignment);
      (a.(current := p + r.bytes, available := a.current + a.available - p - r.bytes), Block(p, r.bytes))
    else
      var size := Max(a.nextSize, r.bytes);
      (Arena(a.buffers + [Block(r.newAt, size)], r.newAt + r.bytes, size - r.bytes, Grown(size)), Block(r.newAt, r.bytes))
  }

  /** What callers and the system owe: a block that is not empty, and a fresh buffer that is aligned and overlaps no buffer
      of the arena. */
  ghost predicate Legal(a: Arena, r: Request) {
    && r.bytes > 0 && r.alignment > 0
    && (!Fits(a, r) ==>
        && Aligned(r.newAt, r.alignment)
        && forall k :: 0 <= k < |a.buffers| ==> Disjoint(a.buffers[k], Block(r.newAt, Max(a.nextSize, r.bytes))))
  }

  /** The free rest is the end of the last buffer, the buffers do not overlap, and each block handed out lies in one buffer,
      aligned and apart from the free rest and from all other blocks. */
  ghost predicate Ok(a: Arena, blocks: seq<Block>, requests: seq<Request>) {
    && |blocks| == |requests|
    && (if a.buffers == [] then a.available == 0
        else
          var last := a.buffers[|a.buffers| - 1];
          last.addr <= a.current && a.current + a.available == last.addr + last.size)
    && (forall i, j :: 0 <= i < j < |a.buffers| ==> Disjoint(a.buffers[i], a.buffers[j]))
    && (forall i :: 0 <= i < |blocks| ==> BlockOk(a, blocks[i], requests[i]))
    && (forall i, j :: 0 <= i < j < |blocks| ==> Disjoint(blocks[i], blocks[j]))
  }

  ghost predicate BlockOk(a: Arena, b: Block, r: Request) {
    && r.alignment > 0 && b.size == r.bytes && b.size > 0 && Aligned(b.addr, r.alignment)
    && (exists k :: 0 <= k < |a.buffers| && Inside(b, a.buffers[k]))
    && (b.addr + b.size <= a.current || a.current + a.available <= b.addr)
  }

  lemma OldBlockOk(a: Arena, r: Request, b: Block, q: Request)
    requires Legal(a, r) && BlockOk(a, b, q)
    ensures BlockOk(Allocate(a, r).0, b, q) && Disjoint(b, Allocate(a, r).1)
  {
    var (a', p) := Allocate(a, r);
    var k :| 0 <= k < |a.buffers| && Inside(b, a.buffers[k]);
    assert a'.buffers[k] == a.buffers[k];
  }

  lemma NewBlockOk(a: Arena, r: Request, blocks: seq<Block>, requests: seq<Request>)
    requires Legal(a, r) && Ok(a, blocks, requests)
    ensures BlockOk(Allocate(a, r).0, Allocate(a, r).1, r)
  {
    AlignUpIsFirst(a.current, r.alignment);
    var (a', p) := Allocate(a, r);
    assert Inside(p, a'.buffers[|a'.buffers| - 1]);
  }

  lemma AllocateOk(a: Arena, r: Request, blocks: seq<Block>, requests: seq<Request>)
    requires Legal(a, r) && Ok(a, blocks, requests)
    ensures Ok(Allocate(a, r).0, blocks + [Allocate(a, r).1], requests + [r])
    ensures a.buffers <= Allocate(a, r).0.buffers
  {
    var (a', p) := Allocate(a, r);
    NewBlockOk(a, r, blocks, requests);
    forall i | 0 <= i < |blocks|
      ensures BlockOk(a', blocks[i], requests[i]) && Disjoint(blocks[i], p)
    {
      OldBlockOk(a, r, blocks[i], requests[i]);
    }
  }

  // ---------------------------------------------------------------------------------------------
  // Runs

  /** The blocks and the arena after some requests. */
  function Run(initial: nat, requests: seq<Request>): (Arena, seq<Block>)
    requires forall i :: 0 <= i < |requests| ==> requests[i].alignment > 0
  {
    if requests == [] then (Arena([], 0, 0, initial), [])
    else
      var n := |requests| - 1;
      var (a, blocks) := Run(initial, requests[..n]);
      var (a', b) := Allocate(a, requests[n]);
      (a', blocks + [b])
  }

  ghost predicate LegalRun(initial: nat, requests: seq<Request>) {
    && (forall i :: 0 <= i < |requests| ==> requests[i].alignment > 0)
    && forall k :: 0 <= k < |requests| ==> Legal(Run(initial, requests[..k]).0, requests[k])
  }

  lemma LegalShorter(initial: nat, requests: seq<Request>)
    requires LegalRun(initial, requests) && requests != []
    ensures LegalRun(initial, requests[..|requests| - 1])
    ensures Legal(Run(initial, requests[..|requests| - 1]).0, requests[|requests| - 1])
  {
    var n := |requests| - 1;
    forall k | 0 <= k < n
      ensures requests[..n][..k] == requests[..k] && requests[..n][k] == requests[k]
    {
    }
  }

  /** The last step of a run. */
  lemma RunUnfolds(initial: nat, requests: seq<Request>)
    requires LegalRun(initial, requests) && requests != []
    ensures LegalRun(initial, requests[..|requests| - 1])
    ensures var n := |requests| - 1;
      var (a, blocks) := Run(initial, requests[..n]);
      Run(initial, requests) == (Allocate(a, requests[n]).0, blocks + [Allocate(a, requests[n]).1])
  {
    LegalShorter(initial, requests);
  }

  lemma StepOk(a: Arena, blocks: seq<Block>, requests: seq<Request>, all: seq<Request>)
    requires all != [] && all[..|all| - 1] == requests
    requires Legal(a, all[|all| - 1]) && Ok(a, blocks, requests)
    ensures Ok(Allocate(a, all[|all| - 1]).0, blocks + [Allocate(a, all[|all| - 1]).1], all)
  {
    AllocateOk(a, all[|all| - 1], blocks, requests);
    assert all == requests + [all[|all| - 1]];
  }

  lemma {:induction false} RunOk(initial: nat, requests: seq<Request>)
    requires LegalRun(initial, requests)
    ensures Ok(Run(initial, requests).0, Run(initial, requests).1, requests)
  {
    if requests != [] {
      var n := |requests| - 1;
      RunUnfolds(initial, requests);
      LegalShorter(initial, requests);
      RunOk(initial, requests[..n]);
      var (a, blocks) := Run(initial, requests[..n]);
      StepOk(a, blocks, requests[..n], requests);
    }
  }

  /** Any two blocks handed out in a run are aligned as asked for, of the size asked for, inside one owned buffer each, and
      disjoint. */
  lemma BlocksAreGood(initial: nat, requests: seq<Request>, i: nat, j: nat)
    requires LegalRun(initial, requests) && i < j < |requests|
    ensures var (a, blocks) := Run(initial, requests);
      && |blocks| == |requests| && Disjoint(blocks[i], blocks[j])
      && blocks[i].size == requests[i].bytes && Aligned(blocks[i].addr, requests[i].alignment)
      && exists k :: 0 <= k < |a.buffers| && Inside(blocks[i], a.buffers[k])
  {
    RunOk(initial, requests);
    var (a, blocks) := Run(initial, requests);
    assert BlockOk(a, blocks[i], requests[i]);
  }

  /** Buffers stay where they are and blocks stay valid: a longer run only adds to both. */
  lemma {:induction false} RunExtends(initial: nat, requests: seq<Request>, k: nat)
    requires LegalRun(initial, requests) && k <= |requests|
    ensures Run(initial, requests[..k]).0.buffers <= Run(initial, requests).0.buffers
    ensures Run(initial, requests[..k]).1 <= Run(initial, requests).1
    decreases |requests|
  {
    if k < |requests| {
      var n := |requests| - 1;
      RunUnfolds(initial, requests);
      RunExtends(initial, requests[..n], k);
      assert requests[..n][..k] == requests[..k];
    } else {
      assert requests[..k] == requests;
    }
  }

  // ---------------------------------------------------------------------------------------------
  // When a buffer is added, and how large it is

  /** Some block of the size asked for lies, aligned, in the free rest. */
  ghost predicate HasRoom(a: Arena, r: Request)
    requires r.alignment > 0
  {
    exists p: nat :: Aligned(p, r.alignment) && a.current <= p && p + r.bytes <= a.current + a.available
  }

  /** A buffer is added exactly if no block of the size asked for lies, aligned, in the free rest; and if one does, the first
      one is taken. */
  lemma BufferExactlyWhen(a: Arena, r: Request)
    requires r.alignment > 0
    ensures |Allocate(a, r).0.buffers| == |a.buffers| + (if HasRoom(a, r) then 0 else 1)
    ensures HasRoom(a, r) ==> Allocate(a, r).0.buffers == a.buffers && forall p: nat ::
      Aligned(p, r.alignment) && a.current <= p ==> Allocate(a, r).1.addr <= p
  {
    AlignUpIsFirst(a.current, r.alignment);
    if Fits(a, r) {
      assert HasRoom(a, r);
    }
  }

  /** Each buffer is half as large again as the one before it, or larger because a single block needs it. */
  ghost predicate SizesGrow(a: Arena, initial: nat, requests: seq<Request>) {
    && (a.buffers == [] ==> a.nextSize == initial)
    && (a.buffers != [] ==> a.nextSize == a.buffers[|a.buffers| - 1].size * 3 / 2 && IsSize(a.buffers[0].size, initial, requests))
    && forall k :: 0 < k < |a.buffers| ==> IsSize(a.buffers[k].size, a.buffers[k - 1].size * 3 / 2, requests)
  }

  ghost predicate IsSize(size: nat, planned: nat, requests: seq<Request>) {
    size >= planned && (size == planned || exists i :: 0 <= i < |requests| && requests[i].bytes == size)
  }

  lemma IsSizeMore(size: nat, planned: nat, requests: seq<Request>, r: Request)
    requires IsSize(size, planned, requests)
    ensures IsSize(size, planned, requests + [r])
  {
    if i :| 0 <= i < |requests| && requests[i].bytes == size {
      assert (requests + [r])[i].bytes == size;
    }
  }

  lemma NewSize(planned: nat, requests: seq<Request>, r: Request)
    ensures IsSize(Max(planned, r.bytes), planned, requests + [r])
  {
    assert (requests + [r])[|requests|] == r;
  }

  lemma SizesGrowMore(a: Arena, r: Request, initial: nat, requests: seq<Request>)
    requires r.alignment > 0 && SizesGrow(a, initial, requests)
    ensures SizesGrow(Allocate(a, r).0, initial, requests + [r])
  {
    var a' := Allocate(a, r).0;
    NewSize(a.nextSize, requests, r);
    if a.buffers != [] {
      IsSizeMore(a.buffers[0].size, initial, requests, r);
    }
    forall k | 0 < k < |a.buffers|
      ensures IsSize(a.buffers[k].size, a.buffers[k - 1].size * 3 / 2, requests + [r])
    {
      IsSizeMore(a.buffers[k].size, a.buffers[k - 1].size * 3 / 2, requests, r);
    }
  }

  lemma StepSizesGrow(a: Arena, initial: nat, requests: seq<Request>, all: seq<Request>)
    requires all != [] && all[..|all| - 1] == requests && all[|all| - 1].alignment > 0
    requires SizesGrow(a, initial, requests)
    ensures SizesGrow(Allocate(a, all[|all| - 1]).0, initial, all)
  {
    SizesGrowMore(a, all[|all| - 1], initial, requests);
    assert all == requests + [all[|all| - 1]];
  }

  /** In every run the sizes of the buffers grow geometrically. */
  lemma {:induction false} RunSizesGrow(initial: nat, requests: seq<Request>)
    requires LegalRun(initial, requests)
    ensures SizesGrow(Run(initial, requests).0, initial, requests)
  {
    if requests != [] {
      var n := |requests| - 1;
      RunUnfolds(initial, requests);
      RunSizesGrow(initial, requests[..n]);
      StepSizesGrow(Run(initial, requests[..n]).0, initial, requests[..n], requests);
    }
  }

  // ---------------------------------------------------------------------------------------------
  // The arena as an object

  class Buffer {
    var currentBuf: nat
    var nextBufferSize: nat
    var available: nat
    var buffers: seq<Block>
    // every block handed out, and what was asked for
    ghost var blocks: seq<Block>
    ghost var requests: seq<Request>

    ghost function Value(): Arena
      reads this
    {
      Arena(buffers, currentBuf, available, nextBufferSize)
    }

    ghost predicate Valid()
      reads this
    {
      Ok(Value(), blocks, requests)
    }

    constructor (initialSize: nat)
      ensures Valid() && Value() == Arena([], 0, 0, initialSize) && blocks == [] && requests == []
    {
      currentBuf, nextBufferSize, available, buffers := 0, initialSize, 0, [];
      blocks, requests := [], [];
    }

    /** `allocate`; `newAt` is where the system would place a new buffer. */
    method AllocateBlock(bytes: nat, alignment: nat, newAt: nat) returns (p: nat)
      requires Valid() && Legal(Value(), Request(bytes, alignment, newAt))
      modifies this
      ensures Valid()
      ensures Allocate(old(Value()), Request(bytes, alignment, newAt)) == (Value(), Block(p, bytes))
      ensures blocks == old(blocks) + [Block(p, bytes)] && requests == old(requests) + [Request(bytes, alignment, newAt)]
      ensures old(buffers) <= buffers
    {
      ghost var r := Request(bytes, alignment, newAt);
      AllocateOk(Value(), r, blocks, requests);
      var aligned := AlignUp(currentBuf, alignment);
      if aligned + bytes <= currentBuf + available {
        available := available - (aligned - currentBuf);
        currentBuf := aligned;
        p := aligned;
      } else {
        nextBufferSize := Max(nextBufferSize, bytes);
        available := nextBufferSize;
        currentBuf := newAt;
        buffers := buffers + [Block(newAt, nextBufferSize)];
        nextBufferSize := Grown(nextBufferSize);
        p := currentBuf;
      }
      currentBuf := currentBuf + bytes;
      available := available - bytes;
      blocks := blocks + [Block(p, bytes)];
      requests := requests + [r];
    }
  }
}
