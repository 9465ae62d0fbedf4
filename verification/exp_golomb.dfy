/** The ue(v) code: unsigned integers as 0-th order Exp-Golomb codes (clause 9.2 of ITU-T H.265), and its decoder `get_ue`
    (tools/lib/vidindex.py). */
module ExpGolomb {
  import opened Helpers

  type byte = b: int | 0 <= b < 256
  type bit = b: int | 0 <= b < 2

  function Pow2(n: nat): (p: nat)
    ensures p > 0
  {
    if n == 0 then 1 else 2 * Pow2(n - 1)
  }

  /** `(b >> j) & 1`. */
  function BitOf(b: byte, j: nat): bit {
    if j == 0 then b % 2 else BitOf(b / 2, j - 1)
  }

  /** The bits of a byte string, the most significant bit of each byte first. */
  function Bits(dat: seq<byte>): (r: seq<bit>)
    ensures |r| == 8 * |dat|
  {
    seq(8 * |dat|, k requires 0 <= k < 8 * |dat| => BitOf(dat[k / 8], 7 - k % 8))
  }

  // ---------------------------------------------------------------------------------------------
  // The code

  function Zeros(n: nat): seq<bit> { seq(n, _ => 0) }

  /** The `n` low bits of `v`, the most significant first. */
  function Binary(v: nat, n: nat): (r: seq<bit>)
    ensures |r| == n
  {
    if n == 0 then [] else Binary(v / 2, n - 1) + [v % 2]
  }

  /** The number a bit string denotes. */
  function Value(bits: seq<bit>): nat {
    if bits == [] then 0 else 2 * Value(bits[..|bits| - 1]) + bits[|bits| - 1]
  }

  function Log2(v: nat): nat
    requires v > 0
  {
    if v == 1 then 0 else 1 + Log2(v / 2)
  }

  /** The code of `v`: the binary form of v + 1 behind as many zeros as it has bits after the first. */
  function Code(v: nat): seq<bit> {
    Zeros(Log2(v + 1)) + Binary(v + 1, Log2(v + 1) + 1)
  }

  lemma {:induction false} Log2Bounds(v: nat)
    requires v > 0
    ensures Pow2(Log2(v)) <= v < 2 * Pow2(Log2(v))
  {
    if v > 1 {
      Log2Bounds(v / 2);
    }
  }

  lemma {:induction false} Log2Unique(v: nat, n: nat)
    requires Pow2(n) <= v < 2 * Pow2(n)
    ensures Log2(v) == n
  {
    if n > 0 {
      Log2Unique(v / 2, n - 1);
    }
  }

  lemma {:induction false} ValueOfBinary(v: nat, n: nat)
    requires v < Pow2(n)
    ensures Value(Binary(v, n)) == v
  {
    if n > 0 {
      ValueOfBinary(v / 2, n - 1);
      assert Binary(v, n)[..n - 1] == Binary(v / 2, n - 1);
    }
  }

  lemma {:induction false} ValueBound(bits: seq<bit>)
    ensures Value(bits) < Pow2(|bits|)
  {
    if bits != [] {
      ValueBound(bits[..|bits| - 1]);
    }
  }

  lemma {:induction false} BinaryOfValue(bits: seq<bit>)
    ensures Binary(Value(bits), |bits|) == bits
  {
    if bits != [] {
      BinaryOfValue(bits[..|bits| - 1]);
    }
  }

  lemma {:induction false} ValueOfOne(bits: seq<bit>)
    ensures Value([1] + bits) == Pow2(|bits|) + Value(bits)
  {
    if bits != [] {
      var n := |bits| - 1;
      ValueOfOne(bits[..n]);
      assert ([1] + bits)[..n + 1] == [1] + bits[..n];
    } else {
      assert ([1] + bits)[..0] == [];
    }
  }

  // ---------------------------------------------------------------------------------------------
  // Decoding

  /** Number of leading zeros. */
  function LeadingZeros(bits: seq<bit>): (z: nat) {
    if bits == [] || bits[0] == 1 then 0 else 1 + LeadingZeros(bits[1..])
  }

  lemma {:induction false} LeadingZerosFacts(bits: seq<bit>, k: nat)
    requires k < |bits|
    ensures k < LeadingZeros(bits) ==> bits[k] == 0
    ensures k == LeadingZeros(bits) ==> bits[k] == 1
  {
    if bits[0] == 0 && k > 0 {
      LeadingZerosFacts(bits[1..], k - 1);
    }
  }

  /** What a bit string starts with: the value and the length of its code, or nothing when the bits run out. */
  function Decode(bits: seq<bit>): Option<(nat, nat)> {
    var z := LeadingZeros(bits);
    if 2 * z + 1 <= |bits| then Some((Pow2(z) - 1 + Value(bits[z + 1..2 * z + 1]), 2 * z + 1)) else None
  }

  lemma {:induction false} LeadingZerosOf(n: nat, rest: seq<bit>)
    requires rest != [] && rest[0] == 1
    ensures LeadingZeros(Zeros(n) + rest) == n
  {
    if n > 0 {
      assert (Zeros(n) + rest)[1..] == Zeros(n - 1) + rest;
      LeadingZerosOf(n - 1, rest);
    } else {
      assert Zeros(n) + rest == rest;
    }
  }

  lemma {:induction false} BinaryStartsWithOne(v: nat)
    requires v > 0
    ensures Binary(v, Log2(v) + 1)[0] == 1
  {
    if v > 1 {
      BinaryStartsWithOne(v / 2);
      assert Binary(v, Log2(v) + 1)[..Log2(v)] == Binary(v / 2, Log2(v));
    } else {
      assert Binary(v, 1) == [] + [1];
    }
  }

  /** The code of a value, spelled out: `z` zeros, a one, and the `z` bits in which the value differs from Pow2(z) - 1. */
  lemma CodeOf(v: nat, z: nat, suffix: seq<bit>)
    requires |suffix| == z && v == Pow2(z) - 1 + Value(suffix)
    ensures Code(v) == Zeros(z) + [1] + suffix
  {
    ValueBound(suffix);
    Log2Unique(v + 1, z);
    assert Binary(v + 1, z + 1) == [1] + suffix by {
      ValueOfOne(suffix);
      BinaryOfValue([1] + suffix);
    }
    assert Code(v) == Zeros(z) + ([1] + suffix);
  }

  lemma CodeParts(v: nat) returns (suffix: seq<bit>)
    ensures |suffix| == Log2(v + 1) && Code(v) == Zeros(Log2(v + 1)) + [1] + suffix
    ensures v == Pow2(Log2(v + 1)) - 1 + Value(suffix)
  {
    var z := Log2(v + 1);
    var b := Binary(v + 1, z + 1);
    suffix := b[1..];
    BinaryStartsWithOne(v + 1);
    assert b == [1] + suffix;
    Log2Bounds(v + 1);
    ValueOfBinary(v + 1, z + 1);
    ValueOfOne(suffix);
  }

  lemma PartsOf(zeros: seq<bit>, suffix: seq<bit>, rest: seq<bit>)
    requires |zeros| == |suffix|
    ensures var bits := zeros + [1] + suffix + rest;
      && bits == zeros + ([1] + suffix + rest)
      && bits[|suffix| + 1..2 * |suffix| + 1] == suffix
  {
  }

  lemma DecodeOfParts(z: nat, suffix: seq<bit>, rest: seq<bit>)
    requires |suffix| == z
    ensures Decode(Zeros(z) + [1] + suffix + rest) == Some((Pow2(z) - 1 + Value(suffix), 2 * z + 1))
  {
    PartsOf(Zeros(z), suffix, rest);
    LeadingZerosOf(z, [1] + suffix + rest);
  }

  /** Round trip: whatever follows the code of `v`, decoding yields `v` and the length of the code. */
  lemma DecodeOfCode(v: nat, rest: seq<bit>)
    ensures Decode(Code(v) + rest) == Some((v, |Code(v)|))
    ensures |Code(v)| == 2 * Log2(v + 1) + 1
  {
    var suffix := CodeParts(v);
    DecodeOfParts(Log2(v + 1), suffix, rest);
  }

  /** Conversely, what decoding consumes is the code of the value it yields. */
  lemma DecodeConsumesCode(bits: seq<bit>)
    requires Decode(bits).Some?
    ensures var (v, size) := Decode(bits).value; size <= |bits| && bits[..size] == Code(v)
  {
    var z := LeadingZeros(bits);
    var suffix := bits[z + 1..2 * z + 1];
    LeadingZerosSplit(bits, z);
    CodeOf(Decode(bits).value.0, z, suffix);
    assert bits[..2 * z + 1] == bits[..z + 1] + suffix;
  }

  lemma LeadingZerosSplit(bits: seq<bit>, z: nat)
    requires z == LeadingZeros(bits) && z < |bits|
    ensures bits[..z + 1] == Zeros(z) + [1]
  {
    forall k | 0 <= k <= z
      ensures bits[k] == if k < z then 0 else 1
    {
      LeadingZerosFacts(bits, k);
    }
  }

  /** Decoding fails exactly when no code is a prefix of the bits. */
  lemma DecodeFailsOnlyWithoutCode(bits: seq<bit>)
    ensures Decode(bits) == None <==> forall v :: !(Code(v) <= bits)
  {
    if Decode(bits).Some? {
      DecodeConsumesCode(bits);
      var (v, size) := Decode(bits).value;
      assert Code(v) <= bits;
    } else if v :| Code(v) <= bits {
      assert bits == Code(v) + bits[|Code(v)|..];
      DecodeOfCode(v, bits[|Code(v)|..]);
    }
  }

  /** No code is a prefix of another. */
  lemma CodesArePrefixFree(v: nat, w: nat)
    requires Code(v) <= Code(w)
    ensures v == w
  {
    DecodeOfCode(v, Code(w)[|Code(v)|..]);
    DecodeOfCode(w, []);
    assert Code(w) == Code(v) + Code(w)[|Code(v)|..];
    assert Code(w) + [] == Code(w);
  }

  // ---------------------------------------------------------------------------------------------
  // The decoder of the source

  /** The bits `get_ue` looks at. */
  function BitsAfter(dat: seq<byte>, start: nat, skip: nat): seq<bit> {
    if start <= |dat| && skip <= 8 * (|dat| - start) then Bits(dat[start..])[skip..] else []
  }

  /** Where the decoder stands after `e` of the bits: still among the leading zeros, or behind the first one with fewer
      suffix bits read than there are to read. */
  ghost predicate Progress(bits: seq<bit>, e: nat, prefixVal: bit, prefixLen: nat, suffixVal: nat, suffixLen: nat) {
    && e <= |bits|
    && (prefixVal == 0 ==>
        prefixLen == e && suffixVal == 0 && suffixLen == 0 && forall k :: 0 <= k < e ==> bits[k] == 0)
    && (prefixVal == 1 ==>
        && 1 <= prefixLen <= e && suffixLen == e - prefixLen && suffixLen < prefixLen - 1
        && LeadingZeros(bits) == prefixLen - 1 && suffixVal == Value(bits[prefixLen..e]))
  }

  lemma {:induction false} LeadingZerosAt(bits: seq<bit>, e: nat)
    requires e < |bits| && bits[e] == 1 && forall k :: 0 <= k < e ==> bits[k] == 0
    ensures LeadingZeros(bits) == e
  {
    if e > 0 {
      LeadingZerosAt(bits[1..], e - 1);
    }
  }

  lemma {:induction false} LeadingZerosAll(bits: seq<bit>)
    requires forall k :: 0 <= k < |bits| ==> bits[k] == 0
    ensures LeadingZeros(bits) == |bits|
  {
    if bits != [] {
      LeadingZerosAll(bits[1..]);
    }
  }

  /** One more suffix bit. */
  lemma ValueOfNext(bits: seq<bit>, from: nat, e: nat)
    requires from <= e < |bits|
    ensures Value(bits[from..e + 1]) == 2 * Value(bits[from..e]) + bits[e]
  {
    assert bits[from..e + 1][..e - from] == bits[from..e];
  }

  lemma BitsIndex(dat: seq<byte>, i: nat, j: nat)
    requires i < |dat| && j < 8
    ensures Bits(dat)[8 * i + 7 - j] == BitOf(dat[i], j)
  {
    var m := 8 * i + 7 - j;
    assert m / 8 == i && m % 8 == 7 - j;
  }

  lemma BitAt(dat: seq<byte>, start: nat, skip: nat, i: nat, j: nat, m: nat)
    requires start <= i < |dat| && j < 8 && m == 8 * (i - start) + 7 - j && skip <= m
    ensures m - skip < |BitsAfter(dat, start, skip)|
    ensures BitsAfter(dat, start, skip)[m - skip] == BitOf(dat[i], j)
  {
    BitsIndex(dat[start..], i - start, j);
    assert |Bits(dat[start..])| == 8 * (|dat| - start);
    assert BitsAfter(dat, start, skip)[m - skip] == Bits(dat[start..])[m];
  }

  /** The decoder's variables: bits still to be passed over, then the prefix and the suffix read so far. */
  datatype Vars = Vars(skip: nat, prefixVal: bit, prefixLen: nat, suffixVal: nat, suffixLen: nat)

  /** The variables after `m` bits of the data, of which the first `skipBits` are passed over. */
  ghost predicate Scanned(bits: seq<bit>, skipBits: nat, m: nat, v: Vars) {
    if m < skipBits then v == Vars(skipBits - m, 0, 0, 0, 0)
    else v.skip == 0 && Progress(bits, m - skipBits, v.prefixVal, v.prefixLen, v.suffixVal, v.suffixLen)
  }

  predicate Complete(v: Vars) { v.prefixVal == 1 && v.prefixLen - 1 == v.suffixLen }

  function Answer(v: Vars): (nat, nat)
    requires Complete(v)
  {
    (Pow2(v.prefixLen - 1) - 1 + v.suffixVal, v.prefixLen + v.suffixLen)
  }

  /** What the loop body does with one bit: it is passed over, or belongs to the prefix, or to the suffix. */
  function Feed(v: Vars, b: bit): Vars {
    if v.skip > 0 then v.(skip := v.skip - 1)
    else if v.prefixVal == 0 then v.(prefixVal := b, prefixLen := v.prefixLen + 1)
    else v.(suffixVal := 2 * v.suffixVal + b, suffixLen := v.suffixLen + 1)
  }

  lemma PrefixStep(bits: seq<bit>, e: nat, prefixLen: nat)
    requires Progress(bits, e, 0, prefixLen, 0, 0) && e < |bits|
    ensures bits[e] == 0 ==> Progress(bits, e + 1, 0, prefixLen + 1, 0, 0)
    ensures bits[e] == 1 && prefixLen > 0 ==> Progress(bits, e + 1, 1, prefixLen + 1, 0, 0)
    ensures bits[e] == 1 && prefixLen == 0 ==> Decode(bits) == Some((0, 1))
  {
    if bits[e] == 1 {
      LeadingZerosAt(bits, e);
      assert bits[e + 1..e + 1] == [];
    }
  }

  lemma SuffixStep(bits: seq<bit>, e: nat, prefixLen: nat, suffixVal: nat, suffixLen: nat)
    requires Progress(bits, e, 1, prefixLen, suffixVal, suffixLen) && e < |bits|
    ensures suffixLen + 1 < prefixLen - 1 ==>
      Progress(bits, e + 1, 1, prefixLen, 2 * suffixVal + bits[e], suffixLen + 1)
    ensures suffixLen + 1 == prefixLen - 1 ==>
      Decode(bits) == Some((Pow2(prefixLen - 1) - 1 + 2 * suffixVal + bits[e], prefixLen + suffixLen + 1))
  {
    ValueOfNext(bits, prefixLen, e);
    if suffixLen + 1 == prefixLen - 1 {
      assert bits[prefixLen..e + 1] == bits[prefixLen..2 * prefixLen - 1];
    }
  }

  lemma OutOfBits(bits: seq<bit>, prefixVal: bit, prefixLen: nat, suffixVal: nat, suffixLen: nat)
    requires Progress(bits, |bits|, prefixVal, prefixLen, suffixVal, suffixLen)
    ensures Decode(bits) == None
  {
    if prefixVal == 0 {
      LeadingZerosAll(bits);
    }
  }

  lemma FeedStep(bits: seq<bit>, skipBits: nat, m: nat, v: Vars, b: bit)
    requires Scanned(bits, skipBits, m, v)
    requires m >= skipBits ==> m - skipBits < |bits| && bits[m - skipBits] == b
    ensures var w := Feed(v, b);
      if Complete(w) then Decode(bits) == Some(Answer(w)) else Scanned(bits, skipBits, m + 1, w)
  {
    if m >= skipBits {
      if v.prefixVal == 0 {
        PrefixStep(bits, m - skipBits, v.prefixLen);
      } else {
        SuffixStep(bits, m - skipBits, v.prefixLen, v.suffixVal, v.suffixLen);
      }
    }
  }

  lemma Exhausted(bits: seq<bit>, skipBits: nat, m: nat, v: Vars)
    requires Scanned(bits, skipBits, m, v)
    requires |bits| == if m < skipBits then 0 else m - skipBits
    ensures Decode(bits) == None
  {
    if m >= skipBits {
      OutOfBits(bits, v.prefixVal, v.prefixLen, v.suffixVal, v.suffixLen);
    }
  }

  /** `bits` are the bits of the data from byte `start` on, without the first `skipBits`. */
  ghost predicate AreBits(dat: seq<byte>, start: nat, skipBits: nat, bits: seq<bit>) {
    && |bits| == (if start <= |dat| && skipBits <= 8 * (|dat| - start) then 8 * (|dat| - start) - skipBits else 0)
    && forall i: nat, j: nat :: start <= i < |dat| && j < 8 && skipBits <= 8 * (i - start) + 7 - j ==>
         bits[8 * (i - start) + 7 - j - skipBits] == BitOf(dat[i], j)
  }

  lemma BitsAfterAreBits(dat: seq<byte>, start: nat, skipBits: nat)
    ensures AreBits(dat, start, skipBits, BitsAfter(dat, start, skipBits))
  {
    forall i: nat, j: nat | start <= i < |dat| && j < 8 && skipBits <= 8 * (i - start) + 7 - j
      ensures BitsAfter(dat, start, skipBits)[8 * (i - start) + 7 - j - skipBits] == BitOf(dat[i], j)
    {
      BitAt(dat, start, skipBits, i, j, 8 * (i - start) + 7 - j);
    }
  }

  /** The two loops of `get_ue`. */
  method Scan(dat: seq<byte>, start: nat, skipBits: nat, ghost bits: seq<bit>) returns (r: Option<(nat, nat)>)
    requires AreBits(dat, start, skipBits, bits)
    ensures r == Decode(bits)
  {
    var v := Vars(skipBits, 0, 0, 0, 0);
    ghost var m: nat := 0;
    var i := start;
    while i < |dat|
      invariant start <= i && (start <= |dat| ==> i <= |dat|) && m == 8 * (i - start)
      invariant Scanned(bits, skipBits, m, v)
    {
      var j := 7;
      while j >= 0
        invariant -1 <= j <= 7 && m == 8 * (i - start) + 7 - j
        invariant Scanned(bits, skipBits, m, v)
        decreases j
      {
        FeedStep(bits, skipBits, m, v, BitOf(dat[i], j));
        v := Feed(v, BitOf(dat[i], j));
        j := j - 1;
        m := m + 1;
        if Complete(v) {
          return Some(Answer(v));
        }
      }
      i := i + 1;
    }
    Exhausted(bits, skipBits, m, v);
    return None;
  }

  /** `get_ue`; `None` stands for the exception it raises. */
  method GetUe(dat: seq<byte>, start: nat, skipBits: nat) returns (r: Option<(nat, nat)>)
    ensures r == Decode(BitsAfter(dat, start, skipBits))
  {
    BitsAfterAreBits(dat, start, skipBits);
    r := Scan(dat, start, skipBits, BitsAfter(dat, start, skipBits));
  }
}
