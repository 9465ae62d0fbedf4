/** The index of an HEVC byte stream: its NAL units, its frames and its parameter sets (`hevc_index`, tools/lib/vidindex.py;
    Annex B and clause 7.3.1.2 of ITU-T H.265). */
module HevcIndex {
  import opened Helpers
  import opened ExpGolomb

  const NAL_UNIT_START_CODE_SIZE := 3
  const NAL_UNIT_HEADER_SIZE := 2

  predicate StartCodeAt(dat: seq<byte>, p: nat) {
    p + NAL_UNIT_START_CODE_SIZE <= |dat| && dat[p] == 0 && dat[p + 1] == 0 && dat[p + 2] == 1
  }

  /** `dat.index(START_CODE, from)`, or the length of the data when there is none. */
  function NextStart(dat: seq<byte>, from: nat): (p: nat)
    ensures p <= |dat| || p == from
    ensures from <= p
    ensures p < |dat| ==> StartCodeAt(dat, p)
    ensures forall q :: from <= q < p ==> !StartCodeAt(dat, q)
    decreases |dat| - from
  {
    if from >= |dat| || StartCodeAt(dat, from) then from else NextStart(dat, from + 1)
  }

  // ---------------------------------------------------------------------------------------------
  // One NAL unit

  /** `get_hevc_nal_unit_type`: the type, unless the data end before the header does. */
  function UnitType(dat: seq<byte>, p: nat): Option<nat> {
    if p + NAL_UNIT_START_CODE_SIZE + NAL_UNIT_HEADER_SIZE <= |dat| then Some(dat[p + NAL_UNIT_START_CODE_SIZE] / 2 % 64) else None
  }

  predicate IsParameterSet(t: nat) { 32 <= t <= 34 }

  /** The types the source takes for coded slice segments. */
  predicate IsCodedSlice(t: nat) { t <= 9 || 16 <= t <= 21 }

  /** What a unit contributes to the index: nothing, its bytes to the prefix, or a frame; or it is malformed. */
  datatype Kind = Malformed | Ignored | ParameterSet | Frame(sliceType: nat)

  /** What `get_ue` yields at each bit offset behind a header. */
  type Reader = nat -> Option<(nat, nat)>

  function UeAt(dat: seq<byte>, rbsp: nat): Reader {
    (skipBits: nat) => Decode(BitsAfter(dat, rbsp, skipBits))
  }

  /** The slice type, coded as ue(v) at a bit offset; only 0, 1 and 2 are allowed. */
  function SliceTypeAt(ue: Reader, skipBits: nat): Kind {
    match ue(skipBits)
    case None => Malformed
    case Some(slice) => if slice.0 > 2 then Malformed else Frame(slice.0)
  }

  /** What follows the flags of a first slice segment: the number of a parameter set as ue(v), then the slice type. */
  function FirstSliceAt(ue: Reader, skipBits: nat): Kind {
    match ue(skipBits)
    case None => Malformed
    case Some(pps) => SliceTypeAt(ue, skipBits + pps.1)
  }

  /** `get_hevc_slice_type`: only a first slice segment makes a frame; for some types a second flag follows the first. */
  function SliceKind(dat: seq<byte>, p: nat, t: nat): Kind {
    var rbsp := p + NAL_UNIT_START_CODE_SIZE + NAL_UNIT_HEADER_SIZE;
    if rbsp >= |dat| then Malformed
    else if dat[rbsp] < 128 then Ignored
    else FirstSliceAt(UeAt(dat, rbsp), if 16 <= t <= 23 then 2 else 1)
  }

  function UnitKind(dat: seq<byte>, p: nat): Kind {
    match UnitType(dat, p)
    case None => Malformed
    case Some(t) =>
      if IsParameterSet(t) then ParameterSet
      else if IsCodedSlice(t) then SliceKind(dat, p, t)
      else Ignored
  }

  /** What stands at each position, if it is taken for the start of a unit. */
  type Kinds = nat -> Kind

  function KindsOf(dat: seq<byte>): Kinds {
    (p: nat) => UnitKind(dat, p)
  }

  // ---------------------------------------------------------------------------------------------
  // One NAL unit, read off its bits

  /** The bits behind the start code of a unit. */
  function UnitBits(dat: seq<byte>, p: nat): seq<bit>
    requires p + NAL_UNIT_START_CODE_SIZE <= |dat|
  {
    Bits(dat[p + NAL_UNIT_START_CODE_SIZE..])
  }

  predicate HasHeader(dat: seq<byte>, p: nat) {
    p + NAL_UNIT_START_CODE_SIZE + NAL_UNIT_HEADER_SIZE <= |dat|
  }

  /** nal_unit_type: the six bits behind the first one (clause 7.3.1.2 of ITU-T H.265). */
  function TypeBits(dat: seq<byte>, p: nat): nat
    requires HasHeader(dat, p)
  {
    Value(UnitBits(dat, p)[1..7])
  }

  /** The bits behind the header of a unit. */
  function SliceBits(dat: seq<byte>, p: nat): seq<bit>
    requires HasHeader(dat, p)
  {
    Bits(dat[p + NAL_UNIT_START_CODE_SIZE + NAL_UNIT_HEADER_SIZE..])
  }

  /** The flags at the beginning of a slice segment header: one, and a second one for types 16 to 23. */
  function Flags(t: nat): nat { if 16 <= t <= 23 then 2 else 1 }

  /** The bits begin a first slice segment (clause 7.3.6.1 of ITU-T H.265): a set first flag, the other flags, the code of some
      parameter set number, and the code of the slice type. */
  ghost predicate FirstSlice(bits: seq<bit>, flags: nat, sliceType: nat) {
    exists other: seq<bit>, pps: nat, rest: seq<bit> ::
      SliceLayout(bits, flags, other, pps, sliceType, rest)
  }

  ghost predicate SliceLayout(bits: seq<bit>, flags: nat, other: seq<bit>, pps: nat, sliceType: nat, rest: seq<bit>) {
    |other| + 1 == flags && bits == [1] + other + (Code(pps) + (Code(sliceType) + rest))
  }

  /** The types of coded slices that are not reserved (table 7-1 of ITU-T H.265): 0 to 9 and 16 to 21. */
  predicate HoldsSlice(t: nat) { t in {0, 1, 2, 3, 4, 5, 6, 7, 8, 9, 16, 17, 18, 19, 20, 21} }

  /** A coded slice whose bits begin a first slice segment of type B, P or I. */
  ghost predicate FrameAt(dat: seq<byte>, p: nat, sliceType: nat) {
    && HasHeader(dat, p) && HoldsSlice(TypeBits(dat, p))
    && FirstSlice(SliceBits(dat, p), Flags(TypeBits(dat, p)), sliceType) && sliceType <= 2
  }

  /** The header is missing, or a coded slice has no bits, or says that it is a first slice segment and is none of type B, P
      or I. */
  ghost predicate MalformedAt(dat: seq<byte>, p: nat) {
    || !HasHeader(dat, p)
    || (HoldsSlice(TypeBits(dat, p)) &&
        (|| SliceBits(dat, p) == []
         || (SliceBits(dat, p)[0] == 1 && forall t :: !FrameAt(dat, p, t))))
  }

  lemma {:induction false} BinaryBits(v: nat, n: nat, b: byte, k: nat)
    requires k < n && v == b
    ensures Binary(v, n)[k] == BitOf(b, n - 1 - k)
  {
    if k < n - 1 {
      BinaryBits(v / 2, n - 1, b / 2, k);
    }
  }

  lemma {:induction false} ValueOfZero(bits: seq<bit>)
    ensures Value([0] + bits) == Value(bits)
  {
    if bits != [] {
      var n := |bits| - 1;
      ValueOfZero(bits[..n]);
      assert ([0] + bits)[..n + 1] == [0] + bits[..n];
    }
  }

  lemma LowSixBits(v: nat, bits: seq<bit>)
    requires v < 128 && |bits| == 7 && bits == Binary(v, 7)
    ensures Value(bits[1..7]) == v % 64
  {
    var low := bits[1..7];
    assert Pow2(6) == 64 && Pow2(7) == 128;
    ValueOfBinary(v, 7);
    ValueBound(low);
    if bits[0] == 1 {
      assert bits == [1] + low;
      ValueOfOne(low);
    } else {
      assert bits == [0] + low;
      ValueOfZero(low);
    }
  }

  lemma HeaderBits(dat: seq<byte>, p: nat)
    requires HasHeader(dat, p)
    ensures UnitBits(dat, p)[..7] == Binary(dat[p + NAL_UNIT_START_CODE_SIZE] / 2, 7)
  {
    var q := p + NAL_UNIT_START_CODE_SIZE;
    var b := dat[q];
    var bits := UnitBits(dat, p);
    assert dat[q..][0] == b;
    forall k | 0 <= k < 7
      ensures bits[..7][k] == Binary(b / 2, 7)[k]
    {
      BitsIndex(dat[q..], 0, 7 - k);
      BinaryBits(b / 2, 7, b / 2, k);
    }
  }

  /** The type the parser computes is the one the bits stand for. */
  lemma TypeIsTypeBits(dat: seq<byte>, p: nat)
    requires HasHeader(dat, p)
    ensures UnitType(dat, p) == Some(TypeBits(dat, p))
  {
    HeaderBits(dat, p);
    LowSixBits(dat[p + NAL_UNIT_START_CODE_SIZE] / 2, UnitBits(dat, p)[..7]);
    assert UnitBits(dat, p)[..7][1..7] == UnitBits(dat, p)[1..7];
  }

  lemma FirstBit(dat: seq<byte>, p: nat)
    requires HasHeader(dat, p) && p + NAL_UNIT_START_CODE_SIZE + NAL_UNIT_HEADER_SIZE < |dat|
    ensures |SliceBits(dat, p)| >= 8
    ensures SliceBits(dat, p)[0] == 1 <==> dat[p + NAL_UNIT_START_CODE_SIZE + NAL_UNIT_HEADER_SIZE] >= 128
  {
    var q := p + NAL_UNIT_START_CODE_SIZE + NAL_UNIT_HEADER_SIZE;
    var b := dat[q];
    assert dat[q..][0] == b;
    BitsIndex(dat[q..], 0, 7);
    TopBit(b);
  }

  lemma BitOfQuarter(b: byte, j: nat)
    ensures BitOf(b, j + 2) == BitOf(b / 4, j)
  {
    assert BitOf(b, j + 2) == BitOf(b / 2, j + 1);
  }

  lemma TopBit(b: byte)
    ensures BitOf(b, 7) == if b >= 128 then 1 else 0
  {
    BitOfQuarter(b, 5);
    BitOfQuarter(b / 4, 3);
    BitOfQuarter(b / 16, 1);
    assert BitOf(b / 64, 1) == BitOf(b / 128, 0);
  }

  // The parser over any reader that finds every code of some bits, and nothing else

  ghost predicate FindsAll(ue: Reader, bits: seq<bit>) {
    forall skip: nat, v: nat :: skip <= |bits| && Code(v) <= bits[skip..] ==> ue(skip) == Some((v, |Code(v)|))
  }

  ghost predicate FindsOnly(ue: Reader, bits: seq<bit>) {
    forall skip: nat :: ue(skip).Some? ==> IsCodeAt(bits, skip, ue(skip).value)
  }

  ghost predicate IsCodeAt(bits: seq<bit>, skip: nat, r: (nat, nat)) {
    skip + r.1 <= |bits| && bits[skip..skip + r.1] == Code(r.0)
  }

  lemma FindsCode(dat: seq<byte>, p: nat, skip: nat, v: nat)
    requires HasHeader(dat, p) && skip <= |SliceBits(dat, p)| && Code(v) <= SliceBits(dat, p)[skip..]
    ensures Decode(BitsAfter(dat, p + NAL_UNIT_START_CODE_SIZE + NAL_UNIT_HEADER_SIZE, skip)) == Some((v, |Code(v)|))
  {
    var bits := SliceBits(dat, p)[skip..];
    DecodeOfCode(v, bits[|Code(v)|..]);
    assert bits == Code(v) + bits[|Code(v)|..];
  }

  lemma FindsOnlyCodes(dat: seq<byte>, p: nat, skip: nat)
    requires HasHeader(dat, p)
    ensures var r := Decode(BitsAfter(dat, p + NAL_UNIT_START_CODE_SIZE + NAL_UNIT_HEADER_SIZE, skip));
      r.Some? ==> IsCodeAt(SliceBits(dat, p), skip, r.value)
  {
    var bits := BitsAfter(dat, p + NAL_UNIT_START_CODE_SIZE + NAL_UNIT_HEADER_SIZE, skip);
    if Decode(bits).Some? {
      DecodeConsumesCode(bits);
      assert bits == SliceBits(dat, p)[skip..];
      assert bits[..Decode(bits).value.1] == SliceBits(dat, p)[skip..skip + Decode(bits).value.1];
    }
  }

  lemma UeFinds(dat: seq<byte>, p: nat, ue: Reader)
    requires HasHeader(dat, p) && ue == UeAt(dat, p + NAL_UNIT_START_CODE_SIZE + NAL_UNIT_HEADER_SIZE)
    ensures FindsAll(ue, SliceBits(dat, p)) && FindsOnly(ue, SliceBits(dat, p))
  {
    var bits := SliceBits(dat, p);
    forall skip: nat, v: nat | skip <= |bits| && Code(v) <= bits[skip..]
      ensures ue(skip) == Some((v, |Code(v)|))
    {
      FindsCode(dat, p, skip, v);
    }
    forall skip: nat | ue(skip).Some?
      ensures IsCodeAt(bits, skip, ue(skip).value)
    {
      FindsOnlyCodes(dat, p, skip);
    }
  }

  lemma CodesMakeLayout(bits: seq<bit>, flags: nat, pps: (nat, nat), t: (nat, nat))
    requires 1 <= flags <= |bits| && bits[0] == 1
    requires IsCodeAt(bits, flags, pps) && IsCodeAt(bits, flags + pps.1, t)
    ensures FirstSlice(bits, flags, t.0)
  {
    var k := flags + pps.1;
    var other, rest := bits[1..flags], bits[k + t.1..];
    assert bits[k..] == Code(t.0) + rest;
    assert bits[flags..] == Code(pps.0) + bits[k..];
    assert bits == [1] + other + bits[flags..];
    assert SliceLayout(bits, flags, other, pps.0, t.0, rest);
  }

  /** What the parser reads is laid out as a first slice segment. */
  lemma ParsedIsFirstSlice(ue: Reader, bits: seq<bit>, flags: nat, t: nat)
    requires FindsOnly(ue, bits) && 1 <= flags <= |bits| && bits[0] == 1 && FirstSliceAt(ue, flags) == Frame(t)
    ensures FirstSlice(bits, flags, t) && t <= 2
  {
    var pps := ue(flags).value;
    CodesMakeLayout(bits, flags, pps, ue(flags + pps.1).value);
  }

  lemma LayoutHasCodes(bits: seq<bit>, flags: nat, other: seq<bit>, pps: nat, t: nat, rest: seq<bit>)
    requires SliceLayout(bits, flags, other, pps, t, rest)
    ensures flags <= |bits| && Code(pps) <= bits[flags..]
    ensures flags + |Code(pps)| <= |bits| && Code(t) <= bits[flags + |Code(pps)|..]
  {
    assert bits[flags..] == Code(pps) + (Code(t) + rest);
    assert bits[flags + |Code(pps)|..] == Code(t) + rest;
  }

  lemma ReadsBoth(ue: Reader, flags: nat, pps: nat, n: nat, t: nat, m: nat)
    requires ue(flags) == Some((pps, n)) && ue(flags + n) == Some((t, m)) && t <= 2
    ensures FirstSliceAt(ue, flags) == Frame(t)
  {
  }

  /** Conversely the parser misses none. */
  lemma FirstSliceIsParsed(ue: Reader, bits: seq<bit>, flags: nat, t: nat)
    requires FindsAll(ue, bits) && FirstSlice(bits, flags, t) && t <= 2
    ensures FirstSliceAt(ue, flags) == Frame(t)
  {
    var other: seq<bit>, pps: nat, rest: seq<bit> :| SliceLayout(bits, flags, other, pps, t, rest);
    LayoutHasCodes(bits, flags, other, pps, t, rest);
    ReadsBoth(ue, flags, pps, |Code(pps)|, t, |Code(t)|);
  }

  lemma ParsedSlice(dat: seq<byte>, p: nat, ue: Reader, flags: nat, t: nat)
    requires HasHeader(dat, p) && 1 <= flags <= |SliceBits(dat, p)| && SliceBits(dat, p)[0] == 1
    requires ue == UeAt(dat, p + NAL_UNIT_START_CODE_SIZE + NAL_UNIT_HEADER_SIZE)
    ensures FirstSliceAt(ue, flags) == Frame(t) <==> FirstSlice(SliceBits(dat, p), flags, t) && t <= 2
  {
    UeFinds(dat, p, ue);
    if FirstSliceAt(ue, flags) == Frame(t) {
      ParsedIsFirstSlice(ue, SliceBits(dat, p), flags, t);
    } else if FirstSlice(SliceBits(dat, p), flags, t) && t <= 2 {
      FirstSliceIsParsed(ue, SliceBits(dat, p), flags, t);
    }
  }

  /** A unit is a frame exactly if its bits say so, whatever the parser does on the way. */
  lemma FrameExactlyWhen(dat: seq<byte>, p: nat, t: nat)
    ensures KindsOf(dat)(p) == Frame(t) <==> FrameAt(dat, p, t)
  {
    if HasHeader(dat, p) {
      TypeIsTypeBits(dat, p);
      if SliceBits(dat, p) != [] {
        FirstBit(dat, p);
        if SliceBits(dat, p)[0] == 1 {
          ParsedSlice(dat, p, UeAt(dat, p + NAL_UNIT_START_CODE_SIZE + NAL_UNIT_HEADER_SIZE), Flags(TypeBits(dat, p)), t);
        }
      }
      if FirstSlice(SliceBits(dat, p), Flags(TypeBits(dat, p)), t) {
        assert SliceBits(dat, p)[0] == 1;
      }
    }
  }

  /** A unit is malformed exactly if its bits say so, and goes into the prefix exactly if its type is that of a parameter set. */
  lemma MalformedExactlyWhen(dat: seq<byte>, p: nat)
    ensures KindsOf(dat)(p) == Malformed <==> MalformedAt(dat, p)
    ensures KindsOf(dat)(p) == ParameterSet <==> HasHeader(dat, p) && 32 <= TypeBits(dat, p) <= 34
  {
    if HasHeader(dat, p) {
      TypeIsTypeBits(dat, p);
      forall t
        ensures KindsOf(dat)(p) == Frame(t) <==> FrameAt(dat, p, t)
      {
        FrameExactlyWhen(dat, p, t);
      }
      var rbsp := p + NAL_UNIT_START_CODE_SIZE + NAL_UNIT_HEADER_SIZE;
      if SliceBits(dat, p) != [] {
        FirstBit(dat, p);
      }
    }
  }

  lemma UnitExactlyWhen(dat: seq<byte>, p: nat)
    ensures forall t :: KindsOf(dat)(p) == Frame(t) <==> FrameAt(dat, p, t)
    ensures KindsOf(dat)(p) == Malformed <==> MalformedAt(dat, p)
    ensures KindsOf(dat)(p) == ParameterSet <==> HasHeader(dat, p) && 32 <= TypeBits(dat, p) <= 34
  {
    forall t
      ensures KindsOf(dat)(p) == Frame(t) <==> FrameAt(dat, p, t)
    {
      FrameExactlyWhen(dat, p, t);
    }
    MalformedExactlyWhen(dat, p);
  }

  // ---------------------------------------------------------------------------------------------
  // The index, read off the start codes

  /** All positions from `from` on at which a start code stands, in order. */
  function StartsFrom(dat: seq<byte>, from: nat): seq<nat>
    decreases |dat| - from
  {
    if from >= |dat| then []
    else (if StartCodeAt(dat, from) then [from] else []) + StartsFrom(dat, from + 1)
  }

  /** The end of the unit that starts at `p`: the next start code, or the end of the data. */
  function UnitEnd(dat: seq<byte>, p: nat): nat {
    NextStart(dat, p + 1)
  }

  function UnitBytes(dat: seq<byte>, p: nat): seq<byte> {
    if UnitEnd(dat, p) <= |dat| then dat[p..UnitEnd(dat, p)] else []
  }

  function FramesOf(kinds: Kinds, starts: seq<nat>): seq<(nat, nat)> {
    if starts == [] then []
    else
      var n := |starts| - 1;
      FramesOf(kinds, starts[..n]) +
      match kinds(starts[n])
      case Frame(t) => [(t, starts[n])]
      case _ => []
  }

  function PrefixOf(dat: seq<byte>, kinds: Kinds, starts: seq<nat>): seq<byte> {
    if starts == [] then []
    else
      var n := |starts| - 1;
      PrefixOf(dat, kinds, starts[..n]) +
      if kinds(starts[n]) == ParameterSet then UnitBytes(dat, starts[n]) else []
  }

  /** The units put together. */
  function UnitsOf(dat: seq<byte>, starts: seq<nat>): seq<byte> {
    if starts == [] then [] else UnitBytes(dat, starts[0]) + UnitsOf(dat, starts[1..])
  }

  /** The units in front of the first malformed one. */
  function GoodPart(kinds: Kinds, starts: seq<nat>): seq<nat> {
    if starts == [] || kinds(starts[0]) == Malformed then []
    else [starts[0]] + GoodPart(kinds, starts[1..])
  }

  ghost predicate Clean(dat: seq<byte>) {
    StartCodeAt(dat, 1) && forall p :: 1 <= p && StartCodeAt(dat, p) ==> KindsOf(dat)(p) != Malformed
  }

  /** The units of the data: none unless the first one starts behind the first byte. */
  function Units(dat: seq<byte>): seq<nat> {
    if StartCodeAt(dat, 1) then StartsFrom(dat, 1) else []
  }

  /** The units the scan gets to see completely. */
  function Visited(dat: seq<byte>): seq<nat> {
    GoodPart(KindsOf(dat), Units(dat))
  }

  // ---------------------------------------------------------------------------------------------
  // Facts about start codes

  lemma {:induction false} StartsFromFacts(dat: seq<byte>, from: nat)
    ensures forall p :: p in StartsFrom(dat, from) <==> from <= p && StartCodeAt(dat, p)
    ensures forall i, j :: 0 <= i < j < |StartsFrom(dat, from)| ==> StartsFrom(dat, from)[i] < StartsFrom(dat, from)[j]
    decreases |dat| - from
  {
    if from < |dat| {
      StartsFromFacts(dat, from + 1);
      var rest := StartsFrom(dat, from + 1);
      forall k | 0 <= k < |rest|
        ensures rest[k] > from
      {
        assert rest[k] in rest;
      }
    }
  }

  /** Start codes do not overlap: the search may go on behind a start code without missing one. */
  lemma NoOverlap(dat: seq<byte>, p: nat)
    requires StartCodeAt(dat, p)
    ensures !StartCodeAt(dat, p + 1) && !StartCodeAt(dat, p + 2)
    ensures NextStart(dat, p + NAL_UNIT_START_CODE_SIZE) == UnitEnd(dat, p)
    ensures p + NAL_UNIT_START_CODE_SIZE <= UnitEnd(dat, p) <= |dat|
  {
    if p + 1 < |dat| {
      assert NextStart(dat, p + 1) == NextStart(dat, p + 2);
    }
    if p + 2 < |dat| {
      assert NextStart(dat, p + 2) == NextStart(dat, p + 3);
    }
  }

  lemma {:induction false} StartsFromSkips(dat: seq<byte>, from: nat, to: nat)
    requires from <= to <= |dat| && forall q :: from <= q < to ==> !StartCodeAt(dat, q)
    ensures StartsFrom(dat, from) == StartsFrom(dat, to)
    decreases |dat| - from
  {
    if from < to {
      StartsFromSkips(dat, from + 1, to);
    }
  }

  lemma StartsFromNext(dat: seq<byte>, p: nat)
    requires StartCodeAt(dat, p)
    ensures StartsFrom(dat, p) == [p] + StartsFrom(dat, UnitEnd(dat, p))
  {
    NoOverlap(dat, p);
    StartsFromSkips(dat, p + 1, UnitEnd(dat, p));
  }

  lemma Cut(dat: seq<byte>, p: nat, end: nat)
    requires p <= end <= |dat|
    ensures dat[p..] == dat[p..end] + dat[end..]
  {
  }

  /** The units tile the data behind the first byte. */
  lemma {:induction false} UnitsTile(dat: seq<byte>, p: nat)
    requires p == |dat| || StartCodeAt(dat, p)
    ensures UnitsOf(dat, StartsFrom(dat, p)) == dat[p..]
    decreases |dat| - p
  {
    if p < |dat| {
      var end := UnitEnd(dat, p);
      NoOverlap(dat, p);
      UnitsTile(dat, end);
      StartsFromNext(dat, p);
      UnitsOfFirst(dat, p, StartsFrom(dat, end));
      Cut(dat, p, end);
    }
  }

  lemma UnitsOfFirst(dat: seq<byte>, p: nat, rest: seq<nat>)
    ensures UnitsOf(dat, [p] + rest) == UnitBytes(dat, p) + UnitsOf(dat, rest)
  {
    assert ([p] + rest)[1..] == rest;
  }

  lemma {:induction false} GoodPartIsPrefix(kinds: Kinds, starts: seq<nat>)
    ensures GoodPart(kinds, starts) <= starts
  {
    if starts != [] && kinds(starts[0]) != Malformed {
      GoodPartIsPrefix(kinds, starts[1..]);
    }
  }

  lemma {:induction false} GoodPartSplit(kinds: Kinds, a: seq<nat>, b: seq<nat>)
    requires forall p :: p in a ==> kinds(p) != Malformed
    ensures GoodPart(kinds, a + b) == a + GoodPart(kinds, b)
  {
    if a == [] {
      assert a + b == b;
    } else {
      assert a[0] in a;
      GoodPartSplit(kinds, a[1..], b);
      assert (a + b)[1..] == a[1..] + b;
    }
  }

  // ---------------------------------------------------------------------------------------------
  // The scan

  datatype Index = Index(frames: seq<(nat, nat)>, length: nat, prefix: seq<byte>)

  datatype Result = Raised | Indexed(index: Index)

  method GetSliceTypeAt(dat: seq<byte>, rbsp: nat, skipBits: nat) returns (k: Kind)
    ensures k == SliceTypeAt(UeAt(dat, rbsp), skipBits)
  {
    var slice := GetUe(dat, rbsp, skipBits);
    k := if slice == None then Malformed else if slice.value.0 > 2 then Malformed else Frame(slice.value.0);
  }

  method GetFirstSliceAt(dat: seq<byte>, rbsp: nat, skipBits: nat) returns (k: Kind)
    ensures k == FirstSliceAt(UeAt(dat, rbsp), skipBits)
  {
    var pps := GetUe(dat, rbsp, skipBits);
    if pps == None {
      k := Malformed;
    } else {
      k := GetSliceTypeAt(dat, rbsp, skipBits + pps.value.1);
    }
  }

  method GetSliceKind(dat: seq<byte>, p: nat, t: nat) returns (k: Kind)
    ensures k == SliceKind(dat, p, t)
  {
    var rbsp := p + NAL_UNIT_START_CODE_SIZE + NAL_UNIT_HEADER_SIZE;
    if rbsp >= |dat| {
      return Malformed;
    }
    if dat[rbsp] < 128 {
      return Ignored;
    }
    k := GetFirstSliceAt(dat, rbsp, if 16 <= t <= 23 then 2 else 1);
  }

  /** What a unit contributes, as its bits say. */
  method GetUnitKind(dat: seq<byte>, p: nat) returns (k: Kind)
    ensures k == KindsOf(dat)(p)
    ensures forall t :: k == Frame(t) <==> FrameAt(dat, p, t)
    ensures k == Malformed <==> MalformedAt(dat, p)
    ensures k == ParameterSet <==> HasHeader(dat, p) && 32 <= TypeBits(dat, p) <= 34
  {
    UnitExactlyWhen(dat, p);
    var t := UnitType(dat, p);
    if t == None {
      k := Malformed;
    } else if IsParameterSet(t.value) {
      k := ParameterSet;
    } else if IsCodedSlice(t.value) {
      k := GetSliceKind(dat, p, t.value);
    } else {
      k := Ignored;
    }
  }

  /** What is known in front of the unit at `i`, after the units `done`. */
  ghost predicate ScannedTo(dat: seq<byte>, kinds: Kinds, i: nat, done: seq<nat>, frames: seq<(nat, nat)>, prefix: seq<byte>) {
    && (i == |dat| || StartCodeAt(dat, i))
    && StartsFrom(dat, 1) == done + StartsFrom(dat, i)
    && (forall p :: p in done ==> kinds(p) != Malformed)
    && frames == FramesOf(kinds, done) && prefix == PrefixOf(dat, kinds, done)
  }

  lemma ScanStep(dat: seq<byte>, kinds: Kinds, i: nat, done: seq<nat>, frames: seq<(nat, nat)>, prefix: seq<byte>)
    requires ScannedTo(dat, kinds, i, done, frames, prefix) && StartCodeAt(dat, i) && kinds(i) != Malformed
    ensures ScannedTo(dat, kinds, UnitEnd(dat, i), done + [i],
                      frames + (if kinds(i).Frame? then [(kinds(i).sliceType, i)] else []),
                      prefix + (if kinds(i) == ParameterSet then UnitBytes(dat, i) else []))
  {
    NoOverlap(dat, i);
    StartsStep(dat, i, done);
    var next := done + [i];
    assert next[..|done|] == done;
  }

  lemma StartsStep(dat: seq<byte>, i: nat, done: seq<nat>)
    requires StartCodeAt(dat, i) && StartsFrom(dat, 1) == done + StartsFrom(dat, i)
    ensures StartsFrom(dat, 1) == done + [i] + StartsFrom(dat, UnitEnd(dat, i))
  {
    StartsFromNext(dat, i);
  }

  lemma ScanEnds(dat: seq<byte>, kinds: Kinds, i: nat, done: seq<nat>, frames: seq<(nat, nat)>, prefix: seq<byte>)
    requires ScannedTo(dat, kinds, i, done, frames, prefix)
    requires i < |dat| ==> kinds(i) == Malformed
    ensures done == GoodPart(kinds, StartsFrom(dat, 1))
    ensures (forall p :: 1 <= p && StartCodeAt(dat, p) ==> kinds(p) != Malformed) <==> i == |dat|
  {
    GoodPartSplit(kinds, done, StartsFrom(dat, i));
    StartsFromFacts(dat, 1);
    if i < |dat| {
      StartsFromNext(dat, i);
      assert i in StartsFrom(dat, 1);
    } else {
      assert StartsFrom(dat, i) == [];
      forall p | 1 <= p && StartCodeAt(dat, p)
        ensures kinds(p) != Malformed
      {
        assert p in StartsFrom(dat, 1);
      }
    }
  }

  /** `hevc_index`. It raises exactly when the data are too short or do not begin with a zero byte, or, unless corrupt data
      are allowed, when the first start code is missing or some unit is malformed. Otherwise it yields the frames and the
      parameter sets among the units in front of the first malformed one. */
  method HevcIndex(dat: seq<byte>, allowCorrupt: bool) returns (r: Result)
    ensures r == Raised <==> |dat| < NAL_UNIT_START_CODE_SIZE + 1 || dat[0] != 0 || (!allowCorrupt && !Clean(dat))
    ensures r.Indexed? ==>
      r.index == Index(FramesOf(KindsOf(dat), Visited(dat)), |dat|, PrefixOf(dat, KindsOf(dat), Visited(dat)))
  {
    if |dat| < NAL_UNIT_START_CODE_SIZE + 1 {
      return Raised;
    }
    if dat[0] != 0 {
      return Raised;
    }
    if !StartCodeAt(dat, 1) {
      return if allowCorrupt then Indexed(Index([], |dat|, [])) else Raised;
    }
    var corrupt, frames, prefix := ScanUnits(dat, KindsOf(dat));
    r := if corrupt && !allowCorrupt then Raised else Indexed(Index(frames, |dat|, prefix));
  }

  /** Adds the unit at `i` to the index. */
  method AddUnit(dat: seq<byte>, ghost kinds: Kinds, i: nat, kind: Kind, ghost done: seq<nat>, frames: seq<(nat, nat)>,
                 prefix: seq<byte>)
    returns (next: nat, frames': seq<(nat, nat)>, prefix': seq<byte>)
    requires kind == kinds(i) && kind != Malformed
    requires StartCodeAt(dat, i) && ScannedTo(dat, kinds, i, done, frames, prefix)
    ensures i < next <= |dat| && ScannedTo(dat, kinds, next, done + [i], frames', prefix')
  {
    NoOverlap(dat, i);
    var length := NextStart(dat, i + NAL_UNIT_START_CODE_SIZE) - i;
    ScanStep(dat, kinds, i, done, frames, prefix);
    prefix' := prefix + if kind == ParameterSet then dat[i..i + length] else [];
    frames' := frames + if kind.Frame? then [(kind.sliceType, i)] else [];
    next := i + length;
  }

  /** The loop over the units, up to the first malformed one. A missing start code can only stop it in front of the first
      unit, so that case is left to the caller. */
  method ScanUnits(dat: seq<byte>, ghost kinds: Kinds) returns (corrupt: bool, frames: seq<(nat, nat)>, prefix: seq<byte>)
    requires StartCodeAt(dat, 1) && kinds == KindsOf(dat)
    ensures !corrupt <==> forall p :: 1 <= p && StartCodeAt(dat, p) ==> kinds(p) != Malformed
    ensures frames == FramesOf(kinds, GoodPart(kinds, Units(dat)))
    ensures prefix == PrefixOf(dat, kinds, GoodPart(kinds, Units(dat)))
  {
    prefix := [];
    frames := [];
    corrupt := false;
    ghost var done: seq<nat> := [];
    var i := 1;
    assert StartsFrom(dat, 1) == done + StartsFrom(dat, 1);
    while i < |dat| && !corrupt
      invariant 1 <= i <= |dat|
      invariant ScannedTo(dat, kinds, i, done, frames, prefix)
      invariant corrupt ==> i < |dat| && kinds(i) == Malformed
      decreases |dat| - i, !corrupt
    {
      var kind := GetUnitKind(dat, i);
      if kind == Malformed {
        corrupt := true;
      } else {
        ghost var at := i;
        i, frames, prefix := AddUnit(dat, kinds, i, kind, done, frames, prefix);
        done := done + [at];
      }
    }
    ScanEnds(dat, kinds, i, done, frames, prefix);
  }

  // ---------------------------------------------------------------------------------------------
  // What the index means

  lemma {:induction false} FramesOfFacts(kinds: Kinds, starts: seq<nat>, t: nat, p: nat)
    ensures (t, p) in FramesOf(kinds, starts) <==> p in starts && kinds(p) == Frame(t)
  {
    if starts != [] {
      var n := |starts| - 1;
      FramesOfFacts(kinds, starts[..n], t, p);
      assert starts == starts[..n] + [starts[n]];
    }
  }

  lemma {:induction false} FramesInOrder(kinds: Kinds, starts: seq<nat>, i: nat, j: nat)
    requires forall a, b :: 0 <= a < b < |starts| ==> starts[a] < starts[b]
    requires i < j < |FramesOf(kinds, starts)|
    ensures FramesOf(kinds, starts)[i].1 < FramesOf(kinds, starts)[j].1
  {
    var n := |starts| - 1;
    var before := FramesOf(kinds, starts[..n]);
    if j < |before| {
      FramesInOrder(kinds, starts[..n], i, j);
    } else {
      var (t, p) := before[i];
      assert (t, p) in before;
      FramesOfFacts(kinds, starts[..n], t, p);
    }
  }

  lemma GoodPartOfClean(kinds: Kinds, starts: seq<nat>)
    requires forall p :: p in starts ==> kinds(p) != Malformed
    ensures GoodPart(kinds, starts) == starts
  {
    GoodPartSplit(kinds, starts, []);
    assert starts + [] == starts;
  }

  /** A frame has type 0, 1 or 2 and its header lies inside the data. */
  lemma FrameKind(dat: seq<byte>, p: nat, t: nat)
    requires UnitKind(dat, p) == Frame(t)
    ensures t <= 2 && p + NAL_UNIT_START_CODE_SIZE + NAL_UNIT_HEADER_SIZE < |dat|
  {
  }

  lemma VisitedOfClean(dat: seq<byte>)
    requires Clean(dat)
    ensures Visited(dat) == StartsFrom(dat, 1)
  {
    StartsFromFacts(dat, 1);
    GoodPartOfClean(KindsOf(dat), StartsFrom(dat, 1));
  }

  /** Data are clean exactly if a unit starts at the second byte and no unit is malformed by its bits. */
  lemma CleanExactlyWhen(dat: seq<byte>)
    ensures Clean(dat) <==> StartCodeAt(dat, 1) && forall p :: 1 <= p && StartCodeAt(dat, p) ==> !MalformedAt(dat, p)
  {
    forall p: nat
      ensures KindsOf(dat)(p) == Malformed <==> MalformedAt(dat, p)
    {
      MalformedExactlyWhen(dat, p);
    }
  }

  /** On data that are accepted the index lists exactly the units that are frames by their bits among the start codes behind
      the first byte, with their slice types, and the units tile the data. */
  lemma IndexOfCleanData(dat: seq<byte>, t: nat, p: nat)
    requires Clean(dat)
    ensures (t, p) in FramesOf(KindsOf(dat), Visited(dat)) <==> 1 <= p && StartCodeAt(dat, p) && FrameAt(dat, p, t)
    ensures (t, p) in FramesOf(KindsOf(dat), Visited(dat)) ==> t <= 2 && p + NAL_UNIT_START_CODE_SIZE + NAL_UNIT_HEADER_SIZE < |dat|
    ensures UnitsOf(dat, Visited(dat)) == dat[1..]
  {
    VisitedOfClean(dat);
    StartsFromFacts(dat, 1);
    FramesOfFacts(KindsOf(dat), Visited(dat), t, p);
    UnitsTile(dat, 1);
    FrameExactlyWhen(dat, p, t);
    if KindsOf(dat)(p) == Frame(t) {
      FrameKind(dat, p, t);
    }
  }

  lemma GoodFramesInOrder(dat: seq<byte>, kinds: Kinds, i: nat, j: nat)
    requires i < j < |FramesOf(kinds, GoodPart(kinds, Units(dat)))|
    ensures FramesOf(kinds, GoodPart(kinds, Units(dat)))[i].1 < FramesOf(kinds, GoodPart(kinds, Units(dat)))[j].1
  {
    StartsFromFacts(dat, 1);
    GoodPartIsPrefix(kinds, Units(dat));
    FramesInOrder(kinds, GoodPart(kinds, Units(dat)), i, j);
  }

  /** The offsets of the frames are strictly increasing, also when the scan stopped early. */
  lemma FramesAreIncreasing(dat: seq<byte>, i: nat, j: nat)
    requires i < j < |FramesOf(KindsOf(dat), Visited(dat))|
    ensures FramesOf(KindsOf(dat), Visited(dat))[i].1 < FramesOf(KindsOf(dat), Visited(dat))[j].1
  {
    GoodFramesInOrder(dat, KindsOf(dat), i, j);
  }

  // ---------------------------------------------------------------------------------------------
  // What the index holds of any data, read off the bits

  /** The scan gets to the unit at p: the first start code is there, and no unit up to p is malformed. */
  ghost predicate IsReached(dat: seq<byte>, p: nat) {
    && StartCodeAt(dat, 1) && 1 <= p && StartCodeAt(dat, p)
    && forall q :: 1 <= q <= p && StartCodeAt(dat, q) ==> !MalformedAt(dat, q)
  }

  ghost predicate Increasing(ps: seq<nat>) {
    forall i, j :: 0 <= i < j < |ps| ==> ps[i] < ps[j]
  }

  lemma {:induction false} GoodPartExactly(kinds: Kinds, starts: seq<nat>, p: nat)
    requires Increasing(starts)
    ensures p in GoodPart(kinds, starts) <==> p in starts && forall q :: q in starts && q <= p ==> kinds(q) != Malformed
  {
    if starts != [] {
      var rest := starts[1..];
      assert forall q :: q in starts <==> q == starts[0] || q in rest;
      assert forall q :: q in rest ==> starts[0] < q;
      GoodPartExactly(kinds, rest, p);
    }
  }

  lemma VisitedIsReached(dat: seq<byte>, p: nat)
    ensures p in Visited(dat) <==> IsReached(dat, p)
  {
    if StartCodeAt(dat, 1) {
      var kinds := KindsOf(dat);
      StartsFromFacts(dat, 1);
      forall q: nat
        ensures kinds(q) == Malformed <==> MalformedAt(dat, q)
      {
        UnitExactlyWhen(dat, q);
      }
      GoodPartExactly(kinds, Units(dat), p);
    }
  }

  /** On any data the frames are exactly the frames, by their bits, that the scan gets to. */
  lemma FramesAreReached(dat: seq<byte>, t: nat, p: nat)
    ensures (t, p) in FramesOf(KindsOf(dat), Visited(dat)) <==> IsReached(dat, p) && FrameAt(dat, p, t)
  {
    FramesOfFacts(KindsOf(dat), Visited(dat), t, p);
    VisitedIsReached(dat, p);
    UnitExactlyWhen(dat, p);
  }

  /** The parameter sets among the units. */
  function SetsOf(kinds: Kinds, starts: seq<nat>): seq<nat> {
    if starts == [] then []
    else
      var n := |starts| - 1;
      SetsOf(kinds, starts[..n]) + if kinds(starts[n]) == ParameterSet then [starts[n]] else []
  }

  lemma UnitsOfOne(dat: seq<byte>, p: nat)
    ensures UnitsOf(dat, [p]) == UnitBytes(dat, p)
  {
    UnitsOfFirst(dat, p, []);
    assert [p] + [] == [p];
  }

  lemma FirstAndLast(starts: seq<nat>, p: nat) returns (first: nat, rest: seq<nat>, tail: seq<nat>)
    requires starts != []
    ensures starts == [first] + rest && tail == rest + [p] && starts + [p] == [first] + tail && |rest| < |starts|
  {
    first, rest, tail := starts[0], starts[1..], starts[1..] + [p];
  }

  lemma {:induction false} UnitsOfLast(dat: seq<byte>, starts: seq<nat>, p: nat, unit: seq<byte>)
    requires unit == UnitsOf(dat, [p])
    ensures UnitsOf(dat, starts + [p]) == UnitsOf(dat, starts) + unit
    decreases |starts|
  {
    if starts == [] {
      assert starts + [p] == [p];
    } else {
      var first, rest, tail := FirstAndLast(starts, p);
      UnitsOfLast(dat, rest, p, unit);
      UnitsOfFirst(dat, first, rest);
      UnitsOfFirst(dat, first, tail);
    }
  }

  lemma {:induction false} PrefixIsUnits(dat: seq<byte>, kinds: Kinds, starts: seq<nat>)
    ensures PrefixOf(dat, kinds, starts) == UnitsOf(dat, SetsOf(kinds, starts))
  {
    if starts != [] {
      var n := |starts| - 1;
      var before := SetsOf(kinds, starts[..n]);
      PrefixIsUnits(dat, kinds, starts[..n]);
      if kinds(starts[n]) == ParameterSet {
        UnitsOfOne(dat, starts[n]);
        UnitsOfLast(dat, before, starts[n], UnitBytes(dat, starts[n]));
        assert SetsOf(kinds, starts) == before + [starts[n]];
      } else {
        assert SetsOf(kinds, starts) == before;
      }
    }
  }

  lemma {:induction false} SetsOfFacts(kinds: Kinds, starts: seq<nat>)
    requires Increasing(starts)
    ensures forall p :: p in SetsOf(kinds, starts) <==> p in starts && kinds(p) == ParameterSet
    ensures Increasing(SetsOf(kinds, starts))
  {
    if starts != [] {
      var n := |starts| - 1;
      SetsOfFacts(kinds, starts[..n]);
      assert starts == starts[..n] + [starts[n]];
      var before := SetsOf(kinds, starts[..n]);
      forall i | 0 <= i < |before|
        ensures before[i] < starts[n]
      {
        assert before[i] in starts[..n];
      }
    }
  }

  /** On any data the prefix is the parameter sets that the scan gets to, put together in order. */
  lemma PrefixIsParameterSets(dat: seq<byte>) returns (ps: seq<nat>)
    ensures PrefixOf(dat, KindsOf(dat), Visited(dat)) == UnitsOf(dat, ps) && Increasing(ps)
    ensures forall p :: p in ps <==> IsReached(dat, p) && HasHeader(dat, p) && 32 <= TypeBits(dat, p) <= 34
  {
    var kinds := KindsOf(dat);
    ps := SetsOf(kinds, Visited(dat));
    PrefixIsUnits(dat, kinds, Visited(dat));
    if StartCodeAt(dat, 1) {
      StartsFromFacts(dat, 1);
    }
    GoodPartIsPrefix(kinds, Units(dat));
    SetsOfFacts(kinds, Visited(dat));
    forall p: nat
      ensures p in ps <==> IsReached(dat, p) && HasHeader(dat, p) && 32 <= TypeBits(dat, p) <= 34
    {
      VisitedIsReached(dat, p);
      UnitExactlyWhen(dat, p);
    }
  }
}
