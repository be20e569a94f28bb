/**
Filters and GPIOs of one device: what the set and get calls do to the blocks of the dual-ported
memory, and what opening the device restores.  The spec functions below work on the block contents;
the class works on the memory itself.
*/
module DpmConfig {
  import opened Words
  import opened DpmLayout

  const NO_ERROR := 0
  const INVALID_PARAMETER := 0x8020_0001
  const INVALID_PORT := 0x8020_0002
  const FUNCTION_FAILED := 0x8020_0004
  const INVALID_BUFFERSIZE := 0x8020_000a
  const ACCESS_DENIED := 0x8020_000b
  const DEVICE_STILL_OPEN := 0x8022_0004
  const DEVICE_NOT_OPEN := 0x8022_0005
  const CAPTURE_ACTIVE := 0x8022_000b

  type Blocks = seq<seq<byte>>

  /** The contents of blocks of these sizes. */
  predicate Shaped(z: Sizes, v: Blocks) {
    && |v| == RegionCount(z)
    && (forall i | 0 <= i < z.gpios :: |v[i]| == GPIO_SIZE)
    && (forall p: nat | p < z.ports :: PortShaped(z, v, p))
  }

  predicate PortShaped(z: Sizes, v: Blocks, p: nat) {
    && FilterBase(z, p) + PER_PORT <= |v|
    && |v[FilterBase(z, p)]| == FILTER_BASE_SIZE
    && |v[Mask(z, p, 0)]| == |v[Value(z, p, 0)]| == |v[Mask(z, p, 1)]| == |v[Value(z, p, 1)]| == z.filterSize
  }

  lemma PortBlocks(z: Sizes, v: Blocks, p: nat)
    requires Shaped(z, v) && p < z.ports
    ensures PortShaped(z, v, p) && z.gpios <= FilterBase(z, p)
  {
  }

  function Zeros(n: nat): (s: seq<byte>)
    ensures |s| == n
  {
    seq(n, _ => 0)
  }

  // ---------------------------------------------------------------------------------------------
  // Filters
  // ---------------------------------------------------------------------------------------------

  /** NETANA_FILTER_T behind a pointer: null, or a size and two buffers that may be missing. */
  datatype Filter = Null | Filter(size: nat, mask: Option<seq<byte>>, value: Option<seq<byte>>)

  predicate Given(f: Filter) { f.Filter? && f.size > 0 }

  /** A buffer that is there has at least the size the caller says. */
  predicate Honest(f: Filter) {
    f.Filter? ==> (f.mask.Some? ==> f.size <= |f.mask.value|) && (f.value.Some? ==> f.size <= |f.value.value|)
  }

  function Check(f: Filter, filterSize: nat): nat {
    if !Given(f) then NO_ERROR
    else if f.mask.None? || f.value.None? then INVALID_PARAMETER
    else if f.size > filterSize then INVALID_BUFFERSIZE
    else NO_ERROR
  }

  function SetFilterResult(z: Sizes, running: bool, port: nat, a: Filter, b: Filter): nat {
    if running then CAPTURE_ACTIVE
    else if Check(a, z.filterSize) != NO_ERROR then Check(a, z.filterSize)
    else if Check(b, z.filterSize) != NO_ERROR then Check(b, z.filterSize)
    else if port < z.ports then NO_ERROR
    else INVALID_PORT
  }

  /** A filter that the check lets pass can be copied. */
  predicate Usable(z: Sizes, f: Filter) { Check(f, z.filterSize) == NO_ERROR && Honest(f) }

  function ClearFilters(z: Sizes, v: Blocks, port: nat, relation: nat): Blocks
    requires PortShaped(z, v, port)
  {
    v[FilterBase(z, port) := ToBytes(relation, 4)]
     [Mask(z, port, 0) := Zeros(z.filterSize)][Value(z, port, 0) := Zeros(z.filterSize)]
     [Mask(z, port, 1) := Zeros(z.filterSize)][Value(z, port, 1) := Zeros(z.filterSize)]
  }

  function CopyFilter(z: Sizes, v: Blocks, port: nat, k: nat, f: Filter): Blocks
    requires k < 2 && PortShaped(z, v, port) && Usable(z, f)
  {
    if !Given(f) then v else
      v[Mask(z, port, k) := Overlay(v[Mask(z, port, k)], 0, f.mask.value[..f.size])]
       [Value(z, port, k) := Overlay(v[Value(z, port, k)], 0, f.value.value[..f.size])]
  }

  function SetFilter(z: Sizes, v: Blocks, port: nat, a: Filter, b: Filter, relation: nat): Blocks
    requires PortShaped(z, v, port) && Usable(z, a) && Usable(z, b)
  {
    CopyFilter(z, CopyFilter(z, ClearFilters(z, v, port, relation), port, 0, a), port, 1, b)
  }

  /** What a filter block holds afterwards: the caller's bytes, then zeros. */
  function Padded(given: bool, data: Option<seq<byte>>, size: nat, filterSize: nat): seq<byte>
    requires given ==> data.Some? && size <= |data.value| && size <= filterSize
  {
    if given then data.value[..size] + Zeros(filterSize - size) else Zeros(filterSize)
  }

  function MaskOf(z: Sizes, f: Filter): seq<byte>
    requires Usable(z, f)
  {
    if Given(f) then Padded(true, f.mask, f.size, z.filterSize) else Zeros(z.filterSize)
  }

  function ValueOf(z: Sizes, f: Filter): seq<byte>
    requires Usable(z, f)
  {
    if Given(f) then Padded(true, f.value, f.size, z.filterSize) else Zeros(z.filterSize)
  }

  /** Setting a filter fills the port's five blocks, and no byte of any other port, GPIO or counter changes. */
  lemma FilterIsSet(z: Sizes, v: Blocks, port: nat, a: Filter, b: Filter, relation: nat)
    requires PortShaped(z, v, port) && Usable(z, a) && Usable(z, b)
    ensures var t := SetFilter(z, v, port, a, b, relation);
            && |t| == |v| && PortShaped(z, t, port)
            && t[FilterBase(z, port)] == ToBytes(relation, 4)
            && t[Mask(z, port, 0)] == MaskOf(z, a) && t[Value(z, port, 0)] == ValueOf(z, a)
            && t[Mask(z, port, 1)] == MaskOf(z, b) && t[Value(z, port, 1)] == ValueOf(z, b)
            && forall i | 0 <= i < |v| && !(FilterBase(z, port) <= i < FilterBase(z, port) + PER_PORT) :: t[i] == v[i]
  {
    if Given(a) {
      assert Overlay(Zeros(z.filterSize), 0, a.mask.value[..a.size]) == MaskOf(z, a);
      assert Overlay(Zeros(z.filterSize), 0, a.value.value[..a.size]) == ValueOf(z, a);
    }
    if Given(b) {
      assert Overlay(Zeros(z.filterSize), 0, b.mask.value[..b.size]) == MaskOf(z, b);
      assert Overlay(Zeros(z.filterSize), 0, b.value.value[..b.size]) == ValueOf(z, b);
    }
  }

  /** What the caller of get asks for: null, or a size and which of the two buffers are there. */
  datatype Request = NoRequest | Request(size: nat, mask: bool, value: bool)

  datatype Reply = Reply(ret: nat, relation: nat, maskA: seq<byte>, valueA: seq<byte>, maskB: seq<byte>, valueB: seq<byte>)

  predicate Asked(q: Request) { q.Request? && q.size > 0 }

  predicate Refused(q: Request) { Asked(q) && !(q.mask && q.value) }

  function Min(a: nat, b: nat): nat { if a <= b then a else b }

  /** As much of a block as is asked for. */
  function Part(v: Blocks, i: nat, q: Request, filterSize: nat): seq<byte> {
    if Asked(q) && i < |v| && |v[i]| == filterSize then v[i][..Min(q.size, filterSize)] else []
  }

  /** `netana_get_filter`. */
  function GetFilter(z: Sizes, v: Blocks, port: nat, a: Request, b: Request): Reply
    requires Shaped(z, v)
  {
    if port >= z.ports then Reply(INVALID_PORT, 0, [], [], [], []) else
      PortBlocks(z, v, port);
      var relation := FromBytes(v[FilterBase(z, port)]);
      if Refused(a) then Reply(INVALID_PARAMETER, relation, [], [], [], []) else
        var maskA, valueA := Part(v, Mask(z, port, 0), a, z.filterSize), Part(v, Value(z, port, 0), a, z.filterSize);
        if Refused(b) then Reply(INVALID_PARAMETER, relation, maskA, valueA, [], []) else
          var maskB, valueB := Part(v, Mask(z, port, 1), b, z.filterSize), Part(v, Value(z, port, 1), b, z.filterSize);
          Reply(NO_ERROR, relation, maskA, valueA, maskB, valueB)
  }

  lemma SetFilterShaped(z: Sizes, v: Blocks, port: nat, a: Filter, b: Filter, relation: nat)
    requires Shaped(z, v) && port < z.ports && Usable(z, a) && Usable(z, b)
    ensures PortShaped(z, v, port) && Shaped(z, SetFilter(z, v, port, a, b, relation))
  {
    PortBlocks(z, v, port);
    var t := SetFilter(z, v, port, a, b, relation);
    FilterIsSet(z, v, port, a, b, relation);
    forall p: nat | p < z.ports && p != port ensures PortShaped(z, t, p) {
      PortBlocks(z, v, p);
      OtherPortShaped(z, v, t, port, p);
    }
  }

  lemma OtherPortShaped(z: Sizes, v: Blocks, t: Blocks, port: nat, p: nat)
    requires PortShaped(z, v, p) && |t| == |v| && p != port
    requires forall i | 0 <= i < |v| && !(FilterBase(z, port) <= i < FilterBase(z, port) + PER_PORT) :: t[i] == v[i]
    ensures PortShaped(z, t, p)
  {
  }

  /** Getting what was set gives the relation, and masks and values padded with zeros, as far as asked. */
  lemma FilterRoundTrip(z: Sizes, v: Blocks, port: nat, a: Filter, b: Filter, relation: nat, n: nat, m: nat)
    requires Shaped(z, v) && port < z.ports && Usable(z, a) && Usable(z, b) && relation < WORD && n > 0 && m > 0
    ensures PortShaped(z, v, port) && Shaped(z, SetFilter(z, v, port, a, b, relation))
    ensures var t := SetFilter(z, v, port, a, b, relation);
            var i, j := Min(n, z.filterSize), Min(m, z.filterSize);
            GetFilter(z, t, port, Request(n, true, true), Request(m, true, true))
            == Reply(NO_ERROR, relation, MaskOf(z, a)[..i], ValueOf(z, a)[..i], MaskOf(z, b)[..j], ValueOf(z, b)[..j])
  {
    SetFilterShaped(z, v, port, a, b, relation);
    FilterIsSet(z, v, port, a, b, relation);
    assert Power256(4) == WORD;
    BytesRoundTrip(relation, 4);
  }

  /** What a filter block holds after set, byte by byte. */
  lemma FilterBytes(z: Sizes, v: Blocks, port: nat, a: Filter, b: Filter, relation: nat, k: nat)
    requires Shaped(z, v) && port < z.ports && Usable(z, a) && Usable(z, b) && k < z.filterSize
    ensures PortShaped(z, v, port) && PortShaped(z, SetFilter(z, v, port, a, b, relation), port)
    ensures var t := SetFilter(z, v, port, a, b, relation);
            && t[Mask(z, port, 0)][k] == (if a.Filter? && k < a.size then a.mask.value[k] else 0)
            && t[Value(z, port, 0)][k] == (if a.Filter? && k < a.size then a.value.value[k] else 0)
            && t[Mask(z, port, 1)][k] == (if b.Filter? && k < b.size then b.mask.value[k] else 0)
            && t[Value(z, port, 1)][k] == (if b.Filter? && k < b.size then b.value.value[k] else 0)
  {
    SetFilterShaped(z, v, port, a, b, relation);
    FilterIsSet(z, v, port, a, b, relation);
  }

  /** What get gives after set, for every request: refused for a half-given buffer, nothing for what is not asked. */
  lemma GetAfterSet(z: Sizes, v: Blocks, port: nat, a: Filter, b: Filter, relation: nat, q: Request, r: Request)
    requires Shaped(z, v) && port < z.ports && Usable(z, a) && Usable(z, b) && relation < WORD
    ensures PortShaped(z, v, port) && Shaped(z, SetFilter(z, v, port, a, b, relation))
    ensures var reply := GetFilter(z, SetFilter(z, v, port, a, b, relation), port, q, r);
            var halfA, halfB := q.Request? && q.size > 0 && !(q.mask && q.value), r.Request? && r.size > 0 && !(r.mask && r.value);
            var i, j := if q.Request? then Min(q.size, z.filterSize) else 0, if r.Request? then Min(r.size, z.filterSize) else 0;
            && reply.relation == relation
            && (reply.ret == 0 <==> !halfA && !halfB) && (halfA || halfB ==> reply.ret == 0x8020_0001)
            && (!halfA ==> reply.maskA == MaskOf(z, a)[..i] && reply.valueA == ValueOf(z, a)[..i])
            && (!halfA && !halfB ==> reply.maskB == MaskOf(z, b)[..j] && reply.valueB == ValueOf(z, b)[..j])
  {
    SetFilterShaped(z, v, port, a, b, relation);
    FilterIsSet(z, v, port, a, b, relation);
    assert Power256(4) == WORD;
    BytesRoundTrip(relation, 4);
  }

  /** Another port's filter reads the same before and after. */
  lemma OtherPortUnaffected(z: Sizes, v: Blocks, port: nat, a: Filter, b: Filter, relation: nat, other: nat, q: Request, r: Request)
    requires Shaped(z, v) && port < z.ports && Usable(z, a) && Usable(z, b) && other != port
    ensures PortShaped(z, v, port) && Shaped(z, SetFilter(z, v, port, a, b, relation))
    ensures GetFilter(z, SetFilter(z, v, port, a, b, relation), other, q, r) == GetFilter(z, v, other, q, r)
  {
    SetFilterShaped(z, v, port, a, b, relation);
    FilterIsSet(z, v, port, a, b, relation);
  }
}
