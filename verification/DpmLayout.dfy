/**
The dual-ported memory behind its fixed part: blocks placed one after the other by advancing a pointer,
and what writing into one of them does to all of them.
*/
module DpmLayout {
  import opened Words

  /** sizeof(NETANA_BASE_DPM_T), sizeof(NETANA_GPIO_BLOCK_T), sizeof(NETANA_FILTER_BASE_T). */
  const BASE_SIZE := 0x600
  const GPIO_SIZE := 20
  const FILTER_BASE_SIZE := 4
  const IDENT_SIZE := 30

  datatype Region = Region(start: nat, len: nat)

  /** What the system information block says. */
  datatype Sizes = Sizes(gpios: nat, ports: nat, filterSize: nat, counterSize: nat)

  /** Every port has its filter base, then mask and value of filter A, mask and value of filter B. */
  const PER_PORT := 5

  function FilterBase(z: Sizes, port: nat): nat { z.gpios + PER_PORT * port }

  function Mask(z: Sizes, port: nat, filter: nat): nat { FilterBase(z, port) + 1 + 2 * filter }

  function Value(z: Sizes, port: nat, filter: nat): nat { FilterBase(z, port) + 2 + 2 * filter }

  function Counters(z: Sizes, port: nat): nat { z.gpios + PER_PORT * z.ports + port }

  function RegionCount(z: Sizes): nat { z.gpios + PER_PORT * z.ports + z.ports + 1 }

  function End(regions: seq<Region>): nat {
    if regions == [] then BASE_SIZE else regions[|regions| - 1].start + regions[|regions| - 1].len
  }

  /** Each block starts where the one before it ends. */
  predicate Contiguous(regions: seq<Region>) {
    forall i | 0 <= i < |regions| :: regions[i].start == End(regions[..i])
  }

  predicate Placed(z: Sizes, regions: seq<Region>) {
    && Contiguous(regions) && |regions| == RegionCount(z)
    && (forall i | 0 <= i < z.gpios :: regions[i].len == GPIO_SIZE)
    && (forall p | 0 <= p < z.ports :: PortPlaced(z, regions, p))
    && (forall p: nat | p < z.ports :: regions[Counters(z, p)].len == z.counterSize)
    && regions[|regions| - 1].len == IDENT_SIZE
  }

  predicate PortPlaced(z: Sizes, regions: seq<Region>, p: nat) {
    && FilterBase(z, p) + PER_PORT <= |regions|
    && regions[FilterBase(z, p)].len == FILTER_BASE_SIZE
    && forall i | FilterBase(z, p) < i < FilterBase(z, p) + PER_PORT :: regions[i].len == z.filterSize
  }

  /** No two blocks overlap. */
  lemma {:induction false} InOrder(regions: seq<Region>, i: nat, j: nat)
    requires Contiguous(regions) && i < j < |regions|
    ensures BASE_SIZE <= regions[i].start && regions[i].start + regions[i].len <= regions[j].start
    ensures regions[j].start + regions[j].len <= End(regions)
    decreases |regions|, j
  {
    StartsBehindBase(regions, i);
    if i < j - 1 {
      InOrder(regions, i, j - 1);
    }
    EndsInside(regions, j);
  }

  lemma {:induction false} StartsBehindBase(regions: seq<Region>, i: nat)
    requires Contiguous(regions) && i < |regions|
    ensures BASE_SIZE <= regions[i].start
  {
    if i > 0 {
      StartsBehindBase(regions, i - 1);
    }
  }

  lemma {:induction false} EndsInside(regions: seq<Region>, i: nat)
    requires Contiguous(regions) && i < |regions|
    ensures regions[i].start + regions[i].len <= End(regions)
    decreases |regions| - i
  {
    if i < |regions| - 1 {
      assert regions[i + 1].start == End(regions[..i + 1]) == regions[i].start + regions[i].len;
      EndsInside(regions, i + 1);
    }
  }

  predicate Within(r: Region, k: nat) { r.start <= k < r.start + r.len }

  /** The blocks tile the memory from the base to the end of the last one: every byte is in exactly one. */
  lemma {:induction false} ExactlyOneBlock(regions: seq<Region>, k: nat)
    requires Contiguous(regions) && BASE_SIZE <= k < End(regions)
    ensures exists i | 0 <= i < |regions| :: Within(regions[i], k)
    ensures forall i, j | 0 <= i < |regions| && 0 <= j < |regions| && Within(regions[i], k) && Within(regions[j], k) :: i == j
    decreases |regions|
  {
    var n := |regions| - 1;
    if k < regions[n].start {
      assert forall i | 0 <= i < n :: regions[..n][..i] == regions[..i];
      ExactlyOneBlock(regions[..n], k);
      var i :| 0 <= i < n && Within(regions[..n][i], k);
      assert Within(regions[i], k);
    } else {
      assert Within(regions[n], k);
    }
    forall i, j | 0 <= i < |regions| && 0 <= j < |regions| && Within(regions[i], k) && Within(regions[j], k)
      ensures i == j
    {
      if i < j { InOrder(regions, i, j); } else if j < i { InOrder(regions, j, i); }
    }
  }

  method Append(regions: seq<Region>, current: nat, len: nat) returns (r: seq<Region>, next: nat)
    requires Contiguous(regions) && current == End(regions)
    ensures Contiguous(r) && next == End(r) && r == regions + [Region(current, len)] && regions <= r
  {
    r := regions + [Region(current, len)];
    next := current + len;
    assert forall i | 0 <= i <= |regions| :: r[..i] == regions[..i];
    assert regions[..|regions|] == regions;
  }

  method PlaceGpios(z: Sizes) returns (r: seq<Region>, current: nat)
    ensures Contiguous(r) && current == End(r) && |r| == z.gpios
    ensures forall i | 0 <= i < |r| :: r[i].len == GPIO_SIZE
  {
    r, current := [], BASE_SIZE;
    var idx := 0;
    while idx < z.gpios
      invariant idx <= z.gpios && |r| == idx && Contiguous(r) && current == End(r)
      invariant forall i | 0 <= i < idx :: r[i].len == GPIO_SIZE
    {
      r, current := Append(r, current, GPIO_SIZE);
      idx := idx + 1;
    }
  }

  /** The filter base, and mask and value of both filters. */
  method PlacePort(z: Sizes, regions: seq<Region>, current: nat, p: nat) returns (r: seq<Region>, next: nat)
    requires Contiguous(regions) && current == End(regions) && |regions| == FilterBase(z, p)
    ensures Contiguous(r) && next == End(r) && |r| == FilterBase(z, p + 1) && regions <= r && PortPlaced(z, r, p)
  {
    r, next := Append(regions, current, FILTER_BASE_SIZE);
    var filter := 0;
    while filter < 2
      invariant filter <= 2 && Contiguous(r) && next == End(r)
      invariant |r| == |regions| + 1 + 2 * filter && FiltersPlaced(z, regions, r)
    {
      var before := r;
      r, next := PlaceFilter(z, r, next);
      MoreFilters(z, regions, before, r);
      filter := filter + 1;
    }
  }

  /** Behind `regions`: a filter base, and then only masks and values. */
  predicate FiltersPlaced(z: Sizes, regions: seq<Region>, r: seq<Region>) {
    && regions <= r && |regions| < |r| && r[|regions|].len == FILTER_BASE_SIZE
    && forall i | |regions| < i < |r| :: r[i].len == z.filterSize
  }

  lemma MoreFilters(z: Sizes, regions: seq<Region>, before: seq<Region>, r: seq<Region>)
    requires FiltersPlaced(z, regions, before) && before <= r && |r| == |before| + 2
    requires r[|before|].len == r[|before| + 1].len == z.filterSize
    ensures FiltersPlaced(z, regions, r)
  {
    Keeps(before, r);
  }

  method PlaceFilter(z: Sizes, regions: seq<Region>, current: nat) returns (r: seq<Region>, next: nat)
    requires Contiguous(regions) && current == End(regions)
    ensures Contiguous(r) && next == End(r) && |r| == |regions| + 2 && regions <= r
    ensures r[|regions|].len == r[|regions| + 1].len == z.filterSize
  {
    r, next := Append(regions, current, z.filterSize);
    r, next := Append(r, next, z.filterSize);
  }

  lemma PortStaysPlaced(z: Sizes, regions: seq<Region>, r: seq<Region>, p: nat)
    requires PortPlaced(z, regions, p) && regions <= r
    ensures PortPlaced(z, r, p)
  {
    forall i | 0 <= i < |regions| ensures r[i] == regions[i] {
      assert r[..|regions|][i] == r[i];
    }
  }

  predicate PortsPlaced(z: Sizes, regions: seq<Region>, n: nat) {
    forall p: nat | p < n :: PortPlaced(z, regions, p)
  }

  lemma MorePortsPlaced(z: Sizes, regions: seq<Region>, before: seq<Region>, r: seq<Region>, n: nat)
    requires PortsPlaced(z, before, n) && PortPlaced(z, r, n) && regions <= before <= r
    ensures PortsPlaced(z, r, n + 1) && regions <= r
  {
    forall p: nat | p < n ensures PortPlaced(z, r, p) { PortStaysPlaced(z, before, r, p); }
  }

  method PlacePorts(z: Sizes, regions: seq<Region>, current: nat) returns (r: seq<Region>, next: nat)
    requires Contiguous(regions) && current == End(regions) && |regions| == z.gpios
    ensures Contiguous(r) && next == End(r) && |r| == FilterBase(z, z.ports) && regions <= r
    ensures PortsPlaced(z, r, z.ports)
  {
    r, next := regions, current;
    var idx := 0;
    while idx < z.ports
      invariant idx <= z.ports && |r| == FilterBase(z, idx) && Contiguous(r) && next == End(r) && regions <= r
      invariant PortsPlaced(z, r, idx)
    {
      var before := r;
      r, next := PlacePort(z, r, next, idx);
      MorePortsPlaced(z, regions, before, r, idx);
      idx := idx + 1;
    }
  }

  method PlaceCounters(z: Sizes, regions: seq<Region>, current: nat) returns (r: seq<Region>, next: nat)
    requires Contiguous(regions) && current == End(regions) && |regions| == FilterBase(z, z.ports)
    ensures Contiguous(r) && next == End(r) && |r| == Counters(z, z.ports) && regions <= r
    ensures forall i | |regions| <= i < |r| :: r[i].len == z.counterSize
  {
    r, next := regions, current;
    var idx := 0;
    while idx < z.ports
      invariant idx <= z.ports && |r| == Counters(z, idx) && Contiguous(r) && next == End(r) && regions <= r
      invariant forall i | |regions| <= i < |r| :: r[i].len == z.counterSize
    {
      r, next := Append(r, next, z.counterSize);
      idx := idx + 1;
    }
  }

  /** The layout part of `netana_tkit_deviceadd`: a pointer runs over the blocks. */
  method Place(z: Sizes) returns (regions: seq<Region>)
    ensures Placed(z, regions)
  {
    var gpios, g := PlaceGpios(z);
    var ports, p := PlacePorts(z, gpios, g);
    var counters, c := PlaceCounters(z, ports, p);
    var e: nat;
    regions, e := Append(counters, c, IDENT_SIZE);
    assert gpios <= regions && ports <= regions && counters <= regions;
    Keeps(gpios, regions);
    Keeps(counters, regions);
    forall p | 0 <= p < z.ports ensures PortPlaced(z, regions, p) { PortStaysPlaced(z, ports, regions, p); }
  }

  lemma Keeps(a: seq<Region>, b: seq<Region>)
    requires a <= b
    ensures forall i | 0 <= i < |a| :: b[i] == a[i]
  {
    assert b[..|a|] == a;
  }

  // ---------------------------------------------------------------------------------------------
  // Where everything lies
  // ---------------------------------------------------------------------------------------------

  lemma NextStart(regions: seq<Region>, i: nat)
    requires Contiguous(regions) && i + 1 < |regions|
    ensures regions[i + 1].start == regions[i].start + regions[i].len
  {
    assert regions[..i + 1][i] == regions[i];
  }

  /** `n` blocks of one length, and one behind them. */
  predicate AllOf(regions: seq<Region>, i: nat, n: nat, len: nat) {
    i + n < |regions| && forall k | i <= k < i + n :: regions[k].len == len
  }

  lemma {:induction false} Row(regions: seq<Region>, i: nat, n: nat, len: nat)
    requires Contiguous(regions) && AllOf(regions, i, n, len)
    ensures regions[i + n].start == regions[i].start + len * n
  {
    if n == 0 {
      NoTimes(len);
    } else {
      Row(regions, i, n - 1, len);
      NextStart(regions, i + n - 1);
      OneMoreTime(len, n);
    }
  }

  lemma FirstStart(regions: seq<Region>)
    requires Contiguous(regions) && regions != []
    ensures regions[0].start == 0x600
  {
    assert regions[..0] == [];
  }

  lemma OnePort(z: Sizes, regions: seq<Region>, p: nat)
    requires Contiguous(regions) && p < z.ports && PortPlaced(z, regions, p) && FilterBase(z, p + 1) < |regions|
    ensures var base := regions[FilterBase(z, p)].start;
            && regions[Mask(z, p, 0)].start == base + 4 && regions[Value(z, p, 0)].start == base + 4 + z.filterSize
            && regions[Mask(z, p, 1)].start == base + 4 + 2 * z.filterSize
            && regions[Value(z, p, 1)].start == base + 4 + 3 * z.filterSize
            && regions[FilterBase(z, p + 1)].start == base + 4 + 4 * z.filterSize
  {
    var i := FilterBase(z, p);
    NextStart(regions, i);
    NextStart(regions, i + 1);
    NextStart(regions, i + 2);
    NextStart(regions, i + 3);
    NextStart(regions, i + 4);
  }

  predicate StartsAt(regions: seq<Region>, i: nat, start: int) { i < |regions| && regions[i].start == start }

  lemma FirstPort(z: Sizes, regions: seq<Region>)
    requires Placed(z, regions)
    ensures StartsAt(regions, FilterBase(z, 0), 0x600 + 20 * z.gpios)
  {
    FirstStart(regions);
    Row(regions, 0, z.gpios, 20);
  }

  lemma PortAfter(z: Sizes, regions: seq<Region>, p: nat, start: int)
    requires Placed(z, regions) && p < z.ports && StartsAt(regions, FilterBase(z, p), start)
    ensures StartsAt(regions, FilterBase(z, p + 1), start + 4 + 4 * z.filterSize)
  {
    assert PortPlaced(z, regions, p);
    OnePort(z, regions, p);
  }

  lemma {:induction false} PortBase(z: Sizes, regions: seq<Region>, first: int, each: int, p: nat)
    requires Placed(z, regions) && p <= z.ports && first == 0x600 + 20 * z.gpios && each == 4 + 4 * z.filterSize
    ensures StartsAt(regions, FilterBase(z, p), first + each * p)
  {
    if p == 0 {
      FirstPort(z, regions);
      NoTimes(each);
    } else {
      PortBase(z, regions, first, each, p - 1);
      PortAfter(z, regions, p - 1, first + each * (p - 1));
      OneMoreTime(each, p);
    }
  }

  lemma NoTimes(x: int)
    ensures x * 0 == 0
  {
  }

  lemma OneMoreTime(x: int, n: nat)
    requires n > 0
    ensures x * n == x * (n - 1) + x
  {
  }

  lemma CountersAlike(z: Sizes, regions: seq<Region>, p: nat)
    requires Placed(z, regions) && p <= z.ports
    ensures AllOf(regions, Counters(z, 0), p, z.counterSize)
  {
    var i := Counters(z, 0);
    forall k | i <= k < i + p ensures regions[k].len == z.counterSize {
      assert regions[Counters(z, k - i)].len == z.counterSize;
    }
  }

  lemma CounterRow(z: Sizes, regions: seq<Region>, p: nat)
    requires Placed(z, regions) && p <= z.ports
    ensures Counters(z, p) < |regions|
    ensures regions[Counters(z, p)].start == regions[Counters(z, 0)].start + z.counterSize * p
  {
    CountersAlike(z, regions, p);
    Row(regions, Counters(z, 0), p, z.counterSize);
  }

  /** Block `i` lies there. */
  predicate At(regions: seq<Region>, i: nat, start: int, len: nat) {
    i < |regions| && regions[i].start == start && regions[i].len == len
  }

  /** The byte address of a GPIO block. */
  lemma GpioAddress(z: Sizes, regions: seq<Region>, i: nat)
    requires Placed(z, regions) && i < z.gpios
    ensures At(regions, i, 0x600 + 20 * i, 20)
  {
    FirstStart(regions);
    Row(regions, 0, i, 20);
  }

  /** The byte addresses of a port's filters, from the sizes in the system information block alone. */
  lemma FilterAddresses(z: Sizes, regions: seq<Region>, p: nat)
    requires Placed(z, regions) && p < z.ports
    ensures var base := 0x600 + 20 * z.gpios + (4 + 4 * z.filterSize) * p;
            && At(regions, FilterBase(z, p), base, 4)
            && At(regions, Mask(z, p, 0), base + 4, z.filterSize)
            && At(regions, Value(z, p, 0), base + 4 + z.filterSize, z.filterSize)
            && At(regions, Mask(z, p, 1), base + 4 + 2 * z.filterSize, z.filterSize)
            && At(regions, Value(z, p, 1), base + 4 + 3 * z.filterSize, z.filterSize)
  {
    PortBase(z, regions, 0x600 + 20 * z.gpios, 4 + 4 * z.filterSize, p);
    assert PortPlaced(z, regions, p);
    OnePort(z, regions, p);
  }

  /** The byte addresses of a port's counters, and of the identification behind all counters. */
  lemma CounterAddress(z: Sizes, regions: seq<Region>, p: nat)
    requires Placed(z, regions) && p <= z.ports
    ensures var start := 0x600 + 20 * z.gpios + (4 + 4 * z.filterSize) * z.ports + z.counterSize * p;
            At(regions, Counters(z, p), start, if p < z.ports then z.counterSize else 30)
  {
    PortBase(z, regions, 0x600 + 20 * z.gpios, 4 + 4 * z.filterSize, z.ports);
    CounterRow(z, regions, p);
  }

  // ---------------------------------------------------------------------------------------------
  // Memory as blocks
  // ---------------------------------------------------------------------------------------------

  predicate Fits(regions: seq<Region>, size: nat) {
    Contiguous(regions) && forall i | 0 <= i < |regions| :: BASE_SIZE <= regions[i].start && regions[i].start + regions[i].len <= size
  }

  lemma FitsIff(regions: seq<Region>, size: nat)
    requires Contiguous(regions) && regions != []
    ensures Fits(regions, size) <==> End(regions) <= size
  {
    forall i | 0 <= i < |regions|
      ensures BASE_SIZE <= regions[i].start && regions[i].start + regions[i].len <= End(regions)
    {
      StartsBehindBase(regions, i);
      EndsInside(regions, i);
    }
  }

  function Content(mem: seq<byte>, r: Region): (s: seq<byte>)
    requires r.start + r.len <= |mem|
    ensures |s| == r.len
  {
    mem[r.start..r.start + r.len]
  }

  function View(mem: seq<byte>, regions: seq<Region>): (v: seq<seq<byte>>)
    requires Fits(regions, |mem|)
    ensures |v| == |regions|
  {
    seq(|regions|, i requires 0 <= i < |regions| => Content(mem, regions[i]))
  }

  /** `s` with `data` written at `at`. */
  function Overlay(s: seq<byte>, at: nat, data: seq<byte>): (r: seq<byte>)
    requires at + |data| <= |s|
    ensures |r| == |s|
  {
    s[..at] + data + s[at + |data|..]
  }

  lemma OverlayElsewhere(s: seq<byte>, at: nat, data: seq<byte>, lo: nat, hi: nat)
    requires at + |data| <= |s| && lo <= hi <= |s| && (hi <= at || at + |data| <= lo)
    ensures Overlay(s, at, data)[lo..hi] == s[lo..hi]
  {
  }

  lemma OverlayInside(s: seq<byte>, start: nat, len: nat, at: nat, data: seq<byte>)
    requires start + len <= |s| && at + |data| <= len
    ensures Overlay(s, start + at, data)[start..start + len] == Overlay(s[start..start + len], at, data)
  {
  }

  predicate Apart(r: Region, q: Region) { q.start + q.len <= r.start || r.start + r.len <= q.start }

  lemma ContentElsewhere(mem: seq<byte>, r: Region, q: Region, at: nat, data: seq<byte>)
    requires r.start + r.len <= |mem| && q.start + q.len <= |mem| && at + |data| <= r.len && Apart(r, q)
    ensures Content(Overlay(mem, r.start + at, data), q) == Content(mem, q)
  {
    OverlayElsewhere(mem, r.start + at, data, q.start, q.start + q.len);
  }

  lemma ContentWritten(mem: seq<byte>, r: Region, at: nat, data: seq<byte>)
    requires r.start + r.len <= |mem| && at + |data| <= r.len
    ensures Content(Overlay(mem, r.start + at, data), r) == Overlay(Content(mem, r), at, data)
  {
    OverlayInside(mem, r.start, r.len, at, data);
  }

  lemma BlocksApart(regions: seq<Region>, i: nat, j: nat)
    requires Contiguous(regions) && i < |regions| && j < |regions| && i != j
    ensures Apart(regions[i], regions[j])
  {
    if j < i { InOrder(regions, j, i); } else { InOrder(regions, i, j); }
  }

  lemma BlockAfterWrite(mem: seq<byte>, regions: seq<Region>, i: nat, at: nat, data: seq<byte>, j: nat)
    requires Fits(regions, |mem|) && i < |regions| && j < |regions| && at + |data| <= regions[i].len
    ensures Content(Overlay(mem, regions[i].start + at, data), regions[j])
            == if j == i then Overlay(Content(mem, regions[i]), at, data) else Content(mem, regions[j])
  {
    if j == i {
      ContentWritten(mem, regions[i], at, data);
    } else {
      BlocksApart(regions, i, j);
      ContentElsewhere(mem, regions[i], regions[j], at, data);
    }
  }

  lemma OutsideAfterWrite(mem: seq<byte>, regions: seq<Region>, i: nat, at: nat, data: seq<byte>)
    requires Fits(regions, |mem|) && i < |regions| && at + |data| <= regions[i].len
    ensures var after := Overlay(mem, regions[i].start + at, data);
            && after[..BASE_SIZE] == mem[..BASE_SIZE]
            && End(regions) <= |mem| && after[End(regions)..] == mem[End(regions)..]
  {
    var start := regions[i].start + at;
    FitsIff(regions, |mem|);
    EndsInside(regions, i);
    OverlayElsewhere(mem, start, data, 0, BASE_SIZE);
    OverlayElsewhere(mem, start, data, End(regions), |mem|);
  }

  /** A write into one block changes that block, no other one, and nothing outside the blocks. */
  lemma WriteStaysInBlock(mem: seq<byte>, regions: seq<Region>, i: nat, at: nat, data: seq<byte>)
    requires Fits(regions, |mem|) && i < |regions| && at + |data| <= regions[i].len
    ensures var after := Overlay(mem, regions[i].start + at, data);
            && View(after, regions) == View(mem, regions)[i := Overlay(Content(mem, regions[i]), at, data)]
            && after[..BASE_SIZE] == mem[..BASE_SIZE]
            && End(regions) <= |mem| && after[End(regions)..] == mem[End(regions)..]
  {
    OutsideAfterWrite(mem, regions, i, at, data);
    forall j | 0 <= j < |regions|
      ensures Content(Overlay(mem, regions[i].start + at, data), regions[j])
              == if j == i then Overlay(Content(mem, regions[i]), at, data) else Content(mem, regions[j])
    {
      BlockAfterWrite(mem, regions, i, at, data, j);
    }
  }
}
