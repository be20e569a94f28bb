/**
Reading capture files back.  A reader has the bytes on disk and the start time of the capture; it
takes the finished files of that capture in the order of their header numbers.
*/
module CaptureFilesOnDisk {
  import opened Words
  import opened CaptureFiles
  import opened CaptureFilesTheorems

  // ---------------------------------------------------------------------------------------------
  // The reader
  // ---------------------------------------------------------------------------------------------

  /** A finished file of the capture that began at `start`. */
  predicate Finished(bytes: seq<byte>, start: nat) {
    && HEADER_SIZE <= |bytes|
    && Decode(bytes).cookie == COOKIE && Decode(bytes).start == start
    && Decode(bytes).size != INVALID && HEADER_SIZE + Decode(bytes).size <= |bytes|
  }

  /** What a file adds to the stream under number `v`. */
  function Contribution(bytes: seq<byte>, start: nat, v: nat): seq<byte> {
    if Finished(bytes, start) && Decode(bytes).idx == v then bytes[HEADER_SIZE..HEADER_SIZE + Decode(bytes).size] else []
  }

  function Contributions(disk: seq<seq<byte>>, start: nat, v: nat): (parts: seq<Block>)
    ensures |parts| == |disk|
  {
    seq(|disk|, k requires 0 <= k < |disk| => Contribution(disk[k], start, v))
  }

  /** All files numbered `v`. */
  function Numbered(disk: seq<seq<byte>>, start: nat, v: nat): seq<byte> {
    Bytes(Contributions(disk, start, v))
  }

  /** The files by their numbers, which have 32 bits. */
  function ByNumber(disk: seq<seq<byte>>, start: nat): (parts: seq<Block>)
    ensures |parts| == WORD
  {
    seq(WORD, v requires 0 <= v < WORD => Numbered(disk, start, v))
  }

  /** All files in the order of their numbers. */
  function ReadBack(disk: seq<seq<byte>>, start: nat): seq<byte> {
    Bytes(ByNumber(disk, start))
  }

  function Disk(s: Store): (disk: seq<seq<byte>>)
    requires s.count <= |s.files|
    ensures |disk| == s.count
  {
    seq(s.count, k requires 0 <= k < s.count => s.files[k].bytes)
  }

  // ---------------------------------------------------------------------------------------------
  // One file
  // ---------------------------------------------------------------------------------------------

  /** A held generation contributes its payload under its number alone, an open one nothing. */
  lemma HeldContribution(f: File, base: Header, payload: seq<byte>, g: nat, open: bool, v: nat)
    requires Holds(f, base, payload, g, open) && base.Valid() && base.cookie == COOKIE && |payload| < INVALID
    ensures Contribution(f.bytes, base.start, v) == if !open && v == g % WORD then payload else []
  {
    HeaderRoundTrip(base.(idx := g % WORD, size := if open then INVALID else |payload|), f.bytes);
  }

  /** Nothing that a file held before passes for a part of this capture. */
  ghost predicate Foreign(bytes: seq<byte>, start: nat) {
    Finished(bytes, start) ==> Decode(bytes).size == 0
  }

  lemma ForeignContribution(bytes: seq<byte>, start: nat, v: nat)
    requires Foreign(bytes, start)
    ensures Contribution(bytes, start, v) == []
  {
  }

  // ---------------------------------------------------------------------------------------------
  // One number
  // ---------------------------------------------------------------------------------------------

  lemma {:induction false} OnePart(parts: seq<Block>, k: nat)
    requires k < |parts| && forall j | 0 <= j < |parts| && j != k :: parts[j] == []
    ensures Bytes(parts) == parts[k]
  {
    var n := |parts| - 1;
    if k == n {
      NoBytes(parts[..n]);
    } else {
      OnePart(parts[..n], k);
    }
  }

  /** The generations as a reader sees them: the open one is empty. */
  function Seen(gens: seq<seq<Block>>, open: bool): (r: seq<seq<Block>>)
    requires gens != []
    ensures |r| == |gens|
  {
    if open then gens[|gens| - 1 := []] else gens
  }

  ghost predicate OnDisk(disk: seq<seq<byte>>, current: nat, start: nat, seen: seq<seq<Block>>) {
    forall k, v: nat | 0 <= k < |disk| ::
      Contribution(disk[k], start, v) == SlotContribution(current, |disk|, seen, k, v)
  }

  function SlotContribution(current: nat, count: nat, seen: seq<seq<Block>>, k: nat, v: nat): seq<byte> {
    var i := GenOf(current, count, |seen| - 1, k);
    if 0 <= i < |seen| && i % WORD == v then Bytes(seen[i]) else []
  }

  lemma RepOnDisk(s: Store, base: Header, gens: seq<seq<Block>>, open: bool, files0: seq<File>)
    requires Rep(s, base, gens, open, files0) && base.cookie == COOKIE
    requires forall k | 0 < k < s.count :: Foreign(files0[k].bytes, base.start)
    ensures OnDisk(Disk(s), s.current, base.start, Seen(gens, open))
  {
    forall k, v: nat | 0 <= k < s.count
      ensures Contribution(s.files[k].bytes, base.start, v) == SlotContribution(s.current, s.count, Seen(gens, open), k, v)
    {
      SlotOnDisk(s, base, gens, open, files0, k, v);
    }
  }

  lemma SlotOnDisk(s: Store, base: Header, gens: seq<seq<Block>>, open: bool, files0: seq<File>, k: nat, v: nat)
    requires Rep(s, base, gens, open, files0) && base.cookie == COOKIE && k < s.count
    requires forall k | 0 < k < s.count :: Foreign(files0[k].bytes, base.start)
    ensures Contribution(s.files[k].bytes, base.start, v) == SlotContribution(s.current, s.count, Seen(gens, open), k, v)
  {
    var i := GenOf(s.current, s.count, |gens| - 1, k);
    if 0 <= i < |gens| {
      assert SlotContribution(s.current, s.count, Seen(gens, open), k, v) == GenContribution(Seen(gens, open), i, v);
      HeldSlotOnDisk(s, base, gens, open, files0, k, i, v);
    } else {
      SlotUnused(s, base, gens, open, files0, k);
      ForeignContribution(s.files[k].bytes, base.start, v);
    }
  }

  function GenContribution(seen: seq<seq<Block>>, i: nat, v: nat): seq<byte>
    requires i < |seen|
  {
    if i % WORD == v then Bytes(seen[i]) else []
  }

  lemma HeldSlotOnDisk(s: Store, base: Header, gens: seq<seq<Block>>, open: bool, files0: seq<File>, k: nat, i: nat, v: nat)
    requires Rep(s, base, gens, open, files0) && base.cookie == COOKIE && k < s.count
    requires i == GenOf(s.current, s.count, |gens| - 1, k) && i < |gens|
    ensures Contribution(s.files[k].bytes, base.start, v) == GenContribution(Seen(gens, open), i, v)
  {
    SlotHolds(s, base, gens, open, files0, k, i);
    HeldOnDisk(s.files[k], base, gens, open, i, v);
  }

  lemma HeldOnDisk(f: File, base: Header, gens: seq<seq<Block>>, open: bool, i: nat, v: nat)
    requires i < |gens| && Holds(f, base, Bytes(gens[i]), i, open && i == |gens| - 1)
    requires base.Valid() && base.cookie == COOKIE && |Bytes(gens[i])| < INVALID
    ensures Contribution(f.bytes, base.start, v) == GenContribution(Seen(gens, open), i, v)
  {
    HeldContribution(f, base, Bytes(gens[i]), i, open && i == |gens| - 1, v);
    SeenAt(gens, open, i);
  }

  lemma SlotHolds(s: Store, base: Header, gens: seq<seq<Block>>, open: bool, files0: seq<File>, k: nat, i: nat)
    requires Rep(s, base, gens, open, files0) && k < s.count && i == GenOf(s.current, s.count, |gens| - 1, k) && i < |gens|
    ensures Holds(s.files[k], base, Bytes(gens[i]), i, open && i == |gens| - 1)
    ensures base.Valid() && |Bytes(gens[i])| < INVALID
  {
    assert HEADER_SIZE + |Bytes(gens[i])| <= s.fileSize;
  }

  lemma SlotUnused(s: Store, base: Header, gens: seq<seq<Block>>, open: bool, files0: seq<File>, k: nat)
    requires Rep(s, base, gens, open, files0) && k < s.count
    requires GenOf(s.current, s.count, |gens| - 1, k) < 0
    ensures 0 < k && s.files[k] == files0[k]
  {
  }

  lemma SeenAt(gens: seq<seq<Block>>, open: bool, i: nat)
    requires i < |gens|
    ensures Bytes(Seen(gens, open)[i]) == if open && i == |gens| - 1 then [] else Bytes(gens[i])
  {
    assert Bytes([]) == [];
  }

  /** The file that has generation i. */
  function FileOf(current: nat, count: nat, g: nat, i: nat): (k: nat)
    requires current < count && i <= g < i + count
    ensures k < count && GenOf(current, count, g, k) == i
  {
    if g - i <= current then current - (g - i) else current + count - (g - i)
  }

  lemma NumberHit(disk: seq<seq<byte>>, current: nat, start: nat, seen: seq<seq<Block>>, i: nat)
    requires OnDisk(disk, current, start, seen) && current < |disk| <= MAX_FILES && i < |seen| <= i + |disk|
    ensures Numbered(disk, start, i % WORD) == Bytes(seen[i])
  {
    var v := i % WORD;
    var k := FileOf(current, |disk|, |seen| - 1, i);
    forall j | 0 <= j < |disk| && j != k
      ensures Contribution(disk[j], start, v) == []
    {
      var i' := GenOf(current, |disk|, |seen| - 1, j);
      assert i' != i && -MAX_FILES < i' - i < MAX_FILES;
      if 0 <= i' {
        NumbersDiffer(i, i');
      }
    }
    OnePart(Contributions(disk, start, v), k);
  }

  lemma NumbersDiffer(a: nat, b: nat)
    requires a != b && -MAX_FILES < a - b < MAX_FILES
    ensures a % WORD != b % WORD
  {
  }

  lemma NumberMiss(disk: seq<seq<byte>>, current: nat, start: nat, seen: seq<seq<Block>>, v: nat)
    requires OnDisk(disk, current, start, seen) && current < |disk|
    requires forall i: nat | i < |seen| <= i + |disk| :: i % WORD != v
    ensures Numbered(disk, start, v) == []
  {
    forall j | 0 <= j < |disk|
      ensures Contribution(disk[j], start, v) == []
    {
      var i := GenOf(current, |disk|, |seen| - 1, j);
      assert i < |seen| <= i + |disk|;
    }
    NoBytes(Contributions(disk, start, v));
  }

  // ---------------------------------------------------------------------------------------------
  // All numbers
  // ---------------------------------------------------------------------------------------------

  lemma SplitAt(parts: seq<Block>, x: nat)
    requires x <= |parts|
    ensures Bytes(parts) == Bytes(parts[..x]) + Bytes(parts[x..])
  {
    var a, b := parts[..x], parts[x..];
    assert Bytes(a + b) == Bytes(a) + Bytes(b) by { BytesAppend(a, b); }
    assert parts == a + b;
  }

  lemma Pieces(parts: seq<Block>, x: nat, y: nat)
    requires x <= y <= |parts|
    ensures Bytes(parts) == Bytes(parts[..x]) + Bytes(parts[x..y]) + Bytes(parts[y..])
  {
    var front := parts[..y];
    assert front[..x] == parts[..x] && front[x..] == parts[x..y];
    SplitAt(parts, y);
    SplitAt(front, x);
  }

  lemma WithoutGap(parts: seq<Block>, x: nat, y: nat, front: seq<Block>, back: seq<Block>)
    requires x <= y <= |parts| && parts[..x] == front && parts[y..] == back && Bytes(parts[x..y]) == []
    ensures Bytes(parts) == Bytes(front) + Bytes(back)
  {
    Pieces(parts, x, y);
  }

  /** `parts` has, by number modulo 2^32, the generations of `gens` from `lost` on, and nothing else. */
  ghost predicate Lists(parts: seq<Block>, gens: seq<Block>, lost: nat) {
    && |parts| == WORD && lost <= |gens| <= lost + WORD
    && (forall k: nat | lost <= k < |gens| :: parts[k % WORD] == gens[k])
    && (forall v: nat | v < WORD && Unlisted(v, lost, |gens|) :: parts[v] == [])
  }

  predicate Unlisted(v: nat, lost: nat, m: nat) {
    forall k: nat | lost <= k < m :: k % WORD != v
  }

  lemma Remainder(k: nat, w: nat)
    requires w % WORD == 0
    ensures w <= k < w + WORD ==> k % WORD == k - w
    ensures k < w <= k + WORD ==> k % WORD == k + WORD - w
  {
  }

  lemma ListedRun(parts: seq<Block>, gens: seq<Block>, lost: nat, a: nat, i: nat, j: nat)
    requires Lists(parts, gens, lost) && lost <= i <= j <= |gens| && a + j - i <= WORD
    requires forall k: nat | i <= k < j :: k % WORD == a + k - i
    ensures parts[a..a + j - i] == gens[i..j]
  {
    var run, wanted := parts[a..a + j - i], gens[i..j];
    forall x | 0 <= x < j - i
      ensures run[x] == wanted[x]
    {
      assert parts[(i + x) % WORD] == gens[i + x];
    }
  }

  lemma ListedGap(parts: seq<Block>, gens: seq<Block>, lost: nat, a: nat, b: nat)
    requires Lists(parts, gens, lost) && a <= b <= WORD
    requires forall k: nat | lost <= k < |gens| :: !(a <= k % WORD < b)
    ensures Bytes(parts[a..b]) == []
  {
    forall v: nat | a <= v < b
      ensures parts[v] == []
    {
      assert Unlisted(v, lost, |gens|);
    }
    NoBytes(parts[a..b]);
  }

  /** The number restarts at generation w, after `lost`: what is behind the restart comes first. */
  lemma Restarted(parts: seq<Block>, gens: seq<Block>, lost: nat, w: nat)
    requires Lists(parts, gens, lost) && w % WORD == 0 && lost < w < |gens|
    ensures Bytes(parts) == Bytes(gens[w..]) + Bytes(gens[lost..w])
  {
    RestartedNew(parts, gens, lost, w);
    RestartedOld(parts, gens, lost, w);
    RestartedGap(parts, gens, lost, w);
    WithoutGap(parts, |gens| - w, lost + WORD - w, gens[w..], gens[lost..w]);
  }

  lemma RestartedNew(parts: seq<Block>, gens: seq<Block>, lost: nat, w: nat)
    requires Lists(parts, gens, lost) && w % WORD == 0 && lost < w < |gens|
    ensures parts[..|gens| - w] == gens[w..]
  {
    forall k: nat | w <= k < |gens| ensures k % WORD == 0 + k - w { Remainder(k, w); }
    ListedRun(parts, gens, lost, 0, w, |gens|);
  }

  lemma RestartedOld(parts: seq<Block>, gens: seq<Block>, lost: nat, w: nat)
    requires Lists(parts, gens, lost) && w % WORD == 0 && lost < w < |gens|
    ensures parts[lost + WORD - w..] == gens[lost..w]
  {
    var y := lost + WORD - w;
    forall k: nat | lost <= k < w ensures k % WORD == y + k - lost { Remainder(k, w); }
    ListedRun(parts, gens, lost, y, lost, w);
  }

  lemma RestartedGap(parts: seq<Block>, gens: seq<Block>, lost: nat, w: nat)
    requires Lists(parts, gens, lost) && w % WORD == 0 && lost < w < |gens|
    ensures Bytes(parts[|gens| - w..lost + WORD - w]) == []
  {
    forall k: nat | lost <= k < |gens|
      ensures !(|gens| - w <= k % WORD < lost + WORD - w)
    {
      Remainder(k, w);
    }
    ListedGap(parts, gens, lost, |gens| - w, lost + WORD - w);
  }

  /** The number does not restart: the generations come in order. */
  lemma Steady(parts: seq<Block>, gens: seq<Block>, lost: nat, w: nat)
    requires Lists(parts, gens, lost) && w % WORD == 0 && w <= lost <= |gens| <= w + WORD
    ensures Bytes(parts) == Bytes(gens[lost..])
  {
    var a, b := lost - w, |gens| - w;
    assert parts[a..b] == gens[lost..] by { SteadyRun(parts, gens, lost, w); }
    assert Bytes(parts[..a]) == [] == Bytes(parts[b..]) by { SteadyGaps(parts, gens, lost, w); }
    Pieces(parts, a, b);
  }

  lemma SteadyRun(parts: seq<Block>, gens: seq<Block>, lost: nat, w: nat)
    requires Lists(parts, gens, lost) && w % WORD == 0 && w <= lost <= |gens| <= w + WORD
    ensures parts[lost - w..|gens| - w] == gens[lost..]
  {
    var a := lost - w;
    forall k: nat | lost <= k < |gens| ensures k % WORD == a + k - lost { Remainder(k, w); }
    ListedRun(parts, gens, lost, a, lost, |gens|);
  }

  lemma SteadyGaps(parts: seq<Block>, gens: seq<Block>, lost: nat, w: nat)
    requires Lists(parts, gens, lost) && w % WORD == 0 && w <= lost <= |gens| <= w + WORD
    ensures Bytes(parts[..lost - w]) == [] == Bytes(parts[|gens| - w..])
  {
    forall k: nat | lost <= k < |gens| ensures k % WORD == k - w { Remainder(k, w); }
    ListedGap(parts, gens, lost, 0, lost - w);
    ListedGap(parts, gens, lost, |gens| - w, WORD);
    assert parts[|gens| - w..WORD] == parts[|gens| - w..];
  }

  /** Where the 32-bit number restarts among the retained generations; the oldest one if it does not. */
  function Restart(n: nat, count: nat): (w: nat)
    requires n > 0
    ensures Lost(n, count) <= w <= n
  {
    var w := (n - 1) / WORD * WORD;
    if w <= Lost(n, count) then Lost(n, count) else w
  }

  /** Of n generations, the number of the newest one tells whether it restarted among the last `count` of them. */
  predicate InOrder(n: nat, count: nat)
    requires n > 0
  {
    n <= WORD || count <= (n - 1) % WORD + 1
  }

  lemma RestartIff(n: nat, count: nat)
    requires 0 < n && 0 < count <= MAX_FILES
    ensures InOrder(n, count) <==> Restart(n, count) == Lost(n, count)
  {
    var w := (n - 1) / WORD * WORD;
    assert n - 1 == w + (n - 1) % WORD;
    assert n <= WORD ==> (n - 1) / WORD == 0;
    assert n > WORD ==> (n - 1) / WORD >= 1;
  }

  lemma ListedInOrder(parts: seq<Block>, gens: seq<Block>, count: nat)
    requires gens != [] && 0 < count <= MAX_FILES && Lists(parts, gens, Lost(|gens|, count))
    ensures var lost, w := Lost(|gens|, count), Restart(|gens|, count);
            Bytes(parts) == Bytes(gens[w..]) + Bytes(gens[lost..w])
  {
    var lost, w := Lost(|gens|, count), (|gens| - 1) / WORD * WORD;
    LastRestart(|gens|);
    if w <= lost {
      Steady(parts, gens, lost, w);
      assert gens[lost..lost] == [];
    } else {
      Restarted(parts, gens, lost, w);
    }
  }

  lemma LastRestart(n: nat)
    requires n > 0
    ensures var w := (n - 1) / WORD * WORD; w % WORD == 0 && w < n <= w + WORD
  {
  }

  function ByGeneration(gens: seq<seq<Block>>): (parts: seq<Block>)
    ensures |parts| == |gens|
  {
    seq(|gens|, k requires 0 <= k < |gens| => Bytes(gens[k]))
  }

  lemma {:induction false} GenerationBytes(gens: seq<seq<Block>>)
    ensures Bytes(ByGeneration(gens)) == Bytes(Blocks(gens))
  {
    if gens == [] {
      assert ByGeneration(gens) == [];
    } else {
      var before, last := gens[..|gens| - 1], gens[|gens| - 1];
      GenerationBytes(before);
      assert ByGeneration(gens)[..|gens| - 1] == ByGeneration(before);
      assert Bytes(Blocks(before + [last])) == Bytes(Blocks(before)) + Bytes(last) by { GenAppend(before, last); }
      assert gens == before + [last];
    }
  }

  lemma PartBytes(gens: seq<seq<Block>>, i: nat, j: nat)
    requires i <= j <= |gens|
    ensures Bytes(ByGeneration(gens)[i..j]) == Bytes(Blocks(gens[i..j]))
  {
    GenerationBytes(gens[i..j]);
    assert ByGeneration(gens)[i..j] == ByGeneration(gens[i..j]);
  }

  lemma TailBytes(gens: seq<seq<Block>>, i: nat)
    requires i <= |gens|
    ensures Bytes(ByGeneration(gens)[i..]) == Bytes(Blocks(gens[i..]))
  {
    GenerationBytes(gens[i..]);
    assert ByGeneration(gens)[i..] == ByGeneration(gens[i..]);
  }

  lemma DiskLists(disk: seq<seq<byte>>, current: nat, start: nat, seen: seq<seq<Block>>)
    requires OnDisk(disk, current, start, seen) && current < |disk| <= MAX_FILES
    ensures Lists(ByNumber(disk, start), ByGeneration(seen), Lost(|seen|, |disk|))
  {
    var parts, gens, lost := ByNumber(disk, start), ByGeneration(seen), Lost(|seen|, |disk|);
    forall k: nat | lost <= k < |seen|
      ensures parts[k % WORD] == gens[k]
    {
      NumberHit(disk, current, start, seen, k);
    }
    forall v: nat | v < WORD && Unlisted(v, lost, |seen|)
      ensures parts[v] == []
    {
      NumberMiss(disk, current, start, seen, v);
    }
  }

  /** What a reader gets: everything retained, in order unless the 32-bit number restarted in between. */
  lemma ReadBackIs(disk: seq<seq<byte>>, current: nat, start: nat, seen: seq<seq<Block>>)
    requires OnDisk(disk, current, start, seen) && current < |disk| <= MAX_FILES && seen != []
    ensures var lost, w := Lost(|seen|, |disk|), Restart(|seen|, |disk|);
            ReadBack(disk, start) == Bytes(Blocks(seen[w..])) + Bytes(Blocks(seen[lost..w]))
  {
    DiskLists(disk, current, start, seen);
    ListedInOrder(ByNumber(disk, start), ByGeneration(seen), |disk|);
    PartBytes(seen, Lost(|seen|, |disk|), Restart(|seen|, |disk|));
    TailBytes(seen, Restart(|seen|, |disk|));
  }

  lemma ReadBackInOrder(disk: seq<seq<byte>>, current: nat, start: nat, seen: seq<seq<Block>>)
    requires OnDisk(disk, current, start, seen) && current < |disk| <= MAX_FILES && seen != []
    requires InOrder(|seen|, |disk|)
    ensures ReadBack(disk, start) == Bytes(Blocks(Retained(seen, |disk|)))
  {
    ReadBackIs(disk, current, start, seen);
    RestartIff(|seen|, |disk|);
    NothingBetween(seen, Lost(|seen|, |disk|));
  }

  lemma NothingBetween(gens: seq<seq<Block>>, i: nat)
    requires i <= |gens|
    ensures Bytes(Blocks(gens[i..i])) == []
  {
    assert gens[i..i] == [];
  }

  // ---------------------------------------------------------------------------------------------
  // Main results
  // ---------------------------------------------------------------------------------------------

  /** No file but the first, which is always rewritten, was left with data that carries this start time. */
  ghost predicate NothingStale(s: Store, start: nat) {
    forall k | 0 < k < s.count <= |s.files| :: Foreign(s.files[k].bytes, start)
  }

  lemma FinishedRep(s: Store, ring: bool, start: nat, timezone: nat, blocks: seq<Block>)
    requires Opened(s, start, timezone) && Bounded(blocks, s.fileSize)
    ensures var t := Finish(Captured(s, ring, start, timezone, blocks));
            Rep(t, BaseHeader(start, timezone), Kept(Pack(blocks, s.fileSize), s.count, ring), false, s.files)
  {
    var open := Captured(s, ring, start, timezone, blocks);
    CapturedRep(s, ring, start, timezone, blocks);
    if open.writing {
      FinishKeeps(open, BaseHeader(start, timezone), Kept(Pack(blocks, s.fileSize), s.count, ring), s.files);
    }
  }

  /** After stop, or after the list was full, the disk has everything that was retained, all files finished. */
  lemma FinishedOnDisk(s: Store, ring: bool, start: nat, timezone: nat, blocks: seq<Block>)
    requires Opened(s, start, timezone) && Bounded(blocks, s.fileSize) && NothingStale(s, start)
    ensures var t := Finish(Captured(s, ring, start, timezone, blocks));
            var kept := Kept(Pack(blocks, s.fileSize), s.count, ring);
            && t.current < t.count == s.count <= |t.files|
            && OnDisk(Disk(t), t.current, start, kept)
            && OldestFirst(t) == Bytes(Blocks(Retained(kept, s.count)))
  {
    var t := Finish(Captured(s, ring, start, timezone, blocks));
    var base := BaseHeader(start, timezone);
    var kept := Kept(Pack(blocks, s.fileSize), s.count, ring);
    FinishedRep(s, ring, start, timezone, blocks);
    RepOnDisk(t, base, kept, false, s.files);
    OldestFirstIsRetained(t, base, kept, false, s.files);
  }

  /** The file holds this generation under its number, and its header says so. */
  ghost predicate FileIs(bytes: seq<byte>, gen: seq<Block>, i: nat, start: nat, timezone: nat) {
    var payload := Bytes(gen);
    && 32 + |payload| <= |bytes| && bytes[32..32 + |payload|] == payload
    && Decode(bytes) == Header(0x4145_482e, i % 0x1_0000_0000, start, |payload|, timezone, 0)
  }

  /** Header and payload of every finished file, by the generation it holds. */
  lemma FinishedFile(s: Store, ring: bool, start: nat, timezone: nat, blocks: seq<Block>, t: Store, gens: seq<seq<Block>>,
                     k: nat, i: nat)
    requires Opened(s, start, timezone) && Bounded(blocks, s.fileSize)
    requires t == Finish(Captured(s, ring, start, timezone, blocks))
    requires gens == Kept(Pack(blocks, s.fileSize), s.count, ring)
    requires k < t.count && i < |gens| && i == GenOf(t.current, t.count, |gens| - 1, k)
    ensures k < |t.files| && FileIs(t.files[k].bytes, gens[i], i, start, timezone)
  {
    FinishedRep(s, ring, start, timezone, blocks);
    RepFile(t, start, timezone, gens, s.files, k, i);
  }

  lemma RepFile(t: Store, start: nat, timezone: nat, gens: seq<seq<Block>>, files0: seq<File>, k: nat, i: nat)
    requires Rep(t, BaseHeader(start, timezone), gens, false, files0) && k < t.count
    requires i < |gens| && i == GenOf(t.current, t.count, |gens| - 1, k)
    ensures FileIs(t.files[k].bytes, gens[i], i, start, timezone)
  {
    SlotHolds(t, BaseHeader(start, timezone), gens, false, files0, k, i);
    HeldFile(t.files[k], BaseHeader(start, timezone), Bytes(gens[i]), i);
  }

  lemma HeldFile(f: File, base: Header, payload: seq<byte>, g: nat)
    requires Holds(f, base, payload, g, false) && base.Valid() && |payload| < INVALID
    ensures 32 + |payload| <= |f.bytes| && f.bytes[32..32 + |payload|] == payload
    ensures Decode(f.bytes) == base.(idx := g % 0x1_0000_0000, size := |payload|)
  {
    HeaderRoundTrip(base.(idx := g % WORD, size := |payload|), f.bytes);
  }

  lemma SeenBytes(gens: seq<seq<Block>>, i: nat)
    requires i < |gens|
    ensures Bytes(Blocks(Seen(gens, true)[i..])) == Bytes(Blocks(gens[i..|gens| - 1]))
  {
    GenAppend(gens[i..|gens| - 1], []);
    assert Seen(gens, true)[i..] == gens[i..|gens| - 1] + [[]];
  }

  /** Reading the disk gives back the retained stream; a 32-bit restart among the retained files rotates it. */
  lemma DiskGivesBackStream(s: Store, ring: bool, start: nat, timezone: nat, blocks: seq<Block>)
    requires Opened(s, start, timezone) && Bounded(blocks, s.fileSize) && NothingStale(s, start) && s.count <= MAX_FILES
    ensures var t := Finish(Captured(s, ring, start, timezone, blocks));
            var kept := Kept(Pack(blocks, s.fileSize), s.count, ring);
            var lost, w := Lost(|kept|, s.count), Restart(|kept|, s.count);
            && ReadBack(Disk(t), start) == Bytes(Blocks(kept[w..])) + Bytes(Blocks(kept[lost..w]))
            && (InOrder(|kept|, s.count) ==> ReadBack(Disk(t), start) == OldestFirst(t))
  {
    var kept := Kept(Pack(blocks, s.fileSize), s.count, ring);
    var t := Finish(Captured(s, ring, start, timezone, blocks));
    FinishedOnDisk(s, ring, start, timezone, blocks);
    ReadBackIs(Disk(t), t.current, start, kept);
    if InOrder(|kept|, s.count) {
      ReadBackInOrder(Disk(t), t.current, start, kept);
    }
  }

  /** While the capture runs, the open file does not count: the disk lacks exactly the newest generation. */
  lemma OpenFileIsSkipped(s: Store, ring: bool, start: nat, timezone: nat, blocks: seq<Block>)
    requires Opened(s, start, timezone) && Bounded(blocks, s.fileSize) && NothingStale(s, start) && s.count <= MAX_FILES
    requires Captured(s, ring, start, timezone, blocks).writing && InOrder(|Pack(blocks, s.fileSize)|, s.count)
    ensures var t := Captured(s, ring, start, timezone, blocks);
            var gens := Pack(blocks, s.fileSize);
            ReadBack(Disk(t), start) == Bytes(Blocks(gens[Lost(|gens|, s.count)..|gens| - 1]))
  {
    var t := Captured(s, ring, start, timezone, blocks);
    var disk := Disk(t);
    assert t.current < |disk| == s.count && OnDisk(disk, t.current, start, Seen(Pack(blocks, s.fileSize), true)) by {
      OpenOnDisk(s, ring, start, timezone, blocks);
    }
    ReadBackOpen(disk, t.current, start, Pack(blocks, s.fileSize));
  }

  lemma ReadBackOpen(disk: seq<seq<byte>>, current: nat, start: nat, gens: seq<seq<Block>>)
    requires gens != [] && current < |disk| <= MAX_FILES && OnDisk(disk, current, start, Seen(gens, true))
    requires InOrder(|gens|, |disk|)
    ensures ReadBack(disk, start) == Bytes(Blocks(gens[Lost(|gens|, |disk|)..|gens| - 1]))
  {
    ReadBackInOrder(disk, current, start, Seen(gens, true));
    SeenBytes(gens, Lost(|gens|, |disk|));
  }

  lemma OpenOnDisk(s: Store, ring: bool, start: nat, timezone: nat, blocks: seq<Block>)
    requires Opened(s, start, timezone) && Bounded(blocks, s.fileSize) && NothingStale(s, start)
    requires Captured(s, ring, start, timezone, blocks).writing
    ensures var t := Captured(s, ring, start, timezone, blocks);
            OnDisk(Disk(t), t.current, start, Seen(Pack(blocks, s.fileSize), true))
  {
    var t, gens := Captured(s, ring, start, timezone, blocks), Pack(blocks, s.fileSize);
    CapturedRep(s, ring, start, timezone, blocks);
    assert Kept(gens, s.count, ring) == gens;
    RepOnDisk(t, BaseHeader(start, timezone), gens, true, s.files);
  }

  // ---------------------------------------------------------------------------------------------
  // Exactly when reading back works
  // ---------------------------------------------------------------------------------------------

  lemma {:induction false} EmptyBytes(parts: seq<Block>, k: nat)
    requires k < |parts| && Bytes(parts) == []
    ensures parts[k] == []
  {
    if k < |parts| - 1 {
      EmptyBytes(parts[..|parts| - 1], k);
    }
  }

  lemma EmptyReadBack(disk: seq<seq<byte>>, start: nat, k: nat)
    requires k < |disk| && ReadBack(disk, start) == []
    ensures Foreign(disk[k], start)
  {
    if Finished(disk[k], start) {
      var v := Decode(disk[k]).idx;
      FromBytesBound(disk[k][4..8]);
      assert Power256(4) == WORD;
      EmptyBytes(ByNumber(disk, start), v);
      EmptyBytes(Contributions(disk, start, v), k);
    }
  }

  /** A capture that is stopped before its first block leaves an empty first file and does not touch the others. */
  lemma EmptyCapture(s: Store, start: nat, timezone: nat)
    requires Opened(s, start, timezone)
    ensures var t := Finish(Captured(s, false, start, timezone, []));
            && |t.files| == |s.files| && t.files[1..] == s.files[1..] && OldestFirst(t) == []
  {
    var open := Captured(s, false, start, timezone, []);
    var base := BaseHeader(start, timezone);
    StartKeeps(s, false, start, timezone);
    FinishKeeps(open, base, [[]], s.files);
    OldestFirstIsRetained(Finish(open), base, [[]], false, s.files);
    OneEmpty();
  }

  lemma OneEmpty()
    ensures Blocks([[]]) == [] && Bytes([]) == []
  {
    var one: seq<seq<Block>> := [[]];
    assert Blocks(one) == Blocks(one[..0]) + [];
  }

  /** Data of an earlier capture under the same start time is read as if it belonged to an empty one. */
  lemma StaleIsRead(s: Store, start: nat, timezone: nat, k: nat)
    requires Opened(s, start, timezone) && 0 < k < s.count && !Foreign(s.files[k].bytes, start)
    ensures !ReadsBack(s, false, start, timezone, [])
  {
    EmptyCapture(s, start, timezone);
    var t := Finish(Captured(s, false, start, timezone, []));
    assert t.files[k] == t.files[1..][k - 1] == s.files[1..][k - 1] == s.files[k];
    UnreadIsForeign(t, start, k);
  }

  lemma UnreadIsForeign(t: Store, start: nat, k: nat)
    requires k < t.count <= |t.files|
    ensures ReadBack(Disk(t), start) == [] ==> Foreign(t.files[k].bytes, start)
  {
    if ReadBack(Disk(t), start) == [] {
      EmptyReadBack(Disk(t), start, k);
    }
  }

  ghost predicate ReadsBack(s: Store, ring: bool, start: nat, timezone: nat, blocks: seq<Block>)
    requires 0 < s.count <= |s.files|
  {
    var t := Finish(Captured(s, ring, start, timezone, blocks));
    ReadBack(Disk(t), start) == OldestFirst(t)
  }

  /** A run whose numbers do not restart among the files it keeps. */
  ghost predicate Plain(s: Store, ring: bool, blocks: seq<Block>) {
    Bounded(blocks, s.fileSize) && (ring ==> InOrder(|Pack(blocks, s.fileSize)|, s.count))
  }

  lemma PlainReadsBack(s: Store, ring: bool, start: nat, timezone: nat, blocks: seq<Block>)
    requires Opened(s, start, timezone) && s.count <= MAX_FILES && NothingStale(s, start) && Plain(s, ring, blocks)
    ensures ReadsBack(s, ring, start, timezone, blocks)
  {
    DiskGivesBackStream(s, ring, start, timezone, blocks);
  }

  /** The disk alone suffices after every such run, exactly if no other file was left with data under this start time. */
  lemma ReadBackIff(s: Store, start: nat, timezone: nat)
    requires Opened(s, start, timezone) && s.count <= MAX_FILES
    ensures NothingStale(s, start) <==>
            forall ring, blocks | Plain(s, ring, blocks) :: ReadsBack(s, ring, start, timezone, blocks)
  {
    if NothingStale(s, start) {
      forall ring, blocks | Plain(s, ring, blocks)
        ensures ReadsBack(s, ring, start, timezone, blocks)
      {
        PlainReadsBack(s, ring, start, timezone, blocks);
      }
    } else {
      var k :| 0 < k < s.count && !Foreign(s.files[k].bytes, start);
      StaleIsRead(s, start, timezone, k);
      assert Plain(s, false, []);
    }
  }
}
