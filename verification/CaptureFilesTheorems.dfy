/** What the capture files hold after any series of blocks. */
module CaptureFilesTheorems {
  import opened Words
  import opened CaptureFiles

  // ---------------------------------------------------------------------------------------------
  // Reference: greedy packing of the block stream into generations
  // ---------------------------------------------------------------------------------------------

  function Bytes(blocks: seq<Block>): seq<byte> {
    if blocks == [] then [] else Bytes(blocks[..|blocks| - 1]) + blocks[|blocks| - 1]
  }

  function Blocks(gens: seq<seq<Block>>): seq<Block> {
    if gens == [] then [] else Blocks(gens[..|gens| - 1]) + gens[|gens| - 1]
  }

  predicate FitsInto(gen: seq<Block>, block: Block, fileSize: nat) {
    HEADER_SIZE + |Bytes(gen)| + |block| <= fileSize
  }

  function Extend(gens: seq<seq<Block>>, block: Block, fileSize: nat): (r: seq<seq<Block>>)
    requires gens != []
    ensures |gens| <= |r| <= |gens| + 1
  {
    var last := gens[|gens| - 1];
    if FitsInto(last, block, fileSize) then gens[|gens| - 1 := last + [block]] else gens + [[block]]
  }

  /** Every generation takes blocks as long as they fit a file. */
  function Pack(blocks: seq<Block>, fileSize: nat): (gens: seq<seq<Block>>)
    ensures gens != []
  {
    if blocks == [] then [[]] else Extend(Pack(blocks[..|blocks| - 1], fileSize), blocks[|blocks| - 1], fileSize)
  }

  /** Packing loses and reorders nothing. */
  lemma {:induction false} PackKeepsStream(blocks: seq<Block>, fileSize: nat)
    ensures Blocks(Pack(blocks, fileSize)) == blocks
  {
    if blocks == [] {
      assert Blocks([[]]) == Blocks([[]][..0]) + [];
    } else {
      var before, last := blocks[..|blocks| - 1], blocks[|blocks| - 1];
      PackKeepsStream(before, fileSize);
      assert Blocks(Extend(Pack(before, fileSize), last, fileSize)) == before + [last] by {
        ExtendKeepsStream(Pack(before, fileSize), last, fileSize);
      }
      assert blocks == before + [last];
    }
  }

  predicate HasRoom(gen: seq<Block>, fileSize: nat) { 32 + |Bytes(gen)| <= fileSize }

  /** The generation begins with a block for which the one before has no room. */
  predicate NoRoomBefore(before: seq<Block>, gen: seq<Block>, fileSize: nat) {
    gen != [] && 32 + |Bytes(before)| + |gen[0]| > fileSize
  }

  /** Every generation fits a file, and none begins earlier than it has to. */
  ghost predicate Greedy(gens: seq<seq<Block>>, fileSize: nat) {
    && (forall i | 0 <= i < |gens| :: HasRoom(gens[i], fileSize))
    && (forall i | 0 < i < |gens| :: NoRoomBefore(gens[i - 1], gens[i], fileSize))
  }

  /** The packing fills every file as far as it goes. */
  lemma {:induction false} PackIsGreedy(blocks: seq<Block>, fileSize: nat)
    requires 32 <= fileSize && forall b | b in blocks :: 32 + |b| <= fileSize
    ensures Greedy(Pack(blocks, fileSize), fileSize)
  {
    if blocks == [] {
      assert Bytes([]) == [];
    } else {
      var n := |blocks| - 1;
      PackIsGreedy(blocks[..n], fileSize);
      assert blocks[n] in blocks;
      ExtendIsGreedy(Pack(blocks[..n], fileSize), blocks[n], fileSize);
    }
  }

  lemma ExtendIsGreedy(gens: seq<seq<Block>>, block: Block, fileSize: nat)
    requires gens != [] && Greedy(gens, fileSize) && 32 + |block| <= fileSize
    ensures Greedy(Extend(gens, block, fileSize), fileSize)
  {
    var n := |gens| - 1;
    var next := Extend(gens, block, fileSize);
    if FitsInto(gens[n], block, fileSize) {
      BytesSnoc(gens[n], block);
      LastGrows(gens, gens[n] + [block], fileSize);
    } else {
      OneBlock(block);
      OneMoreGen(gens, [block], fileSize);
    }
  }

  lemma LastGrows(gens: seq<seq<Block>>, gen: seq<Block>, fileSize: nat)
    requires gens != [] && Greedy(gens, fileSize) && HasRoom(gen, fileSize) && gens[|gens| - 1] <= gen
    ensures Greedy(gens[|gens| - 1 := gen], fileSize)
  {
    var n := |gens| - 1;
    var next := gens[n := gen];
    forall i | 0 < i < |next|
      ensures NoRoomBefore(next[i - 1], next[i], fileSize)
    {
      assert NoRoomBefore(gens[i - 1], gens[i], fileSize);
    }
  }

  lemma OneMoreGen(gens: seq<seq<Block>>, gen: seq<Block>, fileSize: nat)
    requires gens != [] && Greedy(gens, fileSize) && HasRoom(gen, fileSize)
    requires NoRoomBefore(gens[|gens| - 1], gen, fileSize)
    ensures Greedy(gens + [gen], fileSize)
  {
    var next := gens + [gen];
    forall i | 0 < i < |next|
      ensures NoRoomBefore(next[i - 1], next[i], fileSize)
    {
      if i < |gens| {
        assert NoRoomBefore(gens[i - 1], gens[i], fileSize);
      }
    }
  }

  lemma ExtendKeepsStream(gens: seq<seq<Block>>, block: Block, fileSize: nat)
    requires gens != []
    ensures Blocks(Extend(gens, block, fileSize)) == Blocks(gens) + [block]
  {
    var n := |gens| - 1;
    var next := Extend(gens, block, fileSize);
    if FitsInto(gens[n], block, fileSize) {
      assert next[..n] == gens[..n];
    } else {
      assert next[..n + 1] == gens;
    }
  }

  lemma {:induction false} BlocksAppend(a: seq<seq<Block>>, b: seq<seq<Block>>)
    ensures Blocks(a + b) == Blocks(a) + Blocks(b)
    decreases |b|
  {
    if b == [] {
      assert a + b == a;
    } else {
      var n := |b| - 1;
      assert (a + b)[..|a| + n] == a + b[..n];
      BlocksAppend(a, b[..n]);
    }
  }

  // ---------------------------------------------------------------------------------------------
  // Representation
  // ---------------------------------------------------------------------------------------------

  /** The generation in file k, when generation `g` is in file `current`; negative if the file is unused. */
  function GenOf(current: nat, count: nat, g: int, k: nat): int {
    if k <= current then g - (current - k) else g - (current + count - k)
  }

  /** The file carries this payload under generation `g`; an open file has the invalid-size mark. */
  ghost predicate Holds(f: File, base: Header, payload: seq<byte>, g: nat, open: bool) {
    && HEADER_SIZE + |payload| <= |f.bytes|
    && f.bytes[..HEADER_SIZE] == Encode(base.(idx := g % WORD, size := if open then INVALID else |payload|))
    && f.bytes[HEADER_SIZE..HEADER_SIZE + |payload|] == payload
    && f.written == |payload|
    && f.pos == f.offset == HEADER_SIZE + (if open then |payload| else 0)
  }

  ghost predicate Sized(s: Store) {
    0 < s.count <= |s.files| && s.current < s.count && HEADER_SIZE <= s.fileSize && s.fileSize + WORD <= LONG
  }

  ghost predicate Base(h: Header, base: Header) {
    base.Valid() && h.(idx := 0, size := 0) == base.(idx := 0, size := 0)
  }

  /** Every file holds its generation, or what it held before the capture. */
  ghost predicate Slots(files: seq<File>, count: nat, current: nat, base: Header, gens: seq<seq<Block>>, open: bool,
                        files0: seq<File>)
    requires count <= |files| == |files0|
  {
    var g := |gens| - 1;
    forall k | 0 <= k < count ::
      var i := GenOf(current, count, g, k);
      if 0 <= i <= g then Holds(files[k], base, Bytes(gens[i]), i, open && i == g) else files[k] == files0[k]
  }

  ghost predicate AllFit(gens: seq<seq<Block>>, fileSize: nat) {
    forall i | 0 <= i < |gens| :: HEADER_SIZE + |Bytes(gens[i])| <= fileSize
  }

  /** The latest generation is in the current file. */
  predicate Placed(current: nat, count: nat, ring: bool, g: int) {
    g >= current && (g < count ==> g == current) && (!ring ==> g < count)
  }

  ghost predicate Rep(s: Store, base: Header, gens: seq<seq<Block>>, open: bool, files0: seq<File>) {
    && Sized(s) && gens != [] && Base(s.header, base) && |files0| == |s.files|
    && Placed(s.current, s.count, s.ring, |gens| - 1)
    && (open ==> s.header.idx == (|gens| - 1) % WORD)
    && AllFit(gens, s.fileSize)
    && Slots(s.files, s.count, s.current, base, gens, open, files0)
  }

  // ---------------------------------------------------------------------------------------------
  // One file
  // ---------------------------------------------------------------------------------------------

  lemma HeaderOnFile(f: File, h: Header)
    requires f.offset == 0 ==> f.pos == 0
    ensures var t := WithHeader(f, h);
            && |t.bytes| >= HEADER_SIZE && t.bytes[..HEADER_SIZE] == Encode(h)
            && (|f.bytes| >= HEADER_SIZE ==> t.bytes[HEADER_SIZE..] == f.bytes[HEADER_SIZE..])
            && t.pos == t.offset == HEADER_SIZE && t.written == (if h.size == INVALID then 0 else h.size)
  {
  }

  /** Closing: the size replaces the mark, the payload stays. */
  lemma CloseFile(f: File, base: Header, payload: seq<byte>, g: nat, h: Header)
    requires Holds(f, base, payload, g, true) && HEADER_SIZE + |payload| < INVALID
    requires h == base.(idx := g % WORD, size := |payload|)
    ensures Holds(WithHeader(f, h), base, payload, g, false)
  {
    HeaderOnFile(f, h);
    var t := WithHeader(f, h);
    assert t.bytes == t.bytes[..HEADER_SIZE] + f.bytes[HEADER_SIZE..];
  }

  /** Opening: an empty payload behind the invalid-size mark, whatever the file held before. */
  lemma OpenFile(f: File, base: Header, g: nat, h: Header)
    requires f.offset == 0 ==> f.pos == 0
    requires h == base.(idx := g % WORD, size := INVALID)
    ensures Holds(WithHeader(f, h), base, [], g, true)
  {
    HeaderOnFile(f, h);
  }

  lemma AppendBytes(bytes: seq<byte>, payload: seq<byte>, block: Block)
    requires HEADER_SIZE + |payload| <= |bytes| && bytes[HEADER_SIZE..HEADER_SIZE + |payload|] == payload
    ensures var r := Put(bytes, HEADER_SIZE + |payload|, block);
            && HEADER_SIZE + |payload| + |block| <= |r| && r[..HEADER_SIZE] == bytes[..HEADER_SIZE]
            && r[HEADER_SIZE..HEADER_SIZE + |payload| + |block|] == payload + block
  {
    var end := HEADER_SIZE + |payload|;
    var r := Put(bytes, end, block);
    assert r[..end] == bytes[..end] && r[end..end + |block|] == block;
    assert r[HEADER_SIZE..end + |block|] == r[..end][HEADER_SIZE..] + r[end..end + |block|];
    assert r[..HEADER_SIZE] == r[..end][..HEADER_SIZE];
  }

  lemma AppendToFile(f: File, base: Header, gen: seq<Block>, g: nat, block: Block)
    requires Holds(f, base, Bytes(gen), g, true)
    requires HEADER_SIZE + |Bytes(gen)| + |block| < LONG
    ensures Holds(WithBlock(f, block), base, Bytes(gen + [block]), g, true)
  {
    var payload := Bytes(gen);
    var longer := payload + block;
    AppendBytes(f.bytes, payload, block);
    Unwrapped(f, block);
    assert Holds(WithBlock(f, block), base, longer, g, true);
    assert Bytes(gen + [block]) == longer by { BytesSnoc(gen, block); }
  }

  lemma Unwrapped(f: File, block: Block)
    requires f.offset + |block| < LONG && f.written + |block| < LONG
    ensures WithBlock(f, block)
         == File(Put(f.bytes, f.pos, block), f.pos + |block|, f.offset + |block|, f.written + |block|)
  {
  }

  // ---------------------------------------------------------------------------------------------
  // One block
  // ---------------------------------------------------------------------------------------------

  lemma CurrentHolds(s: Store, base: Header, gens: seq<seq<Block>>, open: bool, files0: seq<File>)
    requires Rep(s, base, gens, open, files0)
    ensures Holds(s.files[s.current], base, Bytes(gens[|gens| - 1]), |gens| - 1, open)
    ensures HEADER_SIZE + |Bytes(gens[|gens| - 1])| <= s.fileSize
  {
    assert GenOf(s.current, s.count, |gens| - 1, s.current) == |gens| - 1;
  }

  lemma CurrentChanges(files: seq<File>, count: nat, current: nat, base: Header, gens: seq<seq<Block>>, open: bool,
                       files0: seq<File>, f: File, gen: seq<Block>, open': bool)
    requires current < count <= |files| == |files0| && gens != []
    requires Slots(files, count, current, base, gens, open, files0)
    requires Holds(f, base, Bytes(gen), |gens| - 1, open')
    ensures Slots(files[current := f], count, current, base, gens[|gens| - 1 := gen], open', files0)
  {
    var g := |gens| - 1;
    var files', gens' := files[current := f], gens[g := gen];
    forall k | 0 <= k < count
      ensures var i := GenOf(current, count, g, k);
              if 0 <= i <= g then Holds(files'[k], base, Bytes(gens'[i]), i, open' && i == g) else files'[k] == files0[k]
    {
      var i := GenOf(current, count, g, k);
      assert i == g <==> k == current;
      assert k != current && 0 <= i < g ==> files'[k] == files[k] && gens'[i] == gens[i];
    }
  }

  lemma AppendKeeps(s: Store, base: Header, gens: seq<seq<Block>>, files0: seq<File>, block: Block)
    requires Rep(s, base, gens, true, files0) && |block| < WORD
    requires FitsInto(gens[|gens| - 1], block, s.fileSize)
    ensures Rep(Append(s, block), base, Extend(gens, block, s.fileSize), true, files0)
  {
    CurrentHolds(s, base, gens, true, files0);
    var g := |gens| - 1;
    AppendToFile(s.files[s.current], base, gens[g], g, block);
    CurrentChanges(s.files, s.count, s.current, base, gens, true, files0, WithBlock(s.files[s.current], block),
                   gens[g] + [block], true);
    assert (gens[g] + [block])[..|gens[g]|] == gens[g];
  }

  lemma FinishKeeps(s: Store, base: Header, gens: seq<seq<Block>>, files0: seq<File>)
    requires Rep(s, base, gens, true, files0)
    ensures Rep(WriteHeader(s, PayloadSize(s)), base, gens, false, files0)
  {
    CurrentHolds(s, base, gens, true, files0);
    var g := |gens| - 1;
    var h := s.header.(size := PayloadSize(s));
    CloseFile(s.files[s.current], base, Bytes(gens[g]), g, h);
    CurrentChanges(s.files, s.count, s.current, base, gens, true, files0, WithHeader(s.files[s.current], h), gens[g], false);
    assert gens[g := gens[g]] == gens;
  }

  /** The file that is opened next carries the block under the next generation. */
  lemma OpenNext(s: Store, base: Header, g: nat, block: Block)
    requires Sized(s) && Base(s.header, base) && s.header.idx == g % WORD
    requires s.files[s.current].offset == 0 ==> s.files[s.current].pos == 0
    requires HEADER_SIZE + |block| <= s.fileSize
    ensures var t := Append(WriteHeader(s, INVALID), block);
            t.files == s.files[s.current := t.files[s.current]] && Holds(t.files[s.current], base, block, g, true)
  {
    OpenFile(s.files[s.current], base, g, s.header.(size := INVALID));
    AppendToFile(WriteHeader(s, INVALID).files[s.current], base, [], g, block);
    OneBlock(block);
  }

  lemma OneBlock(block: Block)
    ensures [] + [block] == [block] && Bytes([block]) == block && Blocks([[block]]) == [block]
  {
    assert [block][..0] == [] && Bytes([]) == [];
    assert [[block]][..0] == [] && Blocks([]) == [];
  }

  function NextFile(current: nat, count: nat): nat { if current + 1 < count then current + 1 else 0 }

  /** Rotation: the next file starts a new generation, and takes the place of the oldest one. */
  lemma NextChanges(files: seq<File>, count: nat, current: nat, base: Header, gens: seq<seq<Block>>,
                    files0: seq<File>, f: File, block: Block)
    requires current < count <= |files| == |files0| && gens != [] && |gens| - 1 >= current
    requires Slots(files, count, current, base, gens, false, files0)
    requires Holds(f, base, Bytes([block]), |gens|, true)
    ensures Slots(files[NextFile(current, count) := f], count, NextFile(current, count), base, gens + [[block]], true, files0)
  {
    var g := |gens| - 1;
    var next := NextFile(current, count);
    forall k | 0 <= k < count
      ensures var i := GenOf(next, count, g + 1, k);
              if 0 <= i <= g + 1 then Holds(files[next := f][k], base, Bytes((gens + [[block]])[i]), i, i == g + 1)
              else files[next := f][k] == files0[k]
    {
      if k != next {
        assert GenOf(next, count, g + 1, k) == GenOf(current, count, g, k) <= g;
      }
    }
  }

  lemma NextIsUnopened(s: Store, base: Header, gens: seq<seq<Block>>, files0: seq<File>, k: nat)
    requires Rep(s, base, gens, false, files0) && Unwritten(files0, s.count) && k < s.count
    ensures s.files[k].offset == 0 ==> s.files[k].pos == 0
  {
  }

  lemma RotateKeeps(s: Store, base: Header, gens: seq<seq<Block>>, files0: seq<File>, block: Block)
    requires Rep(s, base, gens, false, files0) && s.header.idx == |gens| % WORD && Unwritten(files0, s.count)
    requires s.current + 1 < s.count || s.ring
    requires HEADER_SIZE + |block| <= s.fileSize
    ensures var next := NextFile(s.current, s.count);
            Rep(Append(WriteHeader(s.(current := next), INVALID), block), base, gens + [[block]], true, files0)
  {
    var next := NextFile(s.current, s.count);
    var t := Append(WriteHeader(s.(current := next), INVALID), block);
    NextIsUnopened(s, base, gens, files0, next);
    OpenNext(s.(current := next), base, |gens|, block);
    OneBlock(block);
    NextChanges(s.files, s.count, s.current, base, gens, files0, t.files[next], block);
  }

  ghost predicate Unwritten(files: seq<File>, count: nat) {
    forall k | 0 <= k < count <= |files| :: files[k].offset == 0 == files[k].pos == files[k].written
  }

  /** The generations that remain: the newest `count` of them. */
  function Retained(gens: seq<seq<Block>>, count: nat): seq<seq<Block>> {
    gens[Lost(|gens|, count)..]
  }

  /** How many of the oldest of `n` generations were overwritten. */
  function Lost(n: nat, count: nat): (k: nat)
    ensures k <= n
  {
    if n <= count then 0 else n - count
  }

  /** What the reference keeps on disk in files: everything in ring mode, else the first `count` generations. */
  function Kept(gens: seq<seq<Block>>, count: nat, ring: bool): seq<seq<Block>> {
    if ring || |gens| <= count then gens else gens[..count]
  }

  /** The guard of the source, computed in 64 bits, is the guard of the reference. */
  lemma GuardIsPacking(s: Store, base: Header, gens: seq<seq<Block>>, files0: seq<File>, block: Block)
    requires Rep(s, base, gens, true, files0) && |block| < WORD
    ensures NeedsNext(s, block) <==> !FitsInto(gens[|gens| - 1], block, s.fileSize)
  {
    CurrentHolds(s, base, gens, true, files0);
  }

  lemma CloseKeeps(s: Store, base: Header, gens: seq<seq<Block>>, files0: seq<File>)
    requires Rep(s, base, gens, true, files0)
    ensures var t := CloseCurrent(s);
            Rep(t, base, gens, false, files0) && t == s.(files := t.files, header := t.header) && t.header.idx == |gens| % WORD
  {
    FinishKeeps(s, base, gens, files0);
  }

  lemma Rotates(s: Store, block: Block)
    requires s.current < s.count <= |s.files| && NeedsNext(s, block) && (s.current + 1 < s.count || s.ring)
    ensures var closed := CloseCurrent(s);
            WriteBlock(s, block)
            == Append(WriteHeader(closed.(current := NextFile(closed.current, closed.count)), INVALID), block)
  {
  }

  lemma NextKeeps(s: Store, base: Header, gens: seq<seq<Block>>, files0: seq<File>, block: Block)
    requires Rep(s, base, gens, true, files0) && s.writing && Unwritten(files0, s.count)
    requires HEADER_SIZE + |block| <= s.fileSize && NeedsNext(s, block)
    ensures var t := WriteBlock(s, block);
            && t.fileSize == s.fileSize && t.ring == s.ring && t.writing == (s.ring || |gens| < s.count)
            && Rep(t, base, if t.writing then gens + [[block]] else gens, t.writing, files0)
  {
    CloseKeeps(s, base, gens, files0);
    if s.current + 1 < s.count || s.ring {
      Rotates(s, block);
      RotateKeeps(CloseCurrent(s), base, gens, files0, block);
    }
  }

  lemma WriteKeeps(s: Store, base: Header, gens: seq<seq<Block>>, files0: seq<File>, block: Block)
    requires Rep(s, base, gens, true, files0) && s.writing && Unwritten(files0, s.count)
    requires HEADER_SIZE + |block| <= s.fileSize && |block| < WORD
    ensures var t := WriteBlock(s, block);
            var next := Extend(gens, block, s.fileSize);
            && t.fileSize == s.fileSize && t.ring == s.ring
            && t.writing == (s.ring || |next| <= s.count)
            && Rep(t, base, if t.writing then next else gens, t.writing, files0)
  {
    GuardIsPacking(s, base, gens, files0, block);
    if NeedsNext(s, block) {
      NextKeeps(s, base, gens, files0, block);
    } else {
      AppendKeeps(s, base, gens, files0, block);
    }
  }

  lemma StartKeeps(s: Store, ring: bool, start: nat, timezone: nat)
    requires Sized(s.(current := 0)) && Unwritten(s.files, s.count) && start < LONG && timezone < WORD
    ensures var t := Start(s, ring, start, timezone);
            t.writing && Rep(t, Header(COOKIE, 0, start, 0, timezone, 0), [[]], true, s.files)
  {
    var base := Header(COOKIE, 0, start, 0, timezone, 0);
    OpenFile(s.files[0], base, 0, base.(size := INVALID));
  }

  /** The files represent what the reference keeps of these generations. */
  ghost predicate Represents(s: Store, base: Header, gens: seq<seq<Block>>, files0: seq<File>) {
    s.writing == (s.ring || |gens| <= s.count) && Rep(s, base, Kept(gens, s.count, s.ring), s.writing, files0)
  }

  lemma OfferKeeps(s: Store, base: Header, gens: seq<seq<Block>>, files0: seq<File>, block: Block)
    requires Represents(s, base, gens, files0) && gens != [] && Unwritten(files0, s.count)
    requires HEADER_SIZE + |block| <= s.fileSize && |block| < WORD
    ensures var t := Offer(s, block);
            t.fileSize == s.fileSize && t.ring == s.ring && Represents(t, base, Extend(gens, block, s.fileSize), files0)
  {
    var next := Extend(gens, block, s.fileSize);
    if s.writing {
      WriteKeeps(s, base, gens, files0, block);
      assert |gens| == s.count < |next| ==> next[..s.count] == gens;
    } else {
      assert next[..s.count] == gens[..s.count];
    }
  }

  /** After any blocks, the files represent the greedy packing of the stream. */
  lemma {:induction false} FeedPacks(s: Store, base: Header, files0: seq<File>, blocks: seq<Block>)
    requires Rep(s, base, [[]], true, files0) && s.writing && Unwritten(files0, s.count)
    requires forall b | b in blocks :: HEADER_SIZE + |b| <= s.fileSize && |b| < WORD
    ensures var t := Feed(s, blocks);
            t.fileSize == s.fileSize && t.ring == s.ring && Represents(t, base, Pack(blocks, s.fileSize), files0)
  {
    if blocks != [] {
      var n := |blocks| - 1;
      FeedPacks(s, base, files0, blocks[..n]);
      OfferKeeps(Feed(s, blocks[..n]), base, Pack(blocks[..n], s.fileSize), files0, blocks[n]);
    }
  }

  // ---------------------------------------------------------------------------------------------
  // What is retained
  // ---------------------------------------------------------------------------------------------

  /** The payload as far as `ullDataWritten` tells. */
  function Payload(f: File): seq<byte> {
    if HEADER_SIZE + f.written <= |f.bytes| then f.bytes[HEADER_SIZE..HEADER_SIZE + f.written] else []
  }

  /** The j-th file from the oldest: the one behind the current file is the oldest, the current one the newest. */
  function FromOldest(current: nat, count: nat, j: nat): (k: nat)
    requires current < count && j < count
    ensures k < count
  {
    if current + 1 + j < count then current + 1 + j else current + 1 + j - count
  }

  function PayloadsFromOldest(s: Store): (parts: seq<Block>)
    requires s.current < s.count <= |s.files|
    ensures |parts| == s.count
  {
    seq(s.count, j requires 0 <= j < s.count => Payload(s.files[FromOldest(s.current, s.count, j)]))
  }

  /** All payloads, from the oldest file to the newest. */
  function OldestFirst(s: Store): seq<byte>
    requires s.current < s.count <= |s.files|
  {
    Bytes(PayloadsFromOldest(s))
  }

  lemma {:induction false} BytesAppend(a: seq<Block>, b: seq<Block>)
    ensures Bytes(a + b) == Bytes(a) + Bytes(b)
    decreases |b|
  {
    if b == [] {
      assert a + b == a;
    } else {
      var n := |b| - 1;
      assert (a + b)[..|a| + n] == a + b[..n];
      BytesAppend(a, b[..n]);
    }
  }

  lemma GenAppend(gens: seq<seq<Block>>, gen: seq<Block>)
    ensures Bytes(Blocks(gens + [gen])) == Bytes(Blocks(gens)) + Bytes(gen)
  {
    assert (gens + [gen])[..|gens|] == gens;
    BytesAppend(Blocks(gens), gen);
  }

  lemma HeldPayload(f: File, base: Header, payload: seq<byte>, g: nat, open: bool)
    requires Holds(f, base, payload, g, open)
    ensures Payload(f) == payload
  {
  }

  lemma SlotPayload(files: seq<File>, count: nat, current: nat, base: Header, gens: seq<seq<Block>>, open: bool,
                    files0: seq<File>, k: nat)
    requires k < count <= |files| == |files0| && Slots(files, count, current, base, gens, open, files0) && Unwritten(files0, count)
    ensures Payload(files[k]) == GenBytes(gens, GenOf(current, count, |gens| - 1, k))
  {
    var i := GenOf(current, count, |gens| - 1, k);
    if 0 <= i < |gens| {
      HeldPayload(files[k], base, Bytes(gens[i]), i, open && i == |gens| - 1);
    }
  }

  function GenBytes(gens: seq<seq<Block>>, i: int): seq<byte> {
    if 0 <= i < |gens| then Bytes(gens[i]) else []
  }

  /** Part j is generation j of the last |parts| ones, or empty when there are not that many. */
  predicate Newest(parts: seq<Block>, gens: seq<seq<Block>>) {
    forall j | 0 <= j < |parts| :: parts[j] == GenBytes(gens, j + |gens| - |parts|)
  }

  lemma NewestInit(parts: seq<Block>, gens: seq<seq<Block>>)
    requires parts != [] && gens != [] && Newest(parts, gens)
    ensures Newest(parts[..|parts| - 1], gens[..|gens| - 1]) && parts[|parts| - 1] == Bytes(gens[|gens| - 1])
  {
  }

  lemma RetainedStep(gens: seq<seq<Block>>, n: nat)
    requires gens != []
    ensures Retained(gens, n + 1) == Retained(gens[..|gens| - 1], n) + [gens[|gens| - 1]]
  {
  }

  lemma BytesSnoc(parts: seq<Block>, part: Block)
    ensures Bytes(parts + [part]) == Bytes(parts) + part
  {
    assert (parts + [part])[..|parts|] == parts;
  }

  lemma {:induction false} NoBytes(parts: seq<Block>)
    requires forall j | 0 <= j < |parts| :: parts[j] == []
    ensures Bytes(parts) == []
  {
    if parts != [] {
      NoBytes(parts[..|parts| - 1]);
    }
  }

  lemma NewestStep(parts: seq<Block>, kept: seq<seq<Block>>, gen: seq<Block>)
    requires Bytes(parts) == Bytes(Blocks(kept))
    ensures Bytes(parts + [Bytes(gen)]) == Bytes(Blocks(kept + [gen]))
  {
    GenAppend(kept, gen);
    BytesSnoc(parts, Bytes(gen));
  }

  lemma NewestLast(parts: seq<Block>, gens: seq<seq<Block>>, init: seq<Block>, older: seq<seq<Block>>)
    requires parts != [] && gens != [] && parts[|parts| - 1] == Bytes(gens[|gens| - 1])
    requires init == parts[..|parts| - 1] && older == gens[..|gens| - 1]
    requires Bytes(init) == Bytes(Blocks(Retained(older, |init|)))
    ensures Bytes(parts) == Bytes(Blocks(Retained(gens, |parts|)))
  {
    var kept, last := Retained(older, |init|), gens[|gens| - 1];
    var joined, retained := init + [Bytes(last)], kept + [last];
    assert parts == joined;
    assert Retained(gens, |parts|) == retained by { RetainedStep(gens, |init|); }
    assert Bytes(joined) == Bytes(Blocks(retained)) by { NewestStep(init, kept, last); }
  }

  lemma NewestOfNone(parts: seq<Block>, gens: seq<seq<Block>>)
    requires Newest(parts, gens) && (parts == [] || gens == [])
    ensures Bytes(parts) == Bytes(Blocks(Retained(gens, |parts|)))
  {
    NoBytes(parts);
    assert Retained(gens, |parts|) == [];
  }

  lemma {:induction false} NewestBytes(parts: seq<Block>, gens: seq<seq<Block>>)
    requires Newest(parts, gens)
    ensures Bytes(parts) == Bytes(Blocks(Retained(gens, |parts|)))
    decreases |parts|
  {
    if parts == [] || gens == [] {
      NewestOfNone(parts, gens);
    } else {
      NewestInit(parts, gens);
      NewestBytes(parts[..|parts| - 1], gens[..|gens| - 1]);
      NewestLast(parts, gens, parts[..|parts| - 1], gens[..|gens| - 1]);
    }
  }

  lemma OldestGen(current: nat, count: nat, g: int, j: nat)
    requires current < count && j < count
    ensures GenOf(current, count, g, FromOldest(current, count, j)) == j + g + 1 - count
  {
  }

  lemma PartIsNewest(s: Store, base: Header, gens: seq<seq<Block>>, open: bool, files0: seq<File>, j: nat)
    requires Rep(s, base, gens, open, files0) && Unwritten(files0, s.count) && j < s.count
    ensures Payload(s.files[FromOldest(s.current, s.count, j)]) == GenBytes(gens, j + |gens| - s.count)
  {
    var k := FromOldest(s.current, s.count, j);
    SlotPayload(s.files, s.count, s.current, base, gens, open, files0, k);
    OldestGen(s.current, s.count, |gens| - 1, j);
  }

  lemma PartsAreNewest(s: Store, base: Header, gens: seq<seq<Block>>, open: bool, files0: seq<File>)
    requires Rep(s, base, gens, open, files0) && Unwritten(files0, s.count)
    ensures Newest(PayloadsFromOldest(s), gens)
  {
    forall j: nat | j < s.count
      ensures Payload(s.files[FromOldest(s.current, s.count, j)]) == GenBytes(gens, j + |gens| - s.count)
    {
      PartIsNewest(s, base, gens, open, files0, j);
    }
    EachIsNewest(s, gens);
  }

  lemma EachIsNewest(s: Store, gens: seq<seq<Block>>)
    requires s.current < s.count <= |s.files|
    requires forall j: nat | j < s.count ::
               Payload(s.files[FromOldest(s.current, s.count, j)]) == GenBytes(gens, j + |gens| - s.count)
    ensures Newest(PayloadsFromOldest(s), gens)
  {
  }

  /** Taken oldest to newest, the payloads are the newest `count` generations of the stream. */
  lemma OldestFirstIsRetained(s: Store, base: Header, gens: seq<seq<Block>>, open: bool, files0: seq<File>)
    requires Rep(s, base, gens, open, files0) && Unwritten(files0, s.count)
    ensures OldestFirst(s) == Bytes(Blocks(Retained(gens, s.count)))
  {
    PartsAreNewest(s, base, gens, open, files0);
    NewestBytes(PayloadsFromOldest(s), gens);
  }

  // ---------------------------------------------------------------------------------------------
  // Main results on the stream
  // ---------------------------------------------------------------------------------------------

  /** Freshly opened files that a capture can start on. */
  ghost predicate Opened(s: Store, start: nat, timezone: nat) {
    && 0 < s.count <= |s.files| && HEADER_SIZE <= s.fileSize && s.fileSize + WORD <= LONG
    && Unwritten(s.files, s.count) && start < LONG && timezone < WORD
  }

  ghost predicate Bounded(blocks: seq<Block>, fileSize: nat) {
    forall b | b in blocks :: HEADER_SIZE + |b| <= fileSize && |b| < WORD
  }

  /** `s` with a capture started and the blocks written. */
  function Captured(s: Store, ring: bool, start: nat, timezone: nat, blocks: seq<Block>): (t: Store)
    requires 0 < s.count <= |s.files|
    ensures t.current < t.count == s.count && |t.files| == |s.files|
  {
    Feed(Start(s, ring, start, timezone), blocks)
  }

  function BaseHeader(start: nat, timezone: nat): Header { Header(COOKIE, 0, start, 0, timezone, 0) }

  lemma CapturedRep(s: Store, ring: bool, start: nat, timezone: nat, blocks: seq<Block>)
    requires Opened(s, start, timezone) && Bounded(blocks, s.fileSize)
    ensures var t := Captured(s, ring, start, timezone, blocks);
            var gens := Pack(blocks, s.fileSize);
            && t.fileSize == s.fileSize && t.ring == ring && t.writing == (ring || |gens| <= s.count)
            && Rep(t, BaseHeader(start, timezone), Kept(gens, s.count, ring), t.writing, s.files)
  {
    StartKeeps(s, ring, start, timezone);
    FeedPacks(Start(s, ring, start, timezone), BaseHeader(start, timezone), s.files, blocks);
  }

  lemma CapturedPayload(s: Store, ring: bool, start: nat, timezone: nat, blocks: seq<Block>)
    requires Opened(s, start, timezone) && Bounded(blocks, s.fileSize)
    ensures var t := Captured(s, ring, start, timezone, blocks);
            var gens := Pack(blocks, s.fileSize);
            && OldestFirst(t) == Bytes(Blocks(Retained(Kept(gens, s.count, ring), s.count)))
            && t.writing == (ring || |gens| <= s.count)
  {
    CapturedRep(s, ring, start, timezone, blocks);
    var t := Captured(s, ring, start, timezone, blocks);
    OldestFirstIsRetained(t, BaseHeader(start, timezone), Kept(Pack(blocks, s.fileSize), s.count, ring), t.writing, s.files);
  }

  lemma SplitStream(blocks: seq<Block>, fileSize: nat, k: nat)
    requires k <= |Pack(blocks, fileSize)|
    ensures var gens := Pack(blocks, fileSize);
            blocks == Blocks(gens[..k]) + Blocks(gens[k..])
  {
    var gens := Pack(blocks, fileSize);
    var front, back := gens[..k], gens[k..];
    assert gens == front + back;
    assert Blocks(gens) == blocks by { PackKeepsStream(blocks, fileSize); }
    assert Blocks(front + back) == Blocks(front) + Blocks(back) by { BlocksAppend(front, back); }
  }

  /** Ring mode keeps exactly the newest `count` files' worth: a suffix of the stream, cut between blocks. */
  lemma RingKeepsSuffix(s: Store, start: nat, timezone: nat, blocks: seq<Block>)
    requires Opened(s, start, timezone) && Bounded(blocks, s.fileSize)
    ensures var t := Captured(s, true, start, timezone, blocks);
            var gens := Pack(blocks, s.fileSize);
            var lost := Lost(|gens|, s.count);
            && OldestFirst(t) == Bytes(Blocks(gens[lost..]))
            && blocks == Blocks(gens[..lost]) + Blocks(gens[lost..])
            && t.writing
  {
    var gens := Pack(blocks, s.fileSize);
    CapturedPayload(s, true, start, timezone, blocks);
    SplitStream(blocks, s.fileSize, Lost(|gens|, s.count));
  }

  /** Without ring mode, exactly the prefix up to the first block that no longer fits the last file is kept. */
  lemma PlainKeepsPrefix(s: Store, start: nat, timezone: nat, blocks: seq<Block>)
    requires Opened(s, start, timezone) && Bounded(blocks, s.fileSize)
    ensures var t := Captured(s, false, start, timezone, blocks);
            var gens := Pack(blocks, s.fileSize);
            var kept := if |gens| <= s.count then |gens| else s.count;
            && OldestFirst(t) == Bytes(Blocks(gens[..kept]))
            && blocks == Blocks(gens[..kept]) + Blocks(gens[kept..])
            && (t.writing <==> |gens| <= s.count)
  {
    var gens := Pack(blocks, s.fileSize);
    var kept := if |gens| <= s.count then |gens| else s.count;
    CapturedPayload(s, false, start, timezone, blocks);
    SplitStream(blocks, s.fileSize, kept);
    assert gens[..kept] == Retained(Kept(gens, s.count, false), s.count);
  }
}
