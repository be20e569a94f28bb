/**
The walk of a download through its file: where each block begins, how long it is and which mark it
carries, in the 32-bit arithmetic of the source, and when that walk ends.
*/
module DownloadCursor {
  import opened Words

  /** Sequence marks: RCX_PACKET_SEQ_NONE, _FIRST, _MIDDLE, _LAST. */
  datatype Mark = Alone | First | Middle | Last

  function Min(a: nat, b: nat): nat { if a <= b then a else b }

  // ---------------------------------------------------------------------------------------------
  // Reference: the blocks in closed form
  // ---------------------------------------------------------------------------------------------

  /** Where block `i` ends. */
  function End(length: nat, size: nat, i: nat): nat { Min((i + 1) * size, length) }

  function MarkOf(length: nat, size: nat, i: nat): Mark {
    if length <= size then Alone
    else if i == 0 then First
    else if length <= (i + 1) * size then Last
    else Middle
  }

  /** Block `i` starts within the file. */
  predicate IsBlock(length: nat, size: nat, i: nat) { i == 0 || i * size < length }

  /** The number of blocks of a file: one at least, and none starting at or behind its end. */
  function Blocks(length: nat, size: nat): nat
    requires size > 0
  {
    if length <= size then 1 else (length + size - 1) / size
  }

  lemma BlocksCover(length: nat, size: nat)
    requires size > 0
    ensures var n := Blocks(length, size);
            && n > 0 && IsBlock(length, size, n - 1) && length <= n * size
            && (length > size ==> n > 1)
  {
    if length > size {
      var n := (length + size - 1) / size;
      assert n * size <= length + size - 1 < (n + 1) * size;
      assert (n - 1) * size == n * size - size;
      assert (n - 1) * size + 2 * size == (n + 1) * size;
    }
  }

  // ---------------------------------------------------------------------------------------------
  // The source's 32-bit cursor
  // ---------------------------------------------------------------------------------------------

  /** `ulCurrentOffset`, `ulTransferedLength`, `ulSendLen`, `ulCmdDataState`. */
  datatype Cursor = Cursor(offset: nat, transferred: nat, sendLen: nat, mark: Mark)

  function FirstCursor(length: nat, size: nat): Cursor {
    if length <= size then Cursor(0, 0, length, Alone) else Cursor(0, 0, size, First)
  }

  function NextCursor(length: nat, c: Cursor): Cursor {
    var transferred := (c.transferred + c.sendLen) % WORD;
    var offset := (c.offset + c.sendLen) % WORD;
    if length <= (c.sendLen + transferred) % WORD
    then Cursor(offset, transferred, (length - transferred) % WORD, Last)
    else Cursor(offset, transferred, c.sendLen, Middle)
  }

  predicate IsFinal(m: Mark) { m == Alone || m == Last }

  function CursorAt(length: nat, size: nat, i: nat): Cursor {
    if i == 0 then FirstCursor(length, size) else NextCursor(length, CursorAt(length, size, i - 1))
  }

  /** Exactly `n` blocks, end to end, from the start of the file to its end. */
  ghost predicate Covers(length: nat, size: nat, n: nat) {
    && n > 0
    && (forall i: nat | i < n :: IsFinal(CursorAt(length, size, i).mark) <==> i == n - 1)
    && (forall i: nat | i + 1 < n ::
          CursorAt(length, size, i + 1).offset == CursorAt(length, size, i).offset + CursorAt(length, size, i).sendLen)
    && CursorAt(length, size, n - 1).offset + CursorAt(length, size, n - 1).sendLen == length
  }

  /** The file fits one block, or its length rounded up to whole blocks still fits 32 bits. */
  predicate Fits(length: nat, size: nat)
    requires size > 0
  {
    length <= size || Blocks(length, size) * size < WORD
  }

  lemma Multiples(i: nat, n: nat, size: nat)
    requires i <= n
    ensures i * size <= n * size && (i < n ==> i * size + size <= n * size)
  {
    var d := n - i;
    assert n * size == i * size + d * size;
    assert d >= 1 ==> d * size >= size;
  }

  /** Where the blocks of a file longer than one block begin and end. */
  lemma BlockBounds(length: nat, size: nat, i: nat)
    requires 0 < size < length && i < Blocks(length, size)
    ensures i * size < length && (i + 1) * size == i * size + size <= Blocks(length, size) * size
    ensures length <= (i + 1) * size <==> i == Blocks(length, size) - 1
  {
    var n := Blocks(length, size);
    BlocksCover(length, size);
    Multiples(i, n - 1, size);
    Multiples(i + 1, n, size);
    if i + 1 < n { Multiples(i + 1, n - 1, size); }
  }

  lemma {:induction false} CursorIsExact(length: nat, size: nat, i: nat)
    requires 0 < size < WORD && Fits(length, size) && i < Blocks(length, size)
    ensures IsBlock(length, size, i) && i * size <= End(length, size, i)
    ensures CursorAt(length, size, i)
         == Cursor(i * size, i * size, End(length, size, i) - i * size, MarkOf(length, size, i))
    ensures IsFinal(MarkOf(length, size, i)) <==> i == Blocks(length, size) - 1
    decreases i
  {
    if length > size {
      BlockBounds(length, size, i);
      if i > 0 {
        BlockBounds(length, size, i - 1);
        CursorIsExact(length, size, i - 1);
        NextIsExact(length, size, i);
      }
    }
  }

  lemma NextIsExact(length: nat, size: nat, i: nat)
    requires 0 < size < WORD && size < length && 0 < i && i * size < length && i * size + size < WORD
    requires (i + 1) * size == i * size + size && i * size == (i - 1) * size + size
    ensures NextCursor(length, Cursor((i - 1) * size, (i - 1) * size, size, MarkOf(length, size, i - 1)))
         == Cursor(i * size, i * size, End(length, size, i) - i * size, MarkOf(length, size, i))
  {
    assert (i * size) % WORD == i * size && (size + i * size) % WORD == size + i * size;
  }

  /**
  The 32-bit arithmetic walks through the file exactly once if and only if the length rounded up
  to whole blocks fits 32 bits.
  */
  lemma CoversIffFits(length: nat, size: nat)
    requires 0 < size < WORD
    ensures (exists n :: Covers(length, size, n)) <==> Fits(length, size)
  {
    if Fits(length, size) {
      var n := Blocks(length, size);
      BlocksCover(length, size);
      forall i: nat | i < n
        ensures IsFinal(CursorAt(length, size, i).mark) <==> i == n - 1
        ensures i + 1 < n ==>
                  CursorAt(length, size, i + 1).offset == CursorAt(length, size, i).offset + CursorAt(length, size, i).sendLen
      {
        CursorIsExact(length, size, i);
        if i + 1 < n {
          CursorIsExact(length, size, i + 1);
        }
      }
      CursorIsExact(length, size, n - 1);
      assert Covers(length, size, n);
    }
    forall n | Covers(length, size, n) ensures Fits(length, size) {
      CoveringFits(length, size, n);
    }
  }

  /** A file that leaves room for one block below 4 GiB fits whatever block size the device picks. */
  lemma FitsWithRoom(length: nat, maxBlock: nat)
    requires length + maxBlock <= WORD
    ensures forall size | 0 < size <= maxBlock :: Fits(length, size)
  {
    forall size | 0 < size <= maxBlock && length > size ensures Blocks(length, size) * size < WORD {
      BlocksCover(length, size);
      var n := Blocks(length, size);
      assert (n - 1) * size + size == n * size;
    }
  }

  /** As long as no block was final, every one was full and the offset is the sum of them. */
  lemma {:induction false} FullSoFar(length: nat, size: nat, n: nat, i: nat)
    requires 0 < size < WORD && length > size && Covers(length, size, n) && i + 1 < n
    ensures CursorAt(length, size, i).sendLen == size
    ensures CursorAt(length, size, i).offset == CursorAt(length, size, i).transferred == i * size
    ensures i * size + size < WORD
    decreases i
  {
    if i > 0 {
      FullSoFar(length, size, n, i - 1);
      Distribute(i - 1, 1, size);
      assert CursorAt(length, size, i - 1 + 1) == NextCursor(length, CursorAt(length, size, i - 1));
    }
    assert CursorAt(length, size, i + 1).offset == CursorAt(length, size, i).offset + CursorAt(length, size, i).sendLen;
    assert CursorAt(length, size, i + 1) == NextCursor(length, CursorAt(length, size, i));
  }

  lemma TwoMore(n: nat, size: nat)
    requires n >= 2
    ensures (n - 2) * size + size + size == n * size
  {
  }

  lemma CoveringFits(length: nat, size: nat, n: nat)
    requires 0 < size < WORD && Covers(length, size, n)
    ensures Fits(length, size)
  {
    if length > size {
      CoveringBound(length, size, n);
      BlocksAreLeast(length, size, n);
    }
  }

  lemma CoveringBound(length: nat, size: nat, n: nat)
    requires 0 < size < WORD && Covers(length, size, n) && length > size
    ensures length <= n * size < WORD
  {
    assert n > 1 by { assert !IsFinal(CursorAt(length, size, 0).mark); }
    FullSoFar(length, size, n, n - 2);
    TwoMore(n, size);
    LastCursor(length, CursorAt(length, size, n - 2), CursorAt(length, size, n - 1), (n - 2) * size + size);
  }

  /** A final block behind a full one that ends at `end`: the file ends in it, and it fits 32 bits. */
  lemma LastCursor(length: nat, c: Cursor, d: Cursor, end: nat)
    requires d == NextCursor(length, c) && end < WORD && 0 < c.sendLen < WORD
    requires c.offset == c.transferred && c.offset + c.sendLen == end
    requires IsFinal(d.mark) && d.offset + d.sendLen == length
    ensures length <= end + c.sendLen < WORD
  {
    assert d.offset == end <= length;
    assert length <= (c.sendLen + end) % WORD;
  }

  lemma BlocksAreLeast(length: nat, size: nat, n: nat)
    requires 0 < size < length <= n * size
    ensures Blocks(length, size) * size <= n * size
  {
    var b := Blocks(length, size);
    BlocksCover(length, size);
    assert (b - 1) * size < n * size;
    assert b - 1 < n by { assert b - 1 >= n ==> (b - 1) * size >= n * size; }
    assert (n - b) * size >= 0;
  }

  // ---------------------------------------------------------------------------------------------
  // When the walk ends
  // ---------------------------------------------------------------------------------------------

  function TwoTo(n: nat): (r: nat)
    ensures r > 0
  {
    if n == 0 then 1 else 2 * TwoTo(n - 1)
  }

  /** How often 2 divides n. */
  function Twos(n: nat): nat
    requires n > 0
  {
    if n % 2 == 1 then 0 else 1 + Twos(n / 2)
  }

  /** The largest power of two that divides the block size. */
  function Granule(size: nat): nat
    requires size > 0
  {
    TwoTo(Twos(size))
  }

  /** The file fits one block, or ends no later than the last multiple of the granule below 2^32. */
  predicate Ends(length: nat, size: nat)
    requires size > 0
  {
    length <= size || length <= WORD - Granule(size)
  }

  predicate NoneFinal(length: nat, size: nat, n: nat) {
    forall i: nat | i < n :: !IsFinal(CursorAt(length, size, i).mark)
  }

  lemma Distribute(a: int, b: int, c: int)
    ensures (a + b) * c == a * c + b * c
  {
  }

  lemma Associate(a: int, b: int, c: int)
    ensures (a * b) * c == a * (b * c)
  {
  }

  lemma AddWords(a: nat, b: nat)
    ensures (a % WORD + b) % WORD == (a + b) % WORD
  {
  }

  /** As long as no block was final, all were full, and the offset is what was sent, modulo 2^32, and within the file. */
  lemma {:induction false} Walk(length: nat, size: nat, i: nat)
    requires 0 < size < WORD && size < length && NoneFinal(length, size, i)
    ensures CursorAt(length, size, i).offset == CursorAt(length, size, i).transferred == i * size % WORD < length
    ensures IsFinal(CursorAt(length, size, i).mark) <==> length <= (i + 1) * size % WORD
    ensures CursorAt(length, size, i).sendLen
         == if IsFinal(CursorAt(length, size, i).mark) then length - i * size % WORD else size
    decreases i
  {
    if i > 0 {
      Walk(length, size, i - 1);
      assert !IsFinal(CursorAt(length, size, i - 1).mark);
      WalkOn(length, size, i, CursorAt(length, size, i - 1));
    }
  }

  lemma WalkOn(length: nat, size: nat, i: nat, c: Cursor)
    requires 0 < size < WORD && 0 < i && i * size % WORD < length
    requires c.offset == c.transferred == (i - 1) * size % WORD && c.sendLen == size
    ensures var d := NextCursor(length, c);
            && d.offset == d.transferred == i * size % WORD
            && (IsFinal(d.mark) <==> length <= (i + 1) * size % WORD)
            && d.sendLen == if IsFinal(d.mark) then length - i * size % WORD else size
  {
    var a, b, d := (i - 1) * size, i * size, (i + 1) * size;
    assert b == a + size by { Distribute(i - 1, 1, size); }
    assert d == b + size by { Distribute(i, 1, size); }
    WalkStep(length, size, a, c);
  }

  /** The same with what was sent before the previous block. */
  lemma WalkStep(length: nat, size: nat, sent: nat, c: Cursor)
    requires size < WORD && c.offset == c.transferred == sent % WORD && c.sendLen == size
    requires (sent + size) % WORD < length
    ensures var d := NextCursor(length, c);
            && d.offset == d.transferred == (sent + size) % WORD
            && (IsFinal(d.mark) <==> length <= (sent + size + size) % WORD)
            && d.sendLen == if IsFinal(d.mark) then length - (sent + size) % WORD else size
  {
    AddWords(sent, size);
    AddWords(sent + size, size);
    if length <= (sent + size + size) % WORD {
      LastStep(length, size, (sent + size) % WORD);
    }
  }

  lemma LastStep(length: nat, size: nat, at: nat)
    requires size < WORD && at < WORD && at < length <= (at + size) % WORD
    ensures (length - at) % WORD == length - at <= size
  {
  }

  lemma {:induction false} TwoToAdds(a: nat, b: nat)
    ensures TwoTo(a) * TwoTo(b) == TwoTo(a + b)
  {
    if a > 0 {
      var x, y, sum := TwoTo(a - 1), TwoTo(b), a - 1 + b;
      TwoToAdds(a - 1, b);
      assert TwoTo(a) == 2 * x && TwoTo(sum + 1) == 2 * TwoTo(sum);
      Associate(2, x, y);
    }
  }

  lemma {:induction false} OddTimesGranule(size: nat) returns (q: nat)
    requires size > 0
    ensures size == q * Granule(size) && q % 2 == 1
  {
    if size % 2 == 1 {
      q := size;
    } else {
      q := OddTimesGranule(size / 2);
      var g := Granule(size / 2);
      Associate(2, q, g);
      Associate(q, 2, g);
    }
  }

  /** An odd number has a multiple just below a multiple of any power of two. */
  lemma {:induction false} OddReaches(q: nat, m: nat) returns (k: nat, c: nat)
    requires q % 2 == 1
    ensures k * q + 1 == c * TwoTo(m) && c > 0
  {
    if m == 0 {
      k, c := 0, 1;
    } else {
      k, c := OddReaches(q, m - 1);
      var t := TwoTo(m - 1);
      if c % 2 == 1 {
        OneMoreMultiple(k, q, c, t);
        k, c := k + t, c + q;
      }
      Halve(c, t);
      c := c / 2;
    }
  }

  lemma OneMoreMultiple(k: nat, q: nat, c: nat, t: nat)
    requires k * q + 1 == c * t
    ensures (k + t) * q + 1 == (c + q) * t
  {
    Distribute(k, t, q);
    Distribute(c, q, t);
  }

  lemma Halve(c: nat, t: nat)
    requires c % 2 == 0
    ensures c * t == (c / 2) * (2 * t)
  {
    var h := c / 2;
    assert c == h * 2;
    Associate(h, 2, t);
  }

  /** 2^32 is a multiple of the granule. */
  lemma GranuleDividesWord(size: nat) returns (m: nat)
    requires 0 < size < WORD
    ensures Granule(size) * TwoTo(m) == WORD
  {
    var q := OddTimesGranule(size);
    var g := Granule(size);
    assert g <= size by { Grows(1, q, g); }
    WordIsTwoTo();
    if Twos(size) >= 32 {
      TwoToGrows(32, Twos(size));
    }
    m := 32 - Twos(size);
    TwoToAdds(Twos(size), m);
  }

  lemma {:induction false} TwoToGrows(a: nat, b: nat)
    requires a <= b
    ensures TwoTo(a) <= TwoTo(b)
  {
    if a < b {
      TwoToGrows(a, b - 1);
    }
  }

  lemma WordIsTwoTo()
    ensures TwoTo(32) == WORD
  {
    assert TwoTo(8) == 256;
    TwoToAdds(8, 8);
    TwoToAdds(16, 16);
  }

  /** What is sent, modulo 2^32, never comes closer to 2^32 than the granule. */
  lemma SentBelow(size: nat, k: nat)
    requires 0 < size < WORD
    ensures k * size % WORD <= WORD - Granule(size)
  {
    var q := OddTimesGranule(size);
    var m := GranuleDividesWord(size);
    var g, t := Granule(size), TwoTo(m);
    var a, y := k * q, k * size / WORD;
    var b := y * t;
    assert k * size == a * g by { Associate(k, q, g); }
    assert y * WORD == b * g by { Associate(y, t, g); }
    Distribute(a - b, b, g);
    BelowMultiple(a - b, t, g);
  }

  lemma BelowMultiple(r: int, t: nat, g: nat)
    requires r * g < g * t && g > 0
    ensures r * g <= g * t - g
  {
    assert r < t by {
      if r >= t { Grows(t, r, g); }
    }
    Grows(r + 1, t, g);
  }

  lemma Grows(a: int, b: int, c: nat)
    requires a <= b
    ensures a * c <= b * c
  {
    assert (b - a) * c >= 0;
  }

  /** And it comes that close at some time. */
  lemma SentReaches(size: nat) returns (k: nat)
    requires 0 < size < WORD
    ensures k > 0 && k * size % WORD == WORD - Granule(size)
  {
    var q := OddTimesGranule(size);
    var m := GranuleDividesWord(size);
    var g, t := Granule(size), TwoTo(m);
    var c: nat;
    k, c := OddReaches(q, m);
    assert g < WORD by { Grows(1, q, g); }
    var x := k * size;
    Associate(k, q, g);
    MultipleOfBoth(k * q, c, t, g);
    JustBelow(x, c - 1, WORD - g);
    assert k == 0 ==> x == 0;
  }

  lemma MultipleOfBoth(a: nat, c: nat, t: nat, g: nat)
    requires a + 1 == c * t && g * t == WORD
    ensures a * g + g == c * WORD
  {
    Distribute(a, 1, g);
    Associate(c, t, g);
  }

  lemma JustBelow(x: nat, c: nat, r: nat)
    requires x == c * WORD + r && r < WORD
    ensures x % WORD == r
  {
  }

  lemma {:induction false} FirstFinal(length: nat, size: nat, n: nat) returns (i: nat)
    requires !NoneFinal(length, size, n)
    ensures i < n && NoneFinal(length, size, i) && IsFinal(CursorAt(length, size, i).mark)
  {
    if NoneFinal(length, size, n - 1) {
      i := n - 1;
    } else {
      i := FirstFinal(length, size, n - 1);
    }
  }

  /** The walk comes to a final block if and only if the length meets this condition on the block size. */
  lemma EndsIff(length: nat, size: nat)
    requires 0 < size < WORD
    ensures Ends(length, size) <==> exists i: nat :: IsFinal(CursorAt(length, size, i).mark)
  {
    if length <= size {
      assert IsFinal(CursorAt(length, size, 0).mark);
    } else if Ends(length, size) {
      WalkEnds(length, size);
    } else {
      forall i: nat ensures !IsFinal(CursorAt(length, size, i).mark) { WalkGoesOn(length, size, i); }
    }
  }

  lemma WalkEnds(length: nat, size: nat)
    requires 0 < size < WORD && size < length <= WORD - Granule(size)
    ensures exists i: nat :: IsFinal(CursorAt(length, size, i).mark)
  {
    var k := SentReaches(size);
    if NoneFinal(length, size, k - 1) {
      Walk(length, size, k - 1);
    }
  }

  lemma {:induction false} WalkGoesOn(length: nat, size: nat, i: nat)
    requires 0 < size < WORD && !Ends(length, size)
    ensures !IsFinal(CursorAt(length, size, i).mark)
  {
    if !NoneFinal(length, size, i + 1) {
      var j := FirstFinal(length, size, i + 1);
      Walk(length, size, j);
      SentBelow(size, j + 1);
      assert false;
    }
  }

  /** A file of 2^32 - 1 bytes in blocks of 1536: no block is ever the last. */
  lemma EndlessWalk(i: nat)
    ensures !IsFinal(CursorAt(WORD - 1, 1536, i).mark)
  {
    assert Twos(3) == 0 && Twos(1536) == 9;
    assert Granule(1536) == 512;
    WalkGoesOn(WORD - 1, 1536, i);
  }
}
