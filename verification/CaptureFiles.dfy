/**
Capturing to a list of files: a header in front of every file, rotation to the next file when a
block does not fit, and in ring mode back to the first.  A file is its bytes and a write position.
*/
module CaptureFiles {
  import opened Words

  const HEADER_SIZE := 32
  const COOKIE := 0x4145_482e
  const INVALID := 0xffff_ffff_ffff_ffff
  const MAX_FILES := 256

  // ---------------------------------------------------------------------------------------------
  // Header
  // ---------------------------------------------------------------------------------------------

  datatype Header = Header(cookie: nat, idx: nat, start: nat, size: nat, timezone: nat, reserved: nat) {
    predicate Valid() {
      cookie < WORD && idx < WORD && start < LONG && size < LONG && timezone < WORD && reserved < WORD
    }
  }

  /** The packed struct, field by field. */
  function Fields(h: Header): seq<(nat, nat)> {
    [(h.cookie, 4), (h.idx, 4), (h.start, 8), (h.size, 8), (h.timezone, 4), (h.reserved, 4)]
  }

  function Width(fields: seq<(nat, nat)>): nat {
    if fields == [] then 0 else fields[0].1 + Width(fields[1..])
  }

  function Packed(fields: seq<(nat, nat)>): (s: seq<byte>)
    ensures |s| == Width(fields)
  {
    if fields == [] then [] else ToBytes(fields[0].0, fields[0].1) + Packed(fields[1..])
  }

  function Encode(h: Header): (s: seq<byte>)
    ensures |s| == HEADER_SIZE
  {
    EncodedWidth(h);
    Packed(Fields(h))
  }

  lemma EncodedWidth(h: Header)
    ensures Width(Fields(h)) == HEADER_SIZE
  {
    var f := Fields(h);
    assert Width(f[1..][1..][1..][1..][1..]) == 4;
    assert Width(f[1..][1..][1..]) == 16;
    assert Width(f[1..]) == 28;
  }

  function Decode(s: seq<byte>): Header
    requires |s| >= HEADER_SIZE
  {
    Header(FromBytes(s[..4]), FromBytes(s[4..8]), FromBytes(s[8..16]), FromBytes(s[16..24]),
           FromBytes(s[24..28]), FromBytes(s[28..32]))
  }

  lemma EncodedFields(h: Header)
    ensures Encode(h) == ToBytes(h.cookie, 4) + ToBytes(h.idx, 4) + ToBytes(h.start, 8) + ToBytes(h.size, 8)
                         + ToBytes(h.timezone, 4) + ToBytes(h.reserved, 4)
  {
    var f := Fields(h);
    var c: seq<(nat, nat)> := [f[4], f[5]];
    var b: seq<(nat, nat)> := [f[2], f[3]] + c;
    assert f == [f[0], f[1]] + b;
    PackedTwo(f[4], f[5], []);
    assert c == [f[4], f[5]] + [];
    PackedTwo(f[2], f[3], c);
    PackedTwo(f[0], f[1], b);
  }

  lemma PackedTwo(a: (nat, nat), b: (nat, nat), rest: seq<(nat, nat)>)
    ensures Packed([a, b] + rest) == ToBytes(a.0, a.1) + (ToBytes(b.0, b.1) + Packed(rest))
  {
    assert ([a, b] + rest)[1..] == [b] + rest;
    assert ([b] + rest)[1..] == rest;
  }

  lemma Cut(bytes: seq<byte>, a: seq<byte>, b: seq<byte>, c: seq<byte>, d: seq<byte>, e: seq<byte>, f: seq<byte>)
    requires |bytes| >= 32 && |a| == |b| == |e| == |f| == 4 && |c| == |d| == 8
    requires bytes[..32] == a + b + c + d + e + f
    ensures bytes[..4] == a && bytes[4..8] == b && bytes[8..16] == c
    ensures bytes[16..24] == d && bytes[24..28] == e && bytes[28..32] == f
  {
    var s := bytes[..32];
    assert bytes[..4] == s[..4] && bytes[4..8] == s[4..8] && bytes[8..16] == s[8..16];
    assert bytes[16..24] == s[16..24] && bytes[24..28] == s[24..28] && bytes[28..32] == s[28..32];
  }

  lemma HeaderRoundTrip(h: Header, bytes: seq<byte>)
    requires h.Valid() && |bytes| >= HEADER_SIZE && bytes[..HEADER_SIZE] == Encode(h)
    ensures Decode(bytes) == h
  {
    EncodedFields(h);
    Cut(bytes, ToBytes(h.cookie, 4), ToBytes(h.idx, 4), ToBytes(h.start, 8), ToBytes(h.size, 8),
        ToBytes(h.timezone, 4), ToBytes(h.reserved, 4));
    assert Power256(4) == WORD && Power256(8) == LONG;
    BytesRoundTrip(h.cookie, 4);
    BytesRoundTrip(h.idx, 4);
    BytesRoundTrip(h.start, 8);
    BytesRoundTrip(h.size, 8);
    BytesRoundTrip(h.timezone, 4);
    BytesRoundTrip(h.reserved, 4);
  }

  lemma {:induction false} WordBytes(v: nat)
    requires v < WORD
    ensures ToBytes(v, 4) == [v % 0x100, v / 0x100 % 0x100, v / 0x1_0000 % 0x100, v / 0x100_0000]
  {
    assert ToBytes(v / 0x100_0000, 0) == [];
    assert ToBytes(v / 0x100_0000, 1) == [v / 0x100_0000];
    assert v / 0x1_0000 / 0x100 == v / 0x100_0000 && v / 0x100 / 0x100 == v / 0x1_0000;
    assert ToBytes(v / 0x1_0000, 2) == [v / 0x1_0000 % 0x100] + ToBytes(v / 0x100_0000, 1);
    assert ToBytes(v / 0x100, 3) == [v / 0x100 % 0x100] + ToBytes(v / 0x1_0000, 2);
  }

  /** Where the fields are in the 32 header bytes, and in which order their bytes. */
  lemma HeaderLayout(h: Header)
    requires h.Valid()
    ensures var b := Encode(h);
            && b[0..4] == [h.cookie % 0x100, h.cookie / 0x100 % 0x100, h.cookie / 0x1_0000 % 0x100, h.cookie / 0x100_0000]
            && b[4..8] == [h.idx % 0x100, h.idx / 0x100 % 0x100, h.idx / 0x1_0000 % 0x100, h.idx / 0x100_0000]
            && FromBytes(b[8..16]) == h.start && FromBytes(b[16..24]) == h.size
            && b[24..28] == [h.timezone % 0x100, h.timezone / 0x100 % 0x100, h.timezone / 0x1_0000 % 0x100, h.timezone / 0x100_0000]
            && FromBytes(b[28..32]) == h.reserved
  {
    var b := Encode(h);
    EncodedFields(h);
    assert b[..HEADER_SIZE] == b;
    Cut(b, ToBytes(h.cookie, 4), ToBytes(h.idx, 4), ToBytes(h.start, 8), ToBytes(h.size, 8),
        ToBytes(h.timezone, 4), ToBytes(h.reserved, 4));
    HeaderRoundTrip(h, b);
    WordBytes(h.cookie);
    WordBytes(h.idx);
    WordBytes(h.timezone);
  }

  // ---------------------------------------------------------------------------------------------
  // The file list and what the library does with it
  // ---------------------------------------------------------------------------------------------

  /** File content and position, `ullOffset`, `ullDataWritten`. */
  datatype File = File(bytes: seq<byte>, pos: nat, offset: nat, written: nat)

  datatype Store = Store(files: seq<File>, count: nat, fileSize: nat, current: nat, ring: bool, writing: bool,
                         header: Header)

  type Block = seq<byte>

  /** Writing at a position overwrites, and extends the file behind its end. */
  function Put(bytes: seq<byte>, pos: nat, data: seq<byte>): seq<byte> {
    (if pos <= |bytes| then bytes[..pos] else bytes + seq(pos - |bytes|, _ => 0))
    + data
    + (if pos + |data| <= |bytes| then bytes[pos + |data|..] else [])
  }

  function Write(f: File, data: seq<byte>): File {
    f.(bytes := Put(f.bytes, f.pos, data), pos := f.pos + |data|)
  }

  /** `netana_writefileheader` on one file. */
  function WithHeader(f: File, h: Header): File {
    var rewound := if f.offset != 0 then f.(pos := 0, offset := 0) else f;
    Write(rewound, Encode(h)).(offset := rewound.offset + HEADER_SIZE, written := if h.size == INVALID then 0 else h.size)
  }

  function WriteHeader(s: Store, size: nat): Store
    requires s.current < |s.files|
  {
    var h := s.header.(size := size);
    s.(files := s.files[s.current := WithHeader(s.files[s.current], h)], header := h)
  }

  function WithBlock(f: File, block: Block): File {
    Write(f, block).(offset := (f.offset + |block|) % LONG, written := (f.written + |block|) % LONG)
  }

  function Append(s: Store, block: Block): Store
    requires s.current < |s.files|
  {
    s.(files := s.files[s.current := WithBlock(s.files[s.current], block)])
  }

  /** `ullOffset - sizeof(NETANA_FILE_HEADER_T)` of the current file. */
  function PayloadSize(s: Store): nat
    requires s.current < |s.files|
  {
    (s.files[s.current].offset - HEADER_SIZE) % LONG
  }

  /** The block does not fit the current file any more. */
  predicate NeedsNext(s: Store, block: Block)
    requires s.current < |s.files|
  {
    (s.files[s.current].offset + |block|) % LONG > s.fileSize
  }

  /** The current header is finalised, and the next one gets the next number. */
  function CloseCurrent(s: Store): Store
    requires s.current < |s.files|
  {
    var closed := WriteHeader(s, PayloadSize(s));
    closed.(header := closed.header.(idx := (closed.header.idx + 1) % WORD))
  }

  /** With the current file closed: the next file, the first one again in ring mode, or the end of writing. */
  function ToNextFile(s: Store, block: Block): (t: Store)
    requires s.current < s.count <= |s.files|
    ensures t.current < t.count == s.count && |t.files| == |s.files|
  {
    if s.current + 1 < s.count then
      Append(WriteHeader(s.(current := s.current + 1), INVALID), block)
    else if s.ring then
      Append(WriteHeader(s.(current := 0), INVALID), block)
    else
      s.(writing := false)
  }

  /** `netana_write_to_file`. */
  function WriteBlock(s: Store, block: Block): (t: Store)
    requires s.current < s.count <= |s.files|
    ensures t.current < t.count == s.count && |t.files| == |s.files|
  {
    if NeedsNext(s, block) then ToNextFile(CloseCurrent(s), block) else Append(s, block)
  }

  /** The event thread's use of it. */
  function Offer(s: Store, block: Block): (t: Store)
    requires s.current < s.count <= |s.files|
    ensures t.current < t.count == s.count && |t.files| == |s.files|
  {
    if s.writing then WriteBlock(s, block) else s
  }

  function Feed(s: Store, blocks: seq<Block>): (t: Store)
    requires s.current < s.count <= |s.files|
    ensures t.current < t.count == s.count && |t.files| == |s.files|
  {
    if blocks == [] then s else Offer(Feed(s, blocks[..|blocks| - 1]), blocks[|blocks| - 1])
  }

  /** Finalise the current header: on stop, and on a buffer of illegal size (which also ends writing). */
  function Finish(s: Store): Store
    requires s.current < s.count <= |s.files|
  {
    if s.writing then WriteHeader(s, PayloadSize(s)) else s
  }

  function Reject(s: Store): Store
    requires s.current < s.count <= |s.files|
  {
    if s.writing then WriteHeader(s, PayloadSize(s)).(writing := false) else s
  }

  /** The file part of `netana_start_capture` on freshly opened files. */
  function Start(s: Store, ring: bool, start: nat, timezone: nat): Store
    requires 0 < s.count <= |s.files|
  {
    WriteHeader(s.(current := 0, ring := ring, writing := true, header := Header(COOKIE, 0, start, 0, timezone, 0)), INVALID)
  }
}
