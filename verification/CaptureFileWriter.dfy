/**
The device instance of the user-space library, as far as capture files go: the fixed array of files
and the fields the library updates in place.
*/
module CaptureFileWriter {
  import opened Words
  import opened CaptureFiles
  import opened CaptureFilesTheorems
  import opened CaptureFilesAccounting

  const NO_ERROR := 0
  const INVALID_PARAMETER := 0x8020_0001
  const FILE_CREATION_FAILED := 0x8022_0009
  const CAPTURE_ACTIVE := 0x8022_000b
  const CAPTURE_NOT_ACTIVE := 0x8022_000c
  const FILECAPTURE_NOT_ACTIVE := 0x8022_000d
  const DRIVER_FILE_FULL := 0xc077_0000

  /** An opened file: what the file system had, extended by `fileSize` bytes if it was shorter than that. */
  function Preallocated(content: seq<byte>, fileSize: nat): (f: File)
    ensures f.offset == f.pos == f.written == 0 && content <= f.bytes && fileSize <= |f.bytes|
    ensures |f.bytes| == if |content| >= fileSize then |content| else |content| + fileSize
    ensures forall i | |content| <= i < |f.bytes| :: f.bytes[i] == 0
  {
    File(if |content| < fileSize then content + seq(fileSize, _ => 0) else content, 0, 0, 0)
  }

  class Instance {
    /** `atFiles`, all 256 of them. */
    const files: array<File>
    var count: nat
    var fileSize: nat
    var current: nat
    var ring: bool
    var writing: bool
    var header: Header

    ghost predicate Valid()
      reads this
    {
      files.Length == MAX_FILES && count <= MAX_FILES && current < MAX_FILES && (count > 0 ==> current < count)
    }

    ghost function Model(): Store
      reads this, files
    {
      Store(files[..], count, fileSize, current, ring, writing, header)
    }

    constructor ()
      ensures Valid() && fresh(files) && count == 0 && !writing
    {
      files := new File[MAX_FILES](_ => File([], 0, 0, 0));
      count, fileSize, current, ring, writing := 0, 0, 0, false, false;
      header := Header(0, 0, 0, 0, 0, 0);
    }

    /** `disk[k]` is what the file system has under the k-th name, None if it cannot be opened. */
    method SetFilelist(running: bool, fileCount: nat, size: nat, bufferSize: nat, disk: seq<Option<seq<byte>>>)
      returns (ret: nat)
      requires Valid() && fileCount <= |disk|
      modifies this, files
      ensures Valid()
      ensures ret == if running then CAPTURE_ACTIVE
                     else if fileCount > MAX_FILES || size < bufferSize + HEADER_SIZE then INVALID_PARAMETER
                     else if None in disk[..fileCount] then FILE_CREATION_FAILED
                     else NO_ERROR
      ensures ret == CAPTURE_ACTIVE || ret == INVALID_PARAMETER ==> Model() == old(Model())
      ensures ret == FILE_CREATION_FAILED ==> count == 0
      ensures ret == NO_ERROR ==>
        && count == fileCount && fileSize == size && bufferSize + HEADER_SIZE <= fileSize && current == 0
        && writing == old(writing) && ring == old(ring) && header == old(header)
        && (forall k | 0 <= k < count :: files[k] == Preallocated(disk[k].value, size))
        && (forall k | count <= k < MAX_FILES :: files[k] == old(files[k]))
    {
      if running {
        return CAPTURE_ACTIVE;
      }
      if fileCount > MAX_FILES || size < bufferSize + HEADER_SIZE {
        return INVALID_PARAMETER;
      }
      count, fileSize, current := fileCount, size, 0;
      var complete := OpenFiles(disk);
      if !complete {
        count := 0;
        return FILE_CREATION_FAILED;
      }
      ret := NO_ERROR;
    }

    /** `OpenCaptureFiles`: stops at the first file that cannot be opened. */
    method OpenFiles(disk: seq<Option<seq<byte>>>) returns (complete: bool)
      requires files.Length == MAX_FILES && count <= MAX_FILES && count <= |disk|
      modifies files
      ensures complete == (None !in disk[..count])
      ensures complete ==> forall k | 0 <= k < count :: files[k] == Preallocated(disk[k].value, fileSize)
      ensures forall k | count <= k < MAX_FILES :: files[k] == old(files[k])
    {
      var k := 0;
      while k < count
        invariant 0 <= k <= count
        invariant forall i | 0 <= i < k :: disk[i].Some? && files[i] == Preallocated(disk[i].value, fileSize)
        invariant forall i | count <= i < MAX_FILES :: files[i] == old(files[i])
      {
        if disk[k].None? {
          assert disk[..count][k] == None;
          return false;
        }
        files[k] := Preallocated(disk[k].value, fileSize);
        k := k + 1;
      }
      complete := true;
    }

    /** `netana_writefileheader`. */
    method WriteFileHeader(size: nat)
      requires Valid()
      modifies `header, files
      ensures Valid() && Model() == WriteHeader(old(Model()), size)
    {
      var f := files[current];
      if f.offset != 0 {
        f := f.(pos := 0, offset := 0);
      }
      header := header.(size := size);
      f := f.(written := if size == INVALID then 0 else size);
      f := Write(f, Encode(header));
      f := f.(offset := f.offset + HEADER_SIZE);
      files[current] := f;
      assert files[..] == old(files[..])[current := WithHeader(old(files[..])[current], header)];
    }

    method AppendBlock(block: Block)
      requires Valid()
      modifies files
      ensures Valid() && Model() == Append(old(Model()), block)
    {
      var f := Write(files[current], block);
      f := f.(offset := (f.offset + |block|) % LONG);
      f := f.(written := (f.written + |block|) % LONG);
      files[current] := f;
      assert files[..] == old(files[..])[current := WithBlock(old(files[..])[current], block)];
    }

    method BeginFile(block: Block)
      requires Valid()
      modifies `header, files
      ensures Valid() && Model() == Append(WriteHeader(old(Model()), INVALID), block)
    {
      WriteFileHeader(INVALID);
      AppendBlock(block);
    }

    /** The size goes into the header of the current file, and the number for the next one is counted up. */
    method FinishFile()
      requires Valid()
      modifies `header, files
      ensures Valid() && Model() == CloseCurrent(old(Model()))
    {
      WriteFileHeader((files[current].offset - HEADER_SIZE) % LONG);
      header := header.(idx := (header.idx + 1) % WORD);
    }

    method RotateFile(block: Block) returns (ret: nat)
      requires Valid() && count > 0
      modifies `header, `current, `writing, files
      ensures Valid() && Model() == ToNextFile(old(Model()), block)
      ensures ret == if !ring && old(current) + 1 == count then DRIVER_FILE_FULL else NO_ERROR
    {
      ret := NO_ERROR;
      if current + 1 >= count {
        if ring {
          current := 0;
          BeginFile(block);
        } else {
          ret := DRIVER_FILE_FULL;
          writing := false;
        }
      } else {
        current := current + 1;
        BeginFile(block);
      }
    }

    /** `netana_write_to_file`. */
    method WriteToFile(block: Block) returns (ret: nat)
      requires Valid() && count > 0
      modifies `header, `current, `writing, files
      ensures Valid() && Model() == WriteBlock(old(Model()), block)
      ensures ret == if NeedsNext(old(Model()), block) && !ring && old(current) + 1 == count then DRIVER_FILE_FULL
                     else NO_ERROR
    {
      ret := NO_ERROR;
      if (files[current].offset + |block|) % LONG > fileSize {
        FinishFile();
        ret := RotateFile(block);
      } else {
        AppendBlock(block);
      }
    }

    /** The event thread on every block it has read. */
    method OnBlock(block: Block) returns (ret: nat)
      requires Valid() && (writing ==> count > 0)
      modifies `header, `current, `writing, files
      ensures Valid() && (writing ==> count > 0)
      ensures Model() == if old(count) > 0 then Offer(old(Model()), block) else old(Model())
      ensures ret == DRIVER_FILE_FULL <==> old(writing) && !writing
    {
      ret := NO_ERROR;
      if writing {
        ret := WriteToFile(block);
      }
    }

    /** The file part of `netana_start_capture`. */
    method StartFiles(ringMode: bool, referenceTime: nat, timezone: nat)
      requires Valid()
      modifies this, files
      ensures Valid() && (writing <==> count > 0)
      ensures count == old(count)
      ensures old(count) > 0 ==> Model() == Start(old(Model()), ringMode, referenceTime, timezone)
      ensures old(count) == 0 ==> files[..] == old(files[..])
    {
      ring := ringMode;
      if count > 0 {
        current := 0;
        writing := true;
        header := Header(COOKIE, 0, referenceTime, header.size, timezone, 0);
        WriteFileHeader(INVALID);
      } else {
        writing := false;
      }
    }

    /** A buffer of illegal size: the current header is finalised and writing ends. */
    method RejectBuffer()
      requires Valid() && (writing ==> count > 0)
      modifies `header, `writing, files
      ensures Valid() && (writing ==> count > 0)
      ensures count > 0 ==> Model() == Reject(old(Model()))
      ensures count == 0 ==> Model() == old(Model())
    {
      if writing {
        WriteFileHeader((files[current].offset - HEADER_SIZE) % LONG);
        writing := false;
      }
    }

    /** The file part of `netana_stop_capture`: the files on disk are final, the list is given up. */
    method StopFiles()
      requires Valid()
      modifies `header, `count, files
      ensures Valid() && count == 0
      ensures old(count) > 0 ==> Model().(count := old(count)) == Finish(old(Model()))
      ensures old(count) == 0 ==> Model() == old(Model())
    {
      if count > 0 {
        if writing {
          WriteFileHeader((files[current].offset - HEADER_SIZE) % LONG);
        }
        count := 0;
      }
    }

    /** `netana_file_info`. */
    method GetInfo(running: bool) returns (ret: nat, info: FileInfo)
      requires Valid()
      ensures ret == if !running then CAPTURE_NOT_ACTIVE else if count == 0 then FILECAPTURE_NOT_ACTIVE else NO_ERROR
      ensures ret == NO_ERROR ==> info == Info(Model())
    {
      info := FileInfo(0, 0, 0, 0, false);
      if !running {
        return CAPTURE_NOT_ACTIVE, info;
      }
      if count == 0 {
        return FILECAPTURE_NOT_ACTIVE, info;
      }
      var total, k := 0, 0;
      while k < count
        invariant k <= count && total == Sum(Written(files[..]), 0, k) % LONG
      {
        total := (total + files[k].written) % LONG;
        k := k + 1;
      }
      return NO_ERROR, FileInfo(current + 1, count, total, fileSize * count % LONG, ring);
    }
  }

  /** A list accepted by SetFilelist satisfies what the results on captures ask for. */
  lemma ListIsOpened(s: Store, disk: seq<Option<seq<byte>>>, bufferSize: nat, start: nat, timezone: nat)
    requires 0 < s.count <= |s.files| && s.count <= |disk| && None !in disk[..s.count]
    requires bufferSize + HEADER_SIZE <= s.fileSize && s.fileSize + WORD <= LONG && start < LONG && timezone < WORD
    requires forall k | 0 <= k < s.count :: disk[k].Some? && s.files[k] == Preallocated(disk[k].value, s.fileSize)
    ensures Opened(s, start, timezone)
    ensures forall ring, blocks | Bounded(blocks, s.fileSize) ::
              forall k | 0 <= k < s.count ::
                |Captured(s, ring, start, timezone, blocks).files[k].bytes| == |s.files[k].bytes|
  {
    forall ring, blocks | Bounded(blocks, s.fileSize)
      ensures forall k | 0 <= k < s.count ::
                |Captured(s, ring, start, timezone, blocks).files[k].bytes| == |s.files[k].bytes|
    {
      CaptureStaysInside(s, ring, start, timezone, blocks);
    }
  }
}
