// The archive reader.  The functions say what is read from a file; the class reads it with
// the loops of the program and is proved to compute exactly that.
module ArchiveReader {
  import opened Arithmetic
  import opened Bytes
  import opened Options
  import opened ZipFormat
  import opened ArchiveWriter

  // size_t addition wraps round.
  function Add64(a: nat, b: nat): nat {
    (a + b) % TWO64
  }

  datatype Warning =
    | UnknownExtra(kind: nat)
    | HeaderMismatch
    | UnknownAttributes
    | NonEmptyDirectory
    | CrcMismatch

  // An entry of the listing; the name is in backslash form.
  datatype Entry = Entry(name: Name, offset: nat, len: nat)

  datatype Listing = Listing(entries: seq<Entry>, log: seq<Warning>)

  // ---------- extra fields (APPNOTE.TXT 4.5) ----------

  datatype Sizes = Sizes(uncompressed: nat, compressed: nat, offset: nat, disk: nat)

  // A value that is given as a sentinel is continued in the zip64 block.
  function Widen(block: seq<byte>, value: nat, sentinel: nat, width: nat): Option<(nat, seq<byte>)> {
    if value != sentinel then Some((value, block))
    else if |block| < width then None
    else Some(Take(block, width))
  }

  function Zip64(block: seq<byte>, s: Sizes): Option<Sizes> {
    var (uncompressed, block) :- Widen(block, s.uncompressed, 0xffffffff, 8);
    var (compressed, block) :- Widen(block, s.compressed, 0xffffffff, 8);
    var (offset, block) :- Widen(block, s.offset, 0xffffffff, 8);
    var (disk, block) :- Widen(block, s.disk, 0xffff, 4);
    if block != [] then None else Some(Sizes(uncompressed, compressed, offset, disk))
  }

  predicate KnownExtra(kind: nat) {
    kind in {0x0009, 0x000a, 0x000c, 0x000d, 0x0065, 0x2605, 0x2705, 0x2805, 0x6375, 0x7075, 0xa220, 0x5455, 0x7875}
  }

  // All extra records of a header.  A local header has no offset and no disk number; there
  // they are passed as 0, which is no sentinel.
  function Extras(b: seq<byte>, s: Sizes, log: seq<Warning>): Option<(Sizes, seq<Warning>)>
    decreases |b|
  {
    if b == [] then Some((s, log))
    else if |b| < EXTRA_SIZE then None
    else
      var extra := ExtraHeader.Decode(b[..EXTRA_SIZE]);
      if |b| < EXTRA_SIZE + extra.size then None
      else
        var rest := b[EXTRA_SIZE + extra.size..];
        if extra.kind == 0x0001 then
          var t :- Zip64(b[EXTRA_SIZE..EXTRA_SIZE + extra.size], s);
          Extras(rest, t, log)
        else
          Extras(rest, s, if KnownExtra(extra.kind) then log else log + [UnknownExtra(extra.kind)])
  }

  // ---------- names ----------

  const DOT: byte := 46
  const COLON: byte := 58

  // The character at an index, 0 past the end.
  function CharAt(name: Name, i: nat): byte {
    if i < |name| then name[i] else 0
  }

  predicate IsAlpha(c: byte) {
    65 <= c <= 90 || 97 <= c <= 122
  }

  predicate HasAt(name: Name, pattern: Name, i: nat) {
    i + |pattern| <= |name| && name[i..i + |pattern|] == pattern
  }

  predicate Contains(name: Name, pattern: Name) {
    exists i: nat :: i <= |name| && HasAt(name, pattern, i)
  }

  // Names that could leave the place where the archive is looked up.
  predicate BadName(name: Name) {
    || name == []
    || BACKSLASH in name
    || CharAt(name, 0) == SLASH
    || (IsAlpha(CharAt(name, 0)) && CharAt(name, 1) == COLON && CharAt(name, 2) == SLASH)
    || Contains(name, [SLASH, SLASH])
    || Contains(name, [SLASH, DOT, SLASH])
    || Contains(name, [SLASH, DOT, DOT, SLASH])
    || (CharAt(name, 0) == DOT && CharAt(name, 1) == SLASH)
    || (CharAt(name, 0) == DOT && CharAt(name, 1) == DOT && CharAt(name, 2) == SLASH)
    || (|name| >= 2 && name[|name| - 1] == DOT && name[|name| - 2] == SLASH)
    || (|name| >= 3 && name[|name| - 1] == DOT && name[|name| - 2] == DOT && name[|name| - 3] == SLASH)
  }

  predicate IsDirectory(name: Name) {
    name != [] && name[|name| - 1] == SLASH
  }

  // The listed names have backslashes, the name at hand has slashes.
  predicate IsListed(entries: seq<Entry>, name: Name) {
    exists i :: 0 <= i < |entries| && entries[i].name == name
  }

  // Any bit of 0b1111011111101001.
  predicate BadFlags(flags: nat) {
    || flags % 2 == 1 || flags / 8 % 2 == 1 || flags / 0x20 % 2 == 1 || flags / 0x40 % 2 == 1
    || flags / 0x80 % 2 == 1 || flags / 0x100 % 2 == 1 || flags / 0x200 % 2 == 1 || flags / 0x400 % 2 == 1
    || flags / 0x1000 % 2 == 1 || flags / 0x2000 % 2 == 1 || flags / 0x4000 % 2 == 1 || flags / 0x8000 % 2 == 1
  }

  // ---------- a file ----------

  // The local header that a central record points to, with its name and extra fields.
  function LocalPart(file: seq<byte>, centralOffset: nat, localOffset: nat): Option<(LocalHeader, seq<byte>)> {
    if Add64(localOffset, LOCAL_SIZE) > centralOffset then None
    else
      var head :- ReadAt(file, localOffset, LOCAL_SIZE);
      var local := LocalHeader.Decode(head);
      if local.signature != ZIP_LOCAL_HEADER then None
      else if Add64(localOffset, local.nameLength + local.extraLength + LOCAL_SIZE) > centralOffset then None
      else
        var buf :- ReadAt(file, localOffset + LOCAL_SIZE, local.nameLength + local.extraLength);
        Some((local, buf))
  }

  predicate Mismatch(local: LocalHeader, localSizes: Sizes, localBuf: seq<byte>,
                     central: CentralHeader, centralSizes: Sizes, centralBuf: seq<byte>)
    requires local.nameLength <= |localBuf| && central.nameLength <= |centralBuf|
  {
    || local.versionExtract != central.versionExtract
    || local.flags != central.flags
    || local.compression != central.compression
    || local.modificationDate != central.modificationDate
    || local.modificationTime != central.modificationTime
    || local.crc != central.crc
    || localSizes.uncompressed != centralSizes.uncompressed
    || localSizes.compressed != centralSizes.compressed
    || local.nameLength != central.nameLength
    || localBuf[..local.nameLength] != centralBuf[..local.nameLength]
  }

  // The checks on the name and what is listed.
  function ListName(z: Zlib, file: seq<byte>, central: CentralHeader, name: Name, dataOffset: nat, len: nat,
      r: Listing): Option<Listing> {
    var r := if central.internalAttributes != 0 then r.(log := r.log + [UnknownAttributes]) else r;
    if BadName(name) then None
    else if IsDirectory(name) then
      Some(if len != 0 then r.(log := r.log + [NonEmptyDirectory]) else r)
    else if IsListed(r.entries, name) then None
    else
      var r := r.(entries := r.entries + [Entry(Backslashed(name), dataOffset, len)]);
      Some(if CrcAt(z, file, dataOffset, len) != central.crc then r.(log := r.log + [CrcMismatch]) else r)
  }

  // The checksum of a part of the file, 0 if it cannot be read.
  function CrcAt(z: Zlib, file: seq<byte>, offset: nat, len: nat): nat {
    if len == 0 then z.Crc([])
    else if offset + len <= |file| then z.Crc(file[offset..offset + len])
    else 0
  }

  function FileRecord(z: Zlib, file: seq<byte>, centralOffset: nat, central: CentralHeader,
      r: Listing): Option<Listing> {
    var centralBuf :- ReadAt(file, centralOffset + CENTRAL_SIZE,
                             central.nameLength + central.extraLength + central.commentLength);
    var (sizes, log) :- Extras(centralBuf[central.nameLength..central.nameLength + central.extraLength],
                               Sizes(central.uncompressedSize, central.compressedSize, central.offset,
                                 central.diskNumber), r.log);
    if sizes.disk != 0 then None
    else
      var (local, localBuf) :- LocalPart(file, centralOffset, sizes.offset);
      var (localSizes, log) :- Extras(localBuf[local.nameLength..],
                                      Sizes(local.uncompressedSize, local.compressedSize, 0, 0), log);
      var log := if Mismatch(local, localSizes, localBuf, central, sizes, centralBuf) then log + [HeaderMismatch]
        else log;
      if local.versionExtract > 45 then None
      else if local.compression != 0 || sizes.uncompressed != sizes.compressed then None
      else if BadFlags(local.flags) then None
      else
        var dataOffset := sizes.offset + local.nameLength + local.extraLength + LOCAL_SIZE;
        if Add64(dataOffset, sizes.uncompressed) > centralOffset then None
        else
          ListName(z, file, central, localBuf[..local.nameLength], dataOffset, sizes.uncompressed,
            Listing(r.entries, log))
  }

  // ---------- the directory ----------

  function CentralLength(h: CentralHeader): nat {
    CENTRAL_SIZE + (h.nameLength + h.extraLength + h.commentLength)
  }

  function Central(z: Zlib, file: seq<byte>, offset: nat, count: nat, length: nat, r: Listing): Option<Listing>
    decreases count
  {
    if count == 0 then
      if length > 0 then None else Some(r)
    else if length < CENTRAL_SIZE then None
    else
      var head :- ReadAt(file, offset, CENTRAL_SIZE);
      var record := CentralHeader.Decode(head);
      var len := CentralLength(record);
      if record.signature != ZIP_CENTRAL_DIRECTORY_HEADER then None
      else if len > length then None
      else
        var next :- FileRecord(z, file, offset, record, r);
        Central(z, file, offset + len, count - 1, length - len, next)
  }

  // ---------- the end records ----------

  // The blocks behind a zip64 end record fill it exactly.
  predicate Blocks(file: seq<byte>, offset: nat, size: nat)
    decreases size
  {
    if size == 0 then true
    else if size < BLOCK_SIZE then false
    else
      match ReadAt(file, offset, BLOCK_SIZE)
      case None => false
      case Some(head) =>
        var len := BLOCK_SIZE + BlockHeader.Decode(head).size;
        if size < len then false else Blocks(file, offset + len, size - len)
  }

  predicate WellFormedEnd64(file: seq<byte>, offset: nat, record: End64Record) {
    if Add64(12, record.size) < END64_SIZE then false
    else Blocks(file, offset + END64_SIZE, Add64(12, record.size) - END64_SIZE)
  }

  datatype Zip64End = Plain | Extended(locator: End64Locator, record: End64Record)

  // The zip64 locator and end record in front of the end record at `pos`.
  function FindZip64(file: seq<byte>, pos: nat): Option<Zip64End>
    requires pos <= |file|
  {
    if pos <= LOCATOR_SIZE then Some(Plain)
    else
      var locator := End64Locator.Decode(file[pos - LOCATOR_SIZE..pos]);
      if locator.signature != ZIP_END64_LOCATOR then Some(Plain)
      else if locator.diskCount != 1 || locator.endRecordDisk != 0 then None
      else if locator.endRecordOffset >= pos then None
      else
        var head :- ReadAt(file, locator.endRecordOffset, END64_SIZE);
        var record := End64Record.Decode(head);
        if record.signature != ZIP_END64_RECORD then None else Some(Extended(locator, record))
  }

  function Or64(value: nat, sentinel: nat, wide: nat): nat {
    if value == sentinel then wide else value
  }

  // The fields of the end record, widened where they are sentinels.
  function Widened(e: EndRecord, x: Zip64End): EndRecord {
    match x
    case Plain => e
    case Extended(_, w) =>
      e.(currentDisk := Or64(e.currentDisk, 0xffff, w.currentDisk),
         directoryDisk := Or64(e.directoryDisk, 0xffff, w.directoryDisk),
         entryCountDisk := Or64(e.entryCountDisk, 0xffff, w.entryCountDisk),
         entryCount := Or64(e.entryCount, 0xffff, w.entryCount),
         directorySize := Or64(e.directorySize, 0xffffffff, w.directorySize),
         directoryOffset := Or64(e.directoryOffset, 0xffffffff, w.directoryOffset))
  }

  predicate Zip64Accepted(file: seq<byte>, pos: nat, x: Zip64End) {
    match x
    case Plain => true
    case Extended(locator, w) =>
      && w.versionExtract <= 45
      && Add64(Add64(w.size, locator.endRecordOffset), 12) < pos
      && WellFormedEnd64(file, locator.endRecordOffset, w)
  }

  // What is listed once the end record has been found at `pos`.
  function FromEnd(z: Zlib, file: seq<byte>, pos: nat, record: EndRecord): Option<Listing>
    requires pos <= |file|
  {
    var x :- FindZip64(file, pos);
    var e := Widened(record, x);
    if !Zip64Accepted(file, pos, x) then None
    else if e.currentDisk != 0 || e.directoryDisk != 0 || e.entryCountDisk != e.entryCount then None
    else Central(z, file, e.directoryOffset, e.entryCount, e.directorySize, Listing([], []))
  }

  // The backward search; `i` is the length of the archive comment that is tried.
  function Scan(z: Zlib, file: seq<byte>, i: nat): Option<Listing>
    decreases 0xffff - i
  {
    if i >= 0xffff || i + END_SIZE > |file| then None
    else
      var pos := |file| - i - END_SIZE;
      var record := EndRecord.Decode(file[pos..pos + END_SIZE]);
      if record.signature != ZIP_END_RECORD || record.commentLength != i then Scan(z, file, i + 1)
      else FromEnd(z, file, pos, record)
  }

  // ---------- the program ----------

  class GOArchiveReader {
    const zlib: Zlib
    const file: seq<byte>
    var entries: seq<Entry>
    var log: seq<Warning>

    constructor (z: Zlib, f: seq<byte>)
      ensures zlib == z && file == f && entries == [] && log == []
    {
      zlib := z;
      file := f;
      entries := [];
      log := [];
    }

    function State(): Listing
      reads this
    {
      Listing(entries, log)
    }

    // The checksum is taken in pieces of 4096 bytes.
    method CalculateCrc(offset: nat, length: nat) returns (crc: nat)
      ensures crc == CrcAt(zlib, file, offset, length)
    {
      crc := zlib.start % WORD;
      var pos, left := offset, length;
      while left > 0
        invariant offset <= pos && pos + left == offset + length && 0 <= left
        invariant pos > |file| ==> left == length
        invariant pos <= |file| || pos == offset
        invariant pos <= |file| ==> crc == zlib.Fold(zlib.start % WORD, file[offset..pos])
        invariant pos > |file| ==> crc == zlib.start % WORD
        decreases left
      {
        var len := if left > 4096 then 4096 else left;
        var buf := ReadAt(file, pos, len);
        if buf.None? {
          return 0;
        }
        zlib.FoldPieces(zlib.start % WORD, file[offset..pos], buf.value);
        assert file[offset..pos] + buf.value == file[offset..pos + len];
        crc := zlib.Fold(crc, buf.value);
        pos, left := pos + len, left - len;
      }
    }

    method ReadExtras(b: seq<byte>, s: Sizes) returns (ok: bool, t: Sizes)
      modifies this`log
      ensures ok <==> Extras(b, s, old(log)).Some?
      ensures ok ==> Extras(b, s, old(log)) == Some((t, log))
    {
      t := s;
      var rest := b;
      while |rest| > 0
        invariant Extras(b, s, old(log)) == Extras(rest, t, log)
        decreases |rest|
      {
        if |rest| < EXTRA_SIZE {
          return false, t;
        }
        var extra := ExtraHeader.Decode(rest[..EXTRA_SIZE]);
        if |rest| < EXTRA_SIZE + extra.size {
          return false, t;
        }
        if extra.kind == 0x0001 {
          var wide := Zip64(rest[EXTRA_SIZE..EXTRA_SIZE + extra.size], t);
          if wide.None? {
            return false, t;
          }
          t := wide.value;
        } else if KnownExtra(extra.kind) {
        } else {
          log := log + [UnknownExtra(extra.kind)];
        }
        rest := rest[EXTRA_SIZE + extra.size..];
      }
      return true, t;
    }

    method FindListed(name: Name) returns (found: bool)
      ensures found == IsListed(entries, name)
    {
      var i := 0;
      while i < |entries|
        invariant 0 <= i <= |entries|
        invariant forall j :: 0 <= j < i ==> entries[j].name != name
      {
        if entries[i].name == name {
          return true;
        }
        i := i + 1;
      }
      return false;
    }

    method AddEntry(central: CentralHeader, name: Name, dataOffset: nat, len: nat) returns (ok: bool)
      modifies this
      ensures ok <==> ListName(zlib, file, central, name, dataOffset, len, old(State())).Some?
      ensures ok ==> ListName(zlib, file, central, name, dataOffset, len, old(State())) == Some(State())
    {
      if central.internalAttributes != 0 {
        log := log + [UnknownAttributes];
      }
      if BadName(name) {
        return false;
      }
      if IsDirectory(name) {
        if len != 0 {
          log := log + [NonEmptyDirectory];
        }
        return true;
      }
      var found := FindListed(name);
      if found {
        return false;
      }
      entries := entries + [Entry(Backslashed(name), dataOffset, len)];
      var crc := CalculateCrc(dataOffset, len);
      if crc != central.crc {
        log := log + [CrcMismatch];
      }
      return true;
    }

    method ReadFileRecord(centralOffset: nat, central: CentralHeader) returns (ok: bool)
      modifies this
      ensures ok <==> FileRecord(zlib, file, centralOffset, central, old(State())).Some?
      ensures ok ==> FileRecord(zlib, file, centralOffset, central, old(State())) == Some(State())
    {
      hide Extras, LocalPart, ListName, Mismatch, BadFlags;
      var centralBuf := ReadAt(file, centralOffset + CENTRAL_SIZE, central.nameLength + central.extraLength
        + central.commentLength);
      if centralBuf.None? {
        return false;
      }
      var ok1, sizes := ReadExtras(centralBuf.value[central.nameLength..central.nameLength + central.extraLength],
                                   Sizes(central.uncompressedSize, central.compressedSize, central.offset,
                                     central.diskNumber));
      if !ok1 {
        return false;
      }
      if sizes.disk != 0 {
        return false;
      }
      var part := LocalPart(file, centralOffset, sizes.offset);
      if part.None? {
        return false;
      }
      LocalPartLength(file, centralOffset, sizes.offset);
      var (local, localBuf) := part.value;
      var ok2, localSizes := ReadExtras(localBuf[local.nameLength..],
        Sizes(local.uncompressedSize, local.compressedSize, 0, 0));
      if !ok2 {
        return false;
      }
      if Mismatch(local, localSizes, localBuf, central, sizes, centralBuf.value) {
        log := log + [HeaderMismatch];
      }
      if local.versionExtract > 45 {
        return false;
      }
      if local.compression != 0 || sizes.uncompressed != sizes.compressed {
        return false;
      }
      if BadFlags(local.flags) {
        return false;
      }
      var dataOffset := sizes.offset + local.nameLength + local.extraLength + LOCAL_SIZE;
      if Add64(dataOffset, sizes.uncompressed) > centralOffset {
        return false;
      }
      ok := AddEntry(central, localBuf[..local.nameLength], dataOffset, sizes.uncompressed);
    }

    method ReadCentralDirectory(offset0: nat, count0: nat, length0: nat) returns (ok: bool)
      modifies this
      ensures ok <==> Central(zlib, file, offset0, count0, length0, old(State())).Some?
      ensures ok ==> Central(zlib, file, offset0, count0, length0, old(State())) == Some(State())
    {
      hide FileRecord, CentralHeader.Decode, ReadAt;
      var offset: nat, count: nat, length: nat := offset0, count0, length0;
      while count > 0
        invariant Central(zlib, file, offset0, count0, length0, old(State()))
                  == Central(zlib, file, offset, count, length, State())
        decreases count
      {
        if length < CENTRAL_SIZE {
          return false;
        }
        var head := ReadAt(file, offset, CENTRAL_SIZE);
        if head.None? {
          return false;
        }
        var record := CentralHeader.Decode(head.value);
        var len := CentralLength(record);
        if record.signature != ZIP_CENTRAL_DIRECTORY_HEADER {
          return false;
        }
        if len > length {
          return false;
        }
        var read := ReadFileRecord(offset, record);
        if !read {
          return false;
        }
        offset, length, count := offset + len, length - len, count - 1;
      }
      return length == 0;
    }

    method ReadEnd64Record(offset0: nat, record: End64Record) returns (ok: bool)
      ensures ok == WellFormedEnd64(file, offset0, record)
    {
      if Add64(12, record.size) < END64_SIZE {
        return false;
      }
      var size: nat := Add64(12, record.size) - END64_SIZE;
      var offset: nat := offset0 + END64_SIZE;
      while size > 0
        invariant WellFormedEnd64(file, offset0, record) == Blocks(file, offset, size)
        decreases size
      {
        if size < BLOCK_SIZE {
          return false;
        }
        var head := ReadAt(file, offset, BLOCK_SIZE);
        if head.None? {
          return false;
        }
        var header := BlockHeader.Decode(head.value);
        if size < BLOCK_SIZE + header.size {
          return false;
        }
        size := size - (BLOCK_SIZE + header.size);
        offset := offset + (BLOCK_SIZE + header.size);
      }
      return true;
    }

    // The end record has been found at `pos`.
    method ReadFromEnd(pos: nat, record: EndRecord) returns (ok: bool)
      requires pos <= |file| && entries == [] && log == []
      modifies this
      ensures ok <==> FromEnd(zlib, file, pos, record).Some?
      ensures ok ==> FromEnd(zlib, file, pos, record) == Some(State())
    {
      var x := FindZip64(file, pos);
      if x.None? {
        return false;
      }
      var e := Widened(record, x.value);
      if x.value.Extended? {
        var locator, record64 := x.value.locator, x.value.record;
        if record64.versionExtract > 45 {
          return false;
        }
        if Add64(Add64(record64.size, locator.endRecordOffset), 12) >= pos {
          return false;
        }
        var wellFormed := ReadEnd64Record(locator.endRecordOffset, record64);
        if !wellFormed {
          return false;
        }
      }
      if e.currentDisk != 0 || e.directoryDisk != 0 || e.entryCountDisk != e.entryCount {
        return false;
      }
      ok := ReadCentralDirectory(e.directoryOffset, e.entryCount, e.directorySize);
    }

    method ReadEndRecord() returns (ok: bool)
      requires entries == [] && log == []
      modifies this
      ensures ok <==> Scan(zlib, file, 0).Some?
      ensures ok ==> Scan(zlib, file, 0) == Some(State())
    {
      hide FromEnd, EndRecord.Decode;
      var i := 0;
      while i < 0xffff
        invariant 0 <= i <= 0xffff
        invariant entries == [] && log == []
        invariant Scan(zlib, file, 0) == Scan(zlib, file, i)
      {
        if i + END_SIZE > |file| {
          return false;
        }
        var pos := |file| - i - END_SIZE;
        var record := EndRecord.Decode(file[pos..pos + END_SIZE]);
        if record.signature == ZIP_END_RECORD && record.commentLength == i {
          ok := ReadFromEnd(pos, record);
          return;
        }
        i := i + 1;
      }
      return false;
    }
  }

  lemma LocalPartLength(file: seq<byte>, centralOffset: nat, localOffset: nat)
    requires LocalPart(file, centralOffset, localOffset).Some?
    ensures var (local, buf) := LocalPart(file, centralOffset, localOffset).value;
            |buf| == local.nameLength + local.extraLength
  {
  }
}
