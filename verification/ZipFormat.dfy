// The record layouts of PKWARE's APPNOTE.TXT, sections 4.3.7, 4.3.12, 4.3.14 to 4.3.16 and
// 4.5.3, as far as the archive code uses them.
module ZipFormat {
  import opened Bytes

  const ZIP_LOCAL_HEADER: nat := 0x04034b50
  const ZIP_CENTRAL_DIRECTORY_HEADER: nat := 0x02014b50
  const ZIP_END_RECORD: nat := 0x06054b50
  const ZIP_END64_RECORD: nat := 0x06064b50
  const ZIP_END64_LOCATOR: nat := 0x07064b50
  const ZIP_ZIP64_VERSION: nat := 45

  const LOCAL_SIZE: nat := 30
  const CENTRAL_SIZE: nat := 46
  const EXTRA_SIZE: nat := 4
  const END64_SIZE: nat := 56
  const LOCATOR_SIZE: nat := 20
  const BLOCK_SIZE: nat := 6
  const END_SIZE: nat := 22

  datatype LocalHeader = LocalHeader(
    signature: nat, versionExtract: nat, flags: nat, compression: nat, modificationTime: nat,
    modificationDate: nat, crc: nat, compressedSize: nat, uncompressedSize: nat,
    nameLength: nat, extraLength: nat)
  {
    predicate Fits() {
      && signature < 0x1_0000_0000 && versionExtract < 0x1_0000 && flags < 0x1_0000 && compression < 0x1_0000
      && modificationTime < 0x1_0000 && modificationDate < 0x1_0000 && crc < 0x1_0000_0000
      && compressedSize < 0x1_0000_0000 && uncompressedSize < 0x1_0000_0000
      && nameLength < 0x1_0000 && extraLength < 0x1_0000
    }

    function Encode(): (r: seq<byte>)
      ensures |r| == LOCAL_SIZE
    {
      LE(signature, 4) + (LE(versionExtract, 2) + (LE(flags, 2) + (LE(compression, 2) + (LE(modificationTime, 2)
      + (LE(modificationDate, 2) + (LE(crc, 4) + (LE(compressedSize, 4) + (LE(uncompressedSize, 4)
      + (LE(nameLength, 2) + (LE(extraLength, 2) + []))))))))))
    }

    static function Decode(b: seq<byte>): LocalHeader
      requires |b| == LOCAL_SIZE
    {
      var (signature, b) := Take(b, 4);
      var (versionExtract, b) := Take(b, 2);
      var (flags, b) := Take(b, 2);
      var (compression, b) := Take(b, 2);
      var (modificationTime, b) := Take(b, 2);
      var (modificationDate, b) := Take(b, 2);
      var (crc, b) := Take(b, 4);
      var (compressedSize, b) := Take(b, 4);
      var (uncompressedSize, b) := Take(b, 4);
      var (nameLength, b) := Take(b, 2);
      var (extraLength, b) := Take(b, 2);
      LocalHeader(signature, versionExtract, flags, compression, modificationTime, modificationDate,
                  crc, compressedSize, uncompressedSize, nameLength, extraLength)
    }

    lemma RoundTrip()
      requires Fits()
      ensures Decode(Encode()) == this
    {
      Ranges();
      hide Take, LE;
      var e := LE(extraLength, 2) + [];
      TakeStored(extraLength, 2, []);
      TakeStored(nameLength, 2, e);
      e := LE(nameLength, 2) + e;
      TakeStored(uncompressedSize, 4, e);
      e := LE(uncompressedSize, 4) + e;
      TakeStored(compressedSize, 4, e);
      e := LE(compressedSize, 4) + e;
      TakeStored(crc, 4, e);
      e := LE(crc, 4) + e;
      TakeStored(modificationDate, 2, e);
      e := LE(modificationDate, 2) + e;
      TakeStored(modificationTime, 2, e);
      e := LE(modificationTime, 2) + e;
      TakeStored(compression, 2, e);
      e := LE(compression, 2) + e;
      TakeStored(flags, 2, e);
      e := LE(flags, 2) + e;
      TakeStored(versionExtract, 2, e);
      e := LE(versionExtract, 2) + e;
      TakeStored(signature, 4, e);
    }

    // Where each field stands.
    static lemma Places(b: seq<byte>)
      requires |b| == LOCAL_SIZE
      ensures var h := Decode(b);
              && h.signature == FromLE(b[0..4]) && h.versionExtract == FromLE(b[4..6])
              && h.flags == FromLE(b[6..8]) && h.compression == FromLE(b[8..10])
              && h.modificationTime == FromLE(b[10..12]) && h.modificationDate == FromLE(b[12..14])
              && h.crc == FromLE(b[14..18]) && h.compressedSize == FromLE(b[18..22])
              && h.uncompressedSize == FromLE(b[22..26]) && h.nameLength == FromLE(b[26..28])
              && h.extraLength == FromLE(b[28..30])
    {
      hide Take, FromLE;
      assert b[0..] == b;
      TakeFrom(b, 0, 4);
      TakeFrom(b, 4, 2);
      TakeFrom(b, 6, 2);
      TakeFrom(b, 8, 2);
      TakeFrom(b, 10, 2);
      TakeFrom(b, 12, 2);
      TakeFrom(b, 14, 4);
      TakeFrom(b, 18, 4);
      TakeFrom(b, 22, 4);
      TakeFrom(b, 26, 2);
      TakeFrom(b, 28, 2);
    }
  }

  datatype CentralHeader = CentralHeader(
    signature: nat, versionCreator: nat, versionExtract: nat, flags: nat, compression: nat,
    modificationTime: nat, modificationDate: nat, crc: nat, compressedSize: nat, uncompressedSize: nat,
    nameLength: nat, extraLength: nat, commentLength: nat, diskNumber: nat, internalAttributes: nat,
    externalAttributes: nat, offset: nat)
  {
    predicate Fits() {
      && signature < 0x1_0000_0000 && versionCreator < 0x1_0000 && versionExtract < 0x1_0000 && flags < 0x1_0000
      && compression < 0x1_0000 && modificationTime < 0x1_0000 && modificationDate < 0x1_0000
      && crc < 0x1_0000_0000 && compressedSize < 0x1_0000_0000 && uncompressedSize < 0x1_0000_0000
      && nameLength < 0x1_0000 && extraLength < 0x1_0000 && commentLength < 0x1_0000 && diskNumber < 0x1_0000
      && internalAttributes < 0x1_0000 && externalAttributes < 0x1_0000_0000 && offset < 0x1_0000_0000
    }

    function Encode(): (r: seq<byte>)
      ensures |r| == CENTRAL_SIZE
    {
      LE(signature, 4) + (LE(versionCreator, 2) + (LE(versionExtract, 2) + (LE(flags, 2) + (LE(compression, 2)
      + (LE(modificationTime, 2) + (LE(modificationDate, 2) + (LE(crc, 4) + (LE(compressedSize, 4)
      + (LE(uncompressedSize, 4) + (LE(nameLength, 2) + (LE(extraLength, 2) + (LE(commentLength, 2)
      + (LE(diskNumber, 2) + (LE(internalAttributes, 2)
        + (LE(externalAttributes, 4) + (LE(offset, 4) + []))))))))))))))))
    }

    static function Decode(b: seq<byte>): (r: CentralHeader)
      requires |b| == CENTRAL_SIZE
    {
      var (signature, b) := Take(b, 4);
      var (versionCreator, b) := Take(b, 2);
      var (versionExtract, b) := Take(b, 2);
      var (flags, b) := Take(b, 2);
      var (compression, b) := Take(b, 2);
      var (modificationTime, b) := Take(b, 2);
      var (modificationDate, b) := Take(b, 2);
      var (crc, b) := Take(b, 4);
      var (compressedSize, b) := Take(b, 4);
      var (uncompressedSize, b) := Take(b, 4);
      var (nameLength, b) := Take(b, 2);
      var (extraLength, b) := Take(b, 2);
      var (commentLength, b) := Take(b, 2);
      var (diskNumber, b) := Take(b, 2);
      var (internalAttributes, b) := Take(b, 2);
      var (externalAttributes, b) := Take(b, 4);
      var (offset, b) := Take(b, 4);
      CentralHeader(signature, versionCreator, versionExtract, flags, compression, modificationTime,
                    modificationDate, crc, compressedSize, uncompressedSize, nameLength, extraLength,
                    commentLength, diskNumber, internalAttributes, externalAttributes, offset)
    }

    lemma RoundTrip()
      requires Fits()
      ensures Decode(Encode()) == this
    {
      Ranges();
      hide Take, LE;
      var e := LE(offset, 4) + [];
      TakeStored(offset, 4, []);
      TakeStored(externalAttributes, 4, e);
      e := LE(externalAttributes, 4) + e;
      TakeStored(internalAttributes, 2, e);
      e := LE(internalAttributes, 2) + e;
      TakeStored(diskNumber, 2, e);
      e := LE(diskNumber, 2) + e;
      TakeStored(commentLength, 2, e);
      e := LE(commentLength, 2) + e;
      TakeStored(extraLength, 2, e);
      e := LE(extraLength, 2) + e;
      TakeStored(nameLength, 2, e);
      e := LE(nameLength, 2) + e;
      TakeStored(uncompressedSize, 4, e);
      e := LE(uncompressedSize, 4) + e;
      TakeStored(compressedSize, 4, e);
      e := LE(compressedSize, 4) + e;
      TakeStored(crc, 4, e);
      e := LE(crc, 4) + e;
      TakeStored(modificationDate, 2, e);
      e := LE(modificationDate, 2) + e;
      TakeStored(modificationTime, 2, e);
      e := LE(modificationTime, 2) + e;
      TakeStored(compression, 2, e);
      e := LE(compression, 2) + e;
      TakeStored(flags, 2, e);
      e := LE(flags, 2) + e;
      TakeStored(versionExtract, 2, e);
      e := LE(versionExtract, 2) + e;
      TakeStored(versionCreator, 2, e);
      e := LE(versionCreator, 2) + e;
      TakeStored(signature, 4, e);
    }

    // Where each field stands.
    static lemma Places(b: seq<byte>)
      requires |b| == CENTRAL_SIZE
      ensures var h := Decode(b);
              && h.signature == FromLE(b[0..4]) && h.versionCreator == FromLE(b[4..6])
              && h.versionExtract == FromLE(b[6..8]) && h.flags == FromLE(b[8..10])
              && h.compression == FromLE(b[10..12]) && h.modificationTime == FromLE(b[12..14])
              && h.modificationDate == FromLE(b[14..16]) && h.crc == FromLE(b[16..20])
              && h.compressedSize == FromLE(b[20..24]) && h.uncompressedSize == FromLE(b[24..28])
              && h.nameLength == FromLE(b[28..30]) && h.extraLength == FromLE(b[30..32])
              && h.commentLength == FromLE(b[32..34]) && h.diskNumber == FromLE(b[34..36])
              && h.internalAttributes == FromLE(b[36..38]) && h.externalAttributes == FromLE(b[38..42])
              && h.offset == FromLE(b[42..46])
    {
      hide Take, FromLE;
      assert b[0..] == b;
      TakeFrom(b, 0, 4);
      TakeFrom(b, 4, 2);
      TakeFrom(b, 6, 2);
      TakeFrom(b, 8, 2);
      TakeFrom(b, 10, 2);
      TakeFrom(b, 12, 2);
      TakeFrom(b, 14, 2);
      TakeFrom(b, 16, 4);
      TakeFrom(b, 20, 4);
      TakeFrom(b, 24, 4);
      TakeFrom(b, 28, 2);
      TakeFrom(b, 30, 2);
      TakeFrom(b, 32, 2);
      TakeFrom(b, 34, 2);
      TakeFrom(b, 36, 2);
      TakeFrom(b, 38, 4);
      TakeFrom(b, 42, 4);
    }
  }

  datatype ExtraHeader = ExtraHeader(kind: nat, size: nat) {
    function Encode(): (r: seq<byte>)
      ensures |r| == EXTRA_SIZE
    {
      LE(kind, 2) + (LE(size, 2) + [])
    }

    static function Decode(b: seq<byte>): ExtraHeader
      requires |b| == EXTRA_SIZE
    {
      var (kind, b) := Take(b, 2);
      var (size, b) := Take(b, 2);
      ExtraHeader(kind, size)
    }

    lemma RoundTrip()
      requires kind < 0x1_0000 && size < 0x1_0000
      ensures Decode(Encode()) == this
    {
      Ranges();
      TakeStored(size, 2, []);
      TakeStored(kind, 2, LE(size, 2) + []);
    }

    // Where each field stands.
    static lemma Places(b: seq<byte>)
      requires |b| == EXTRA_SIZE
      ensures var h := Decode(b);
              && h.kind == FromLE(b[0..2]) && h.size == FromLE(b[2..4])
    {
      hide Take, FromLE;
      assert b[0..] == b;
      TakeFrom(b, 0, 2);
      TakeFrom(b, 2, 2);
    }
  }

  datatype End64Record = End64Record(
    signature: nat, size: nat, versionCreator: nat, versionExtract: nat, currentDisk: nat, directoryDisk: nat,
    entryCountDisk: nat, entryCount: nat, directorySize: nat, directoryOffset: nat)
  {
    predicate Fits() {
      && signature < 0x1_0000_0000 && size < 0x1_0000_0000_0000_0000 && versionCreator < 0x1_0000
      && versionExtract < 0x1_0000 && currentDisk < 0x1_0000_0000 && directoryDisk < 0x1_0000_0000
      && entryCountDisk < 0x1_0000_0000_0000_0000 && entryCount < 0x1_0000_0000_0000_0000
      && directorySize < 0x1_0000_0000_0000_0000 && directoryOffset < 0x1_0000_0000_0000_0000
    }

    function Encode(): (r: seq<byte>)
      ensures |r| == END64_SIZE
    {
      LE(signature, 4) + (LE(size, 8) + (LE(versionCreator, 2) + (LE(versionExtract, 2) + (LE(currentDisk, 4)
      + (LE(directoryDisk, 4) + (LE(entryCountDisk, 8) + (LE(entryCount, 8) + (LE(directorySize, 8)
      + (LE(directoryOffset, 8) + [])))))))))
    }

    static function Decode(b: seq<byte>): End64Record
      requires |b| == END64_SIZE
    {
      var (signature, b) := Take(b, 4);
      var (size, b) := Take(b, 8);
      var (versionCreator, b) := Take(b, 2);
      var (versionExtract, b) := Take(b, 2);
      var (currentDisk, b) := Take(b, 4);
      var (directoryDisk, b) := Take(b, 4);
      var (entryCountDisk, b) := Take(b, 8);
      var (entryCount, b) := Take(b, 8);
      var (directorySize, b) := Take(b, 8);
      var (directoryOffset, b) := Take(b, 8);
      End64Record(signature, size, versionCreator, versionExtract, currentDisk, directoryDisk,
                  entryCountDisk, entryCount, directorySize, directoryOffset)
    }

    lemma RoundTrip()
      requires Fits()
      ensures Decode(Encode()) == this
    {
      Ranges();
      hide Take, LE;
      var e := LE(directoryOffset, 8) + [];
      TakeStored(directoryOffset, 8, []);
      TakeStored(directorySize, 8, e);
      e := LE(directorySize, 8) + e;
      TakeStored(entryCount, 8, e);
      e := LE(entryCount, 8) + e;
      TakeStored(entryCountDisk, 8, e);
      e := LE(entryCountDisk, 8) + e;
      TakeStored(directoryDisk, 4, e);
      e := LE(directoryDisk, 4) + e;
      TakeStored(currentDisk, 4, e);
      e := LE(currentDisk, 4) + e;
      TakeStored(versionExtract, 2, e);
      e := LE(versionExtract, 2) + e;
      TakeStored(versionCreator, 2, e);
      e := LE(versionCreator, 2) + e;
      TakeStored(size, 8, e);
      e := LE(size, 8) + e;
      TakeStored(signature, 4, e);
    }

    // Where each field stands.
    static lemma Places(b: seq<byte>)
      requires |b| == END64_SIZE
      ensures var h := Decode(b);
              && h.signature == FromLE(b[0..4]) && h.size == FromLE(b[4..12])
              && h.versionCreator == FromLE(b[12..14]) && h.versionExtract == FromLE(b[14..16])
              && h.currentDisk == FromLE(b[16..20]) && h.directoryDisk == FromLE(b[20..24])
              && h.entryCountDisk == FromLE(b[24..32]) && h.entryCount == FromLE(b[32..40])
              && h.directorySize == FromLE(b[40..48]) && h.directoryOffset == FromLE(b[48..56])
    {
      hide Take, FromLE;
      assert b[0..] == b;
      TakeFrom(b, 0, 4);
      TakeFrom(b, 4, 8);
      TakeFrom(b, 12, 2);
      TakeFrom(b, 14, 2);
      TakeFrom(b, 16, 4);
      TakeFrom(b, 20, 4);
      TakeFrom(b, 24, 8);
      TakeFrom(b, 32, 8);
      TakeFrom(b, 40, 8);
      TakeFrom(b, 48, 8);
    }
  }

  datatype End64Locator = End64Locator(signature: nat, endRecordDisk: nat, endRecordOffset: nat, diskCount: nat) {
    function Encode(): (r: seq<byte>)
      ensures |r| == LOCATOR_SIZE
    {
      LE(signature, 4) + (LE(endRecordDisk, 4) + (LE(endRecordOffset, 8) + (LE(diskCount, 4) + [])))
    }

    static function Decode(b: seq<byte>): End64Locator
      requires |b| == LOCATOR_SIZE
    {
      var (signature, b) := Take(b, 4);
      var (endRecordDisk, b) := Take(b, 4);
      var (endRecordOffset, b) := Take(b, 8);
      var (diskCount, b) := Take(b, 4);
      End64Locator(signature, endRecordDisk, endRecordOffset, diskCount)
    }

    lemma RoundTrip()
      requires signature < 0x1_0000_0000 && endRecordDisk < 0x1_0000_0000 && diskCount < 0x1_0000_0000
      requires endRecordOffset < 0x1_0000_0000_0000_0000
      ensures Decode(Encode()) == this
    {
      Ranges();
      hide Take, LE;
      var e := LE(diskCount, 4) + [];
      TakeStored(diskCount, 4, []);
      TakeStored(endRecordOffset, 8, e);
      e := LE(endRecordOffset, 8) + e;
      TakeStored(endRecordDisk, 4, e);
      e := LE(endRecordDisk, 4) + e;
      TakeStored(signature, 4, e);
    }

    // Where each field stands.
    static lemma Places(b: seq<byte>)
      requires |b| == LOCATOR_SIZE
      ensures var h := Decode(b);
              && h.signature == FromLE(b[0..4]) && h.endRecordDisk == FromLE(b[4..8])
              && h.endRecordOffset == FromLE(b[8..16]) && h.diskCount == FromLE(b[16..20])
    {
      hide Take, FromLE;
      assert b[0..] == b;
      TakeFrom(b, 0, 4);
      TakeFrom(b, 4, 4);
      TakeFrom(b, 8, 8);
      TakeFrom(b, 16, 4);
    }
  }

  datatype EndRecord = EndRecord(
    signature: nat, currentDisk: nat, directoryDisk: nat, entryCountDisk: nat, entryCount: nat,
    directorySize: nat, directoryOffset: nat, commentLength: nat)
  {
    predicate Fits() {
      && signature < 0x1_0000_0000 && currentDisk < 0x1_0000 && directoryDisk < 0x1_0000
      && entryCountDisk < 0x1_0000 && entryCount < 0x1_0000 && directorySize < 0x1_0000_0000
      && directoryOffset < 0x1_0000_0000 && commentLength < 0x1_0000
    }

    function Encode(): (r: seq<byte>)
      ensures |r| == END_SIZE
    {
      LE(signature, 4) + (LE(currentDisk, 2) + (LE(directoryDisk, 2) + (LE(entryCountDisk, 2) + (LE(entryCount, 2)
      + (LE(directorySize, 4) + (LE(directoryOffset, 4) + (LE(commentLength, 2) + [])))))))
    }

    static function Decode(b: seq<byte>): EndRecord
      requires |b| == END_SIZE
    {
      var (signature, b) := Take(b, 4);
      var (currentDisk, b) := Take(b, 2);
      var (directoryDisk, b) := Take(b, 2);
      var (entryCountDisk, b) := Take(b, 2);
      var (entryCount, b) := Take(b, 2);
      var (directorySize, b) := Take(b, 4);
      var (directoryOffset, b) := Take(b, 4);
      var (commentLength, b) := Take(b, 2);
      EndRecord(signature, currentDisk, directoryDisk, entryCountDisk, entryCount, directorySize,
                directoryOffset, commentLength)
    }

    lemma RoundTrip()
      requires Fits()
      ensures Decode(Encode()) == this
    {
      Ranges();
      hide Take, LE;
      var e := LE(commentLength, 2) + [];
      TakeStored(commentLength, 2, []);
      TakeStored(directoryOffset, 4, e);
      e := LE(directoryOffset, 4) + e;
      TakeStored(directorySize, 4, e);
      e := LE(directorySize, 4) + e;
      TakeStored(entryCount, 2, e);
      e := LE(entryCount, 2) + e;
      TakeStored(entryCountDisk, 2, e);
      e := LE(entryCountDisk, 2) + e;
      TakeStored(directoryDisk, 2, e);
      e := LE(directoryDisk, 2) + e;
      TakeStored(currentDisk, 2, e);
      e := LE(currentDisk, 2) + e;
      TakeStored(signature, 4, e);
    }

    // Where each field stands.
    static lemma Places(b: seq<byte>)
      requires |b| == END_SIZE
      ensures var h := Decode(b);
              && h.signature == FromLE(b[0..4]) && h.currentDisk == FromLE(b[4..6])
              && h.directoryDisk == FromLE(b[6..8]) && h.entryCountDisk == FromLE(b[8..10])
              && h.entryCount == FromLE(b[10..12]) && h.directorySize == FromLE(b[12..16])
              && h.directoryOffset == FromLE(b[16..20]) && h.commentLength == FromLE(b[20..22])
    {
      hide Take, FromLE;
      assert b[0..] == b;
      TakeFrom(b, 0, 4);
      TakeFrom(b, 4, 2);
      TakeFrom(b, 6, 2);
      TakeFrom(b, 8, 2);
      TakeFrom(b, 10, 2);
      TakeFrom(b, 12, 4);
      TakeFrom(b, 16, 4);
      TakeFrom(b, 20, 2);
    }
  }

  // The header of a block in the extensible part of a zip64 end record.
  datatype BlockHeader = BlockHeader(id: nat, size: nat) {
    static function Decode(b: seq<byte>): BlockHeader
      requires |b| == BLOCK_SIZE
    {
      var (id, b) := Take(b, 2);
      var (size, b) := Take(b, 4);
      BlockHeader(id, size)
    }

    // Where each field stands.
    static lemma Places(b: seq<byte>)
      requires |b| == BLOCK_SIZE
      ensures var h := Decode(b);
              && h.id == FromLE(b[0..2]) && h.size == FromLE(b[2..6])
    {
      hide Take, FromLE;
      assert b[0..] == b;
      TakeFrom(b, 0, 2);
      TakeFrom(b, 2, 4);
    }
  }
}
